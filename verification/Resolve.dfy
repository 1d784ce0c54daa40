/** Finding the connection a datagram belongs to (`resolve_dcid`, tokio-ngtcp2/src/server.rs). */
module Resolve {
  import opened Octets

  /** Connection IDs, connection keys (which are connection IDs too) and socket addresses. */
  type Cid = seq<byte>
  type Key = Cid
  type Addr = nat

  const MAX_CID_LEN: nat := 20

  predicate IsLong(data: seq<byte>) {
    data != [] && data[0] >= 128
  }

  /** The destination connection ID of a long header, if it is complete and not over-long. */
  function LongDcid(data: seq<byte>): Option<Cid>
    requires IsLong(data)
  {
    if |data| < 6 || |data| < 6 + LengthByte(data) || LengthByte(data) > MAX_CID_LEN then None
    else Some(data[6..6 + LengthByte(data)])
  }

  function LengthByte(data: seq<byte>): nat
    requires |data| >= 6
  {
    data[5]
  }

  /** The bytes after the first are long enough to be, and are, a registered ID of this length. */
  predicate MatchesAt(cids: map<Cid, Key>, lens: set<nat>, data: seq<byte>, len: nat) {
    len in lens && 1 + len <= |data| && len <= MAX_CID_LEN && data[1..1 + len] in cids
  }

  /** The longest matching length that is at most `len`. */
  function LongestUpTo(cids: map<Cid, Key>, lens: set<nat>, data: seq<byte>, len: nat): (r: Option<nat>)
    ensures r.Some? ==> r.value <= len && MatchesAt(cids, lens, data, r.value)
    ensures r.Some? ==> forall l :: r.value < l <= len ==> !MatchesAt(cids, lens, data, l)
    ensures r.None? ==> forall l :: 0 <= l <= len ==> !MatchesAt(cids, lens, data, l)
  {
    if MatchesAt(cids, lens, data, len) then Some(len)
    else if len == 0 then None
    else LongestUpTo(cids, lens, data, len - 1)
  }

  /**
    The owner of a datagram by connection ID: an exact lookup for a long header, and for a short
    header the longest registered ID, among the lengths in the set, that starts after the first byte.
   */
  function ResolveDcid(cids: map<Cid, Key>, lens: set<nat>, data: seq<byte>): Option<Key> {
    if data == [] then None
    else if IsLong(data) then
      match LongDcid(data)
      case None => None
      case Some(dcid) => if dcid in cids then Some(cids[dcid]) else None
    else
      match LongestUpTo(cids, lens, data, MAX_CID_LEN)
      case None => None
      case Some(len) => Some(cids[data[1..1 + len]])
  }

  lemma {:induction false} HasGreatest(s: set<nat>)
    requires s != {}
    ensures exists m :: m in s && forall x :: x in s ==> x <= m
  {
    var x :| x in s;
    if s != {x} {
      var rest := s - {x};
      assert rest + {x} == s;
      HasGreatest(rest);
      var m :| m in rest && forall y :: y in rest ==> y <= m;
      var top := if x > m then x else m;
      assert top in s && forall y :: y in s ==> y <= top by {
        forall y | y in s ensures y <= top {
          assert y == x || y in rest;
        }
      }
    }
  }

  /** `resolve_dcid` as written: the lengths from the longest down, the first hit wins. */
  method FindOwner(cids: map<Cid, Key>, lens: set<nat>, data: seq<byte>) returns (owner: Option<Key>)
    ensures owner == ResolveDcid(cids, lens, data)
  {
    if data == [] {
      return None;
    }
    if data[0] >= 128 {
      if |data| < 6 {
        return None;
      }
      var len := LengthByte(data);
      if |data| < 6 + len || len > MAX_CID_LEN {
        return None;
      }
      var dcid := data[6..6 + len];
      return if dcid in cids then Some(cids[dcid]) else None;
    }
    var rest := lens;
    while rest != {}
      invariant rest <= lens
      invariant forall l :: l in lens && l !in rest ==> !MatchesAt(cids, lens, data, l)
      invariant forall l, m :: l in lens && l !in rest && m in rest ==> m < l
      decreases |rest|
    {
      HasGreatest(rest);
      var len :| len in rest && forall x :: x in rest ==> x <= len;
      rest := rest - {len};
      if |data| < 1 + len {
        continue;
      }
      if len <= MAX_CID_LEN && data[1..1 + len] in cids {
        assert MatchesAt(cids, lens, data, len);
        return Some(cids[data[1..1 + len]]);
      }
    }
    owner := None;
  }

  /** A registered ID that starts the short header and is the longest that does decides the owner. */
  lemma ResolvesTo(cids: map<Cid, Key>, lens: set<nat>, data: seq<byte>, len: nat)
    requires data != [] && !IsLong(data)
    requires MatchesAt(cids, lens, data, len)
    requires forall l: nat :: MatchesAt(cids, lens, data, l) ==> l <= len
    ensures ResolveDcid(cids, lens, data) == Some(cids[data[1..1 + len]])
  {
  }

  /** The length is the longest at which a registered ID starts the short header. */
  ghost predicate LongestMatch(cids: map<Cid, Key>, lens: set<nat>, data: seq<byte>, len: nat) {
    MatchesAt(cids, lens, data, len) && forall l: nat :: MatchesAt(cids, lens, data, l) ==> l <= len
  }

  /** A short header resolves to a key exactly if the longest match belongs to that key. */
  lemma ResolvesByLongestMatch(cids: map<Cid, Key>, lens: set<nat>, data: seq<byte>, key: Key)
    requires data != [] && !IsLong(data)
    ensures ResolveDcid(cids, lens, data) == Some(key)
            <==> exists len: nat :: LongestMatch(cids, lens, data, len) && cids[data[1..1 + len]] == key
  {
    var r := LongestUpTo(cids, lens, data, MAX_CID_LEN);
    if r.Some? {
      assert LongestMatch(cids, lens, data, r.value);
    }
  }

  /** The layout of a long header: the ID's length in the sixth byte, at most 20, and the ID after it. */
  lemma LongDcidExactly(data: seq<byte>, cid: Cid)
    requires IsLong(data)
    ensures LongDcid(data) == Some(cid)
            <==> |cid| <= 20 && |data| >= 6 + |cid| && data[5] as int == |cid| && data[6..6 + |cid|] == cid
  {
    if LongDcid(data) == Some(cid) {
      assert |cid| == LengthByte(data);
    }
  }

  /** A long header resolves to a key exactly if the ID it carries in full is registered for it. */
  lemma LongResolvesExactly(cids: map<Cid, Key>, lens: set<nat>, data: seq<byte>, key: Key)
    requires IsLong(data)
    ensures ResolveDcid(cids, lens, data) == Some(key)
            <==> |data| >= 6 && data[5] <= 20 && |data| >= 6 + LengthByte(data)
                 && data[6..6 + LengthByte(data)] in cids && cids[data[6..6 + LengthByte(data)]] == key
  {
  }
}

/**
  What `take_connection` does to the two routing tables: the connection's entries move from the
  server's own table to the shared one (tokio-ngtcp2/src/server.rs).
 */
module HandOff {
  import opened Octets
  import opened Resolve
  import opened RouteTable

  /** The lists collected from the maps hold each entry of the connection, in some order. */
  ghost predicate Collected(own: Table, key: Key, cids: seq<Cid>, addrs: seq<Addr>) {
    && (forall c :: c in cids <==> c in CidsOf(own, key))
    && (forall a :: a in addrs <==> a in AddrsOf(own, key))
  }

  function SharedAfter(shared: Table, key: Key, cids: seq<Cid>, addrs: seq<Addr>): Table {
    RegisterAddrs(Register(shared, key, cids), key, addrs)
  }

  /** No registered ID is a prefix of another. */
  ghost predicate PrefixFree(own: Table, shared: Table) {
    forall a, b :: a in own.cids.Keys + shared.cids.Keys && b in own.cids.Keys + shared.cids.Keys && a <= b ==> a == b
  }

  /** The ID of length `len` after the first byte is owned by `key` in the table. */
  ghost predicate OwnedAt(t: Table, key: Key, data: seq<byte>, len: nat) {
    1 + len <= |data| && len <= MAX_CID_LEN && data[1..1 + len] in t.cids && t.cids[data[1..1 + len]] == key
  }

  /** A registered, listed ID of some other connection starts the packet at this length. */
  ghost predicate OtherAt(t: Table, key: Key, data: seq<byte>, len: nat) {
    MatchesAt(t.cids, t.lens, data, len) && t.cids[data[1..1 + len]] != key
  }

  // ---------------------------------------------------------------- long headers

  /** A long header names its connection ID, so the hand-over is exact for it. */
  lemma LongHeaderHandOff(own: Table, shared: Table, key: Key, cids: seq<Cid>, addrs: seq<Addr>, data: seq<byte>)
    requires Collected(own, key, cids, addrs) && IsLong(data)
    requires ResolveDcid(own.cids, own.lens, data) == Some(key)
    ensures ResolveDcid(Forget(own, key).cids, own.lens, data).None?
    ensures var after := SharedAfter(shared, key, cids, addrs);
            ResolveDcid(after.cids, after.lens, data) == Some(key)
  {
    var dcid := LongDcid(data).value;
    assert dcid in CidsOf(own, key);
  }

  // ---------------------------------------------------------------- short headers

  /** The server lets go of the packet exactly if no other connection it holds also claims it. */
  lemma ServerReleases(own: Table, key: Key, data: seq<byte>)
    requires data != [] && !IsLong(data)
    ensures ResolveDcid(Forget(own, key).cids, own.lens, data).None? <==> forall l: nat :: !OtherAt(own, key, data, l)
  {
    var after := Forget(own, key);
    assert forall l: nat :: MatchesAt(after.cids, own.lens, data, l) <==> OtherAt(own, key, data, l);
    var r := LongestUpTo(after.cids, own.lens, data, MAX_CID_LEN);
    if r.Some? {
      assert OtherAt(own, key, data, r.value);
    }
  }

  /** After the hand-over the shared table lists every ID the connection had. */
  lemma SharedMatches(own: Table, shared: Table, key: Key, cids: seq<Cid>, addrs: seq<Addr>, data: seq<byte>, len: nat)
    requires Collected(own, key, cids, addrs) && LengthsListed(shared)
    ensures var after := SharedAfter(shared, key, cids, addrs);
            && (MatchesAt(after.cids, after.lens, data, len)
                <==> OwnedAt(own, key, data, len) || MatchesAt(shared.cids, shared.lens, data, len))
            && (MatchesAt(after.cids, after.lens, data, len) && after.cids[data[1..1 + len]] != key
                <==> !OwnedAt(own, key, data, len) && OtherAt(shared, key, data, len))
  {
    if 1 + len <= |data| && len <= MAX_CID_LEN {
      var c := data[1..1 + len];
      assert |c| == len;
      assert c in cids <==> c in CidsOf(own, key);
    }
  }

  /**
    The shared table delivers a packet the server resolved to the connection exactly if no other
    accepted connection claims it with an ID longer than every one of the connection's own.
   */
  lemma SharedClaims(own: Table, shared: Table, key: Key, cids: seq<Cid>, addrs: seq<Addr>, data: seq<byte>)
    requires Collected(own, key, cids, addrs) && LengthsListed(shared)
    requires data != [] && !IsLong(data) && ResolveDcid(own.cids, own.lens, data) == Some(key)
    ensures var after := SharedAfter(shared, key, cids, addrs);
            ResolveDcid(after.cids, after.lens, data) == Some(key)
            <==> forall l: nat :: OtherAt(shared, key, data, l) ==>
                   exists m: nat :: m >= l && (OwnedAt(own, key, data, m) || OwnedAt(shared, key, data, m))
  {
    var after := SharedAfter(shared, key, cids, addrs);
    var mine := LongestUpTo(own.cids, own.lens, data, MAX_CID_LEN).value;
    assert OwnedAt(own, key, data, mine);
    SharedMatches(own, shared, key, cids, addrs, data, mine);
    var top := LongestUpTo(after.cids, after.lens, data, MAX_CID_LEN).value;
    SharedMatches(own, shared, key, cids, addrs, data, top);
    if ResolveDcid(after.cids, after.lens, data) == Some(key) {
      assert OwnedAt(own, key, data, top) || OwnedAt(shared, key, data, top);
      forall l: nat | OtherAt(shared, key, data, l)
        ensures exists m: nat :: m >= l && (OwnedAt(own, key, data, m) || OwnedAt(shared, key, data, m))
      {
        SharedMatches(own, shared, key, cids, addrs, data, l);
        assert l <= top;
      }
    } else {
      assert OtherAt(shared, key, data, top);
      forall m: nat | m >= top && (OwnedAt(own, key, data, m) || OwnedAt(shared, key, data, m)) ensures false {
        SharedMatches(own, shared, key, cids, addrs, data, m);
      }
    }
  }

  // ---------------------------------------------------------------- the hand-off theorem

  /** With prefix-free IDs at most one registered ID starts a packet. */
  lemma OnePrefix(own: Table, shared: Table, data: seq<byte>, l: nat, m: nat)
    requires PrefixFree(own, shared)
    requires 1 + l <= |data| && data[1..1 + l] in own.cids.Keys + shared.cids.Keys
    requires 1 + m <= |data| && data[1..1 + m] in own.cids.Keys + shared.cids.Keys
    ensures l == m
  {
    var a, b := data[1..1 + l], data[1..1 + m];
    assert |a| == l && |b| == m;
    assert a <= b || b <= a;
  }

  /**
    Every datagram the server resolved to the connection before it was taken is unresolved there
    afterwards and resolved to the same connection by the shared table. The server's table has no
    address entries, as with a non-zero connection ID length.
   */
  lemma HandOffPreservesOwner(own: Table, shared: Table, key: Key, cids: seq<Cid>, addrs: seq<Addr>, data: seq<byte>, from: Addr)
    requires Collected(own, key, cids, addrs) && LengthsListed(shared) && PrefixFree(own, shared)
    requires own.addrs == map[]
    requires ServerOwner(own, data, from) == Some(key)
    ensures ServerOwner(Forget(own, key), data, from).None?
    ensures SharedOwner(SharedAfter(shared, key, cids, addrs), data, from) == Some(key)
  {
    if IsLong(data) {
      LongHeaderHandOff(own, shared, key, cids, addrs, data);
    } else {
      var mine := LongestUpTo(own.cids, own.lens, data, MAX_CID_LEN).value;
      assert OwnedAt(own, key, data, mine);
      forall l: nat | OtherAt(own, key, data, l) || OtherAt(shared, key, data, l) ensures l == mine {
        OnePrefix(own, shared, data, l, mine);
      }
      ServerReleases(own, key, data);
      SharedClaims(own, shared, key, cids, addrs, data);
    }
  }

  /** Other connections keep their datagrams in the server's table, whatever the IDs are. */
  lemma HandOffKeepsOthers(own: Table, key: Key, other: Key, data: seq<byte>, from: Addr)
    requires other != key && ServerOwner(own, data, from) == Some(other)
    ensures ServerOwner(Forget(own, key), data, from) == Some(other)
  {
    var after := Forget(own, key);
    if !IsLong(data) && data != [] {
      assert forall l: nat :: MatchesAt(after.cids, own.lens, data, l) ==> MatchesAt(own.cids, own.lens, data, l);
      if ResolveDcid(own.cids, own.lens, data).Some? {
        ResolvesTo(after.cids, own.lens, data, LongestUpTo(own.cids, own.lens, data, MAX_CID_LEN).value);
      }
    }
  }
}

/** The two routing tables of the server and what the code does to them (tokio-ngtcp2/src/server.rs). */
module RouteTable {
  import opened Octets
  import opened Resolve

  /** `cid_map`, `addr_map` and `short_cid_lengths`. */
  datatype Table = Table(cids: map<Cid, Key>, addrs: map<Addr, Key>, lens: set<nat>)

  /** Connection IDs of one connection, registered with their lengths. */
  function Register(t: Table, key: Key, cids: seq<Cid>): Table {
    Table(t.cids + (map c | c in cids :: key), t.addrs, t.lens + (set c | c in cids :: |c|))
  }

  function RegisterAddrs(t: Table, key: Key, addrs: seq<Addr>): Table {
    t.(addrs := t.addrs + (map a | a in addrs :: key))
  }

  /** Retired IDs leave the table if the connection still owns them. */
  function Retire(t: Table, key: Key, cids: seq<Cid>): Table {
    t.(cids := map c | c in t.cids && !(c in cids && t.cids[c] == key) :: t.cids[c])
  }

  /** `retain(|_, key| key != conn_key)` on both maps. */
  function Forget(t: Table, key: Key): Table {
    Table(map c | c in t.cids && t.cids[c] != key :: t.cids[c],
          map a | a in t.addrs && t.addrs[a] != key :: t.addrs[a],
          t.lens)
  }

  ghost function CidsOf(t: Table, key: Key): set<Cid> {
    set c | c in t.cids && t.cids[c] == key
  }

  ghost function AddrsOf(t: Table, key: Key): set<Addr> {
    set a | a in t.addrs && t.addrs[a] == key
  }

  /** `SharedRoutes::resolve`: by connection ID, else by address whatever the header form. */
  function SharedOwner(t: Table, data: seq<byte>, from: Addr): Option<Key> {
    var byCid := ResolveDcid(t.cids, t.lens, data);
    if byCid.Some? then byCid
    else if from in t.addrs then Some(t.addrs[from]) else None
  }

  /** The lookup of `Server::handle_datagram`: by address only if the packet carries no ID. */
  function ServerOwner(t: Table, data: seq<byte>, from: Addr): Option<Key> {
    var byCid := ResolveDcid(t.cids, t.lens, data);
    if byCid.Some? then byCid
    else if !IsLong(data) || (|data| > 5 && LengthByte(data) == 0) then
      if from in t.addrs then Some(t.addrs[from]) else None
    else None
  }

  ghost predicate ValuesIn(t: Table, keys: set<Key>) {
    && (forall c :: c in t.cids ==> t.cids[c] in keys)
    && (forall a :: a in t.addrs ==> t.addrs[a] in keys)
  }

  ghost predicate LengthsListed(t: Table) {
    forall c :: c in t.cids ==> |c| in t.lens
  }

  /** Whatever a table resolves to is one of its values. */
  lemma OwnerIsValue(t: Table, data: seq<byte>, from: Addr, keys: set<Key>)
    requires ValuesIn(t, keys)
    ensures SharedOwner(t, data, from).Some? ==> SharedOwner(t, data, from).value in keys
    ensures ServerOwner(t, data, from).Some? ==> ServerOwner(t, data, from).value in keys
  {
  }

  /** A short header no table entry claims starts with no registered ID whose length is listed. */
  lemma UnresolvedHasNoPrefix(t: Table, data: seq<byte>, len: nat)
    requires data != [] && !IsLong(data) && ResolveDcid(t.cids, t.lens, data).None?
    requires 1 + len <= |data| && len <= MAX_CID_LEN && len in t.lens
    ensures data[1..1 + len] !in t.cids
  {
    assert !MatchesAt(t.cids, t.lens, data, len);
  }

  /** The packet has no room for an ID: a short header, or a long one with a zero-length ID. */
  ghost predicate CarriesNoId(data: seq<byte>) {
    data == [] || data[0] < 128 || (|data| >= 6 && data[5] == 0)
  }

  /** The address decides in the server's table exactly if no ID does and the packet carries none. */
  lemma ServerOwnerByAddress(t: Table, data: seq<byte>, from: Addr)
    requires ResolveDcid(t.cids, t.lens, data).None?
    ensures CarriesNoId(data) && from in t.addrs ==> ServerOwner(t, data, from) == Some(t.addrs[from])
    ensures !CarriesNoId(data) || from !in t.addrs ==> ServerOwner(t, data, from).None?
  {
  }

  /** In the shared table it decides for every packet that no ID decides. */
  lemma SharedOwnerByAddress(t: Table, data: seq<byte>, from: Addr)
    requires ResolveDcid(t.cids, t.lens, data).None?
    ensures from in t.addrs ==> SharedOwner(t, data, from) == Some(t.addrs[from])
    ensures from !in t.addrs ==> SharedOwner(t, data, from).None?
  {
  }

  /** In both an ID comes first. */
  lemma IdComesFirst(t: Table, data: seq<byte>, from: Addr)
    requires ResolveDcid(t.cids, t.lens, data).Some?
    ensures ServerOwner(t, data, from) == SharedOwner(t, data, from) == ResolveDcid(t.cids, t.lens, data)
  {
  }

  lemma FewerIdsResolveLess(small: Table, large: Table, data: seq<byte>)
    requires small.lens <= large.lens && small.cids.Keys <= large.cids.Keys
    requires ResolveDcid(large.cids, large.lens, data).None?
    ensures ResolveDcid(small.cids, small.lens, data).None?
  {
    if data != [] && !IsLong(data) {
      assert forall l: nat :: MatchesAt(small.cids, small.lens, data, l) ==> MatchesAt(large.cids, large.lens, data, l);
    }
  }

  /** Forgetting a connection leaves every datagram of the others with them, in either table. */
  lemma ForgetKeepsOwner(t: Table, key: Key, other: Key, data: seq<byte>, from: Addr)
    requires other != key
    ensures SharedOwner(t, data, from) == Some(other) && ResolveDcid(t.cids, t.lens, data).Some?
            ==> SharedOwner(Forget(t, key), data, from) == Some(other)
    ensures from in t.addrs && t.addrs[from] == other && ResolveDcid(t.cids, t.lens, data).None?
            ==> SharedOwner(Forget(t, key), data, from) == Some(other)
  {
    var after := Forget(t, key);
    if ResolveDcid(t.cids, t.lens, data).None? {
      FewerIdsResolveLess(after, t, data);
    } else if !IsLong(data) && ResolveDcid(t.cids, t.lens, data) == Some(other) {
      assert forall l: nat :: MatchesAt(after.cids, t.lens, data, l) ==> MatchesAt(t.cids, t.lens, data, l);
      ResolvesTo(after.cids, t.lens, data, LongestUpTo(t.cids, t.lens, data, MAX_CID_LEN).value);
    }
  }
}

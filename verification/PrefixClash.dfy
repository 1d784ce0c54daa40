/**
  Runs of the routing system in which a hand-over gives packets to the wrong connection. With a
  configured SCID length below 8, the 8-byte SCID of a Retry can start with the SCID generated for
  another connection.
 */
module PrefixClash {
  import opened Octets
  import opened Resolve
  import opened RouteTable
  import opened Admission
  import opened RouteSystem
  import opened LiveRoutes
  import opened Openings

  /** A client of each kind: one that came with a NEW_TOKEN token and stays, one that came back from a Retry and is taken. */
  datatype Clients = Clients(kept: Cid, keptDcid: Cid, taken: Cid, takenDcid: Cid)

  /** The SCID of the first is a proper prefix of that of the second. */
  ghost predicate Clash(c: Clients) {
    && 0 < |c.kept| < 8 && |c.keptDcid| == |c.taken| == |c.takenDcid| == 8
    && c.taken[..|c.kept|] == c.kept
    && c.keptDcid != c.taken && c.keptDcid != c.takenDcid && c.taken != c.takenDcid
  }

  function Cfg(c: Clients): Config {
    Config(true, true, |c.kept|, 10_000_000_000)
  }

  const NEW_TOKEN: NewToken := NewToken(0, 0)

  function RetryTokenOf(c: Clients): RetryToken {
    RetryToken(1, 0, c.taken, c.takenDcid, 0)
  }

  function TokensOf(c: Clients): Issued {
    Issued({RetryTokenOf(c)}, {NEW_TOKEN})
  }

  function CreateKept(c: Clients): Event {
    AskShared(Some(Initial(1, c.keptDcid, [], FromNewToken(NEW_TOKEN))), TokensOf(c), 1, Smooth(Some(c.kept)))
  }

  function CreateTaken(c: Clients): Event {
    AskShared(Some(Initial(1, c.taken, [], FromRetry(RetryTokenOf(c)))), TokensOf(c), 1, Smooth(None))
  }

  function TwoRoutes(c: Clients): Table {
    Table(map[c.kept := c.kept, c.keptDcid := c.kept, c.taken := c.taken, c.takenDcid := c.taken], map[], {|c.kept|, 8})
  }

  function HoldsTwo(c: Clients): System {
    Bound(Cfg(c)).(conns := {c.kept, c.taken}, own := TwoRoutes(c))
  }

  lemma HoldsOneReachable(c: Clients, tail: seq<byte>)
    requires Clash(c)
    ensures Reachable(Cfg(c), Held(Cfg(c), c.kept, c.keptDcid))
  {
    var cfg, d := Cfg(c), Datagram(LongPacket(c.keptDcid, tail), 0, 0, 0);
    LongPacketNames(c.keptDcid, tail);
    BoundReachable(cfg);
    StepRead(cfg, Bound(cfg), d, c.keptDcid);
    StepReachable(cfg, Bound(cfg), Receive(d, QUIET), Bound(cfg).(progress := Unrouted(d)));
    StepCreate(cfg, d, CreateKept(c), c.kept, c.keptDcid);
    StepReachable(cfg, Bound(cfg).(progress := Unrouted(d)), CreateKept(c), Held(cfg, c.kept, c.keptDcid));
  }

  lemma SecondRoutes(c: Clients)
    requires Clash(c)
    ensures AddRoutes(Held(Cfg(c), c.kept, c.keptDcid).own, c.taken, c.taken, 0, c.takenDcid, None, []) == TwoRoutes(c)
  {
  }

  lemma StepCreateTaken(c: Clients, d: Datagram)
    requires Clash(c) && Names(d.data, c.taken) && d.from == 0
    ensures Steps(Cfg(c), Held(Cfg(c), c.kept, c.keptDcid).(progress := Unrouted(d)), CreateTaken(c), HoldsTwo(c))
  {
    var cfg, s := Cfg(c), Held(Cfg(c), c.kept, c.keptDcid).(progress := Unrouted(d));
    assert Decide(cfg, TokensOf(c), CreateTaken(c).accepted.value, 0, 1) == Admit(c.takenDcid, true, true);
    UnknownId(s.shared, d.data, c.taken, 0);
    CreatingIsNewConnection(cfg, s, CreateTaken(c));
    SecondRoutes(c);
    assert {c.kept} + {c.taken} == {c.kept, c.taken};
  }

  lemma HoldsTwoReachable(c: Clients, first: seq<byte>, second: seq<byte>)
    requires Clash(c)
    ensures Reachable(Cfg(c), HoldsTwo(c))
  {
    var cfg, d := Cfg(c), Datagram(LongPacket(c.taken, second), 0, 0, 0);
    var s := Held(cfg, c.kept, c.keptDcid);
    HoldsOneReachable(c, first);
    LongPacketNames(c.taken, second);
    StepRead(cfg, s, d, c.taken);
    StepReachable(cfg, s, Receive(d, QUIET), s.(progress := Unrouted(d)));
    StepCreateTaken(c, d);
    StepReachable(cfg, s.(progress := Unrouted(d)), CreateTaken(c), HoldsTwo(c));
  }

  /** A short header to the connection that will be taken. */
  function Short(c: Clients, tail: seq<byte>): seq<byte> {
    [0] + c.taken + tail
  }

  lemma OwnerBefore(c: Clients, tail: seq<byte>)
    requires Clash(c)
    ensures ServerOwner(TwoRoutes(c), Short(c, tail), 0) == Some(c.taken)
  {
    assert Short(c, tail)[1..9] == c.taken;
    ResolvesTo(TwoRoutes(c).cids, TwoRoutes(c).lens, Short(c, tail), 8);
  }

  lemma OwnerAfter(c: Clients, tail: seq<byte>)
    requires Clash(c)
    ensures ServerOwner(Forget(TwoRoutes(c), c.taken), Short(c, tail), 0) == Some(c.kept)
  {
    var after, data := Forget(TwoRoutes(c), c.taken), Short(c, tail);
    assert data[1..9] == c.taken;
    assert data[1..1 + |c.kept|] == c.taken[..|c.kept|];
    ResolvesTo(after.cids, after.lens, data, |c.kept|);
  }

  /**
    Without prefix-free IDs a hand-over loses packets: in a reachable state, whichever way the
    connection is taken, all its packets then resolve to the other connection.
   */
  lemma PrefixClaimsPacket(c: Clients, e: Event, first: seq<byte>, second: seq<byte>, tail: seq<byte>)
    requires Clash(c) && e.Take? && e.taken == c.taken && Enabled(Cfg(c), HoldsTwo(c), e)
    ensures Reachable(Cfg(c), HoldsTwo(c)) && Shaped(HoldsTwo(c))
    ensures ServerOwner(HoldsTwo(c).own, Short(c, tail), 0) == Some(c.taken)
    ensures ServerOwner(Step(Cfg(c), HoldsTwo(c), e).own, Short(c, tail), 0) == Some(c.kept)
  {
    HoldsTwoReachable(c, first, second);
    OwnerBefore(c, tail);
    OwnerAfter(c, tail);
  }
}

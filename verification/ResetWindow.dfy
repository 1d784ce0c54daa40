/**
  Runs of the routing system in which a Stateless Reset is about to be sent for a connection ID that
  the client of a live connection may use: registered between the two looks the server takes at the
  shared state, or announced to the client and not yet registered. The IDs are any IDs of 8 bytes
  and the packets go on in any way, so that real packets are among them.
 */
module ResetWindow {
  import opened Octets
  import opened Resolve
  import opened RouteTable
  import opened Admission
  import opened RouteSystem
  import opened LiveRoutes
  import opened Openings

  const CFG: Config := Config(false, false, 8, 10_000_000_000)
  const NO_TOKENS: Issued := Issued({}, {})

  /** The connection's SCID, the DCID its client first used, and the ID it is issued later. */
  ghost predicate Distinct(scid: Cid, dcid: Cid, issued: Cid) {
    |scid| == |dcid| == |issued| == 8 && scid != dcid && issued != scid && issued != dcid
  }

  function Create(scid: Cid, dcid: Cid): Event {
    AskShared(Some(Initial(1, dcid, [], NoToken)), NO_TOKENS, 0, Smooth(Some(scid)))
  }

  lemma OpenedReachable(scid: Cid, dcid: Cid, tail: seq<byte>)
    requires |scid| == |dcid| == 8 && scid != dcid
    ensures Reachable(CFG, Opened(CFG, scid, dcid))
  {
    var d := Datagram(LongPacket(dcid, tail), 0, 0, 0);
    LongPacketNames(dcid, tail);
    BoundReachable(CFG);
    StepRead(CFG, Bound(CFG), d, dcid);
    StepReachable(CFG, Bound(CFG), Receive(d, QUIET), Bound(CFG).(progress := Unrouted(d)));
    StepCreate(CFG, d, Create(scid, dcid), scid, dcid);
    StepReachable(CFG, Bound(CFG).(progress := Unrouted(d)), Create(scid, dcid), Held(CFG, scid, dcid));
    StepTake(CFG, scid, dcid);
    StepReachable(CFG, Held(CFG, scid, dcid), Take(scid, 0, [scid, dcid], []), Opened(CFG, scid, dcid));
  }

  /** A short header to the ID, and whatever follows. */
  function ShortPacket(cid: Cid, tail: seq<byte>): Datagram {
    Datagram([0] + cid + tail, 0, 0, 0)
  }

  /** What the server knows does not lead to the ID. */
  lemma Unresolved(t: Table, cid: Cid, tail: seq<byte>)
    requires |cid| == 8 && cid !in t.cids && t.addrs == map[] && t.lens == {8}
    ensures ServerOwner(t, ShortPacket(cid, tail).data, 0).None? && SharedOwner(t, ShortPacket(cid, tail).data, 0).None?
  {
    var data := ShortPacket(cid, tail).data;
    assert data[1..9] == cid;
    assert forall l: nat :: !MatchesAt(t.cids, t.lens, data, l);
  }

  const ASK: Event := AskShared(None, NO_TOKENS, 0, Smooth(None))

  /** The packet is in neither table. */
  lemma StepsToUnclaimed(s: System, cid: Cid, tail: seq<byte>)
    requires Reachable(CFG, s) && Shaped(s) && s.progress.Idle? && |cid| == 8
    requires s.own == Table(map[], map[], {8}) && s.shared.lens == {8} && s.shared.addrs == map[] && cid !in s.shared.cids
    ensures Reachable(CFG, s.(progress := Unclaimed(ShortPacket(cid, tail), {}, {8})))
  {
    var d := ShortPacket(cid, tail);
    Unresolved(s.own, cid, tail);
    Unresolved(s.shared, cid, tail);
    StepReachable(CFG, s, Receive(d, QUIET), s.(progress := Unrouted(d)));
    StepReachable(CFG, s.(progress := Unrouted(d)), ASK, s.(progress := Unclaimed(d, {}, {8})));
  }

  /** The ID is not remembered, so its token is used. */
  lemma StepLook(s: System, d: Datagram, cid: Cid, tail: seq<byte>, since: set<Cid>)
    requires Reachable(CFG, s) && Shaped(s) && |cid| == 8 && |tail| >= 13
    requires d == ShortPacket(cid, tail) && s.progress == Unclaimed(d, since, {8})
    requires cid !in s.ownTaken.cids && cid !in s.sharedTaken.cids
    ensures Reachable(CFG, s.(progress := Answering(d, cid, since, {})))
  {
    assert d.data[1..9] == cid;
    StepReachable(CFG, s, LookAt(8, true), s.(progress := Answering(d, cid, since, {})));
  }

  /** The connection is issued the ID. */
  lemma StepWork(s: System, cid: Cid)
    requires Reachable(CFG, s) && Shaped(s) && 0 in s.handles && s.pending == map[0 := Pending([], [])]
    ensures Reachable(CFG, s.(pending := map[0 := Pending([cid], [])]))
  {
    var p := s.pending[0];
    assert Pending(p.issued + [cid], p.retired + []) == Pending([cid], []);
    assert s.pending[0 := Pending([cid], [])] == map[0 := Pending([cid], [])];
    StepReachable(CFG, s, AcceptedWork(0, [cid], []), s.(pending := map[0 := Pending([cid], [])]));
  }

  lemma StepSync(s: System, d: Datagram, cid: Cid) returns (t: System)
    requires Reachable(CFG, s) && Shaped(s) && 0 in s.handles && s.progress == Unclaimed(d, {}, {8})
    requires s.pending == map[0 := Pending([cid], [])]
    ensures Reachable(CFG, t) && Shaped(t) && t.progress == Unclaimed(d, {cid}, {8})
    ensures t.ownTaken == s.ownTaken && t.sharedTaken == s.sharedTaken
    ensures t.handles == s.handles && HasId(t, 0, cid)
  {
    t := SyncShared(s, 0);
    assert cid in t.shared.cids;
    assert t.progress.since == {cid};
    StepReachable(CFG, s, AcceptedSync(0), t);
  }

  /**
    The first window: the reset about to be sent uses the token of an ID that a live connection has
    registered after the shared table was asked.
   */
  lemma ResetInWindow(scid: Cid, dcid: Cid, issued: Cid, first: seq<byte>, second: seq<byte>) returns (t: System)
    requires Distinct(scid, dcid, issued) && |second| >= 13
    ensures Reachable(CFG, t) && t.progress.Answering? && t.progress.target == issued
    ensures t.progress.datagram == ShortPacket(issued, second)
    ensures HasId(t, 0, issued) && issued in t.shared.cids
  {
    var d := ShortPacket(issued, second);
    OpenedReachable(scid, dcid, first);
    var start := Opened(CFG, scid, dcid);
    StepsToUnclaimed(start, issued, second);
    var asked := start.(progress := Unclaimed(d, {}, {8}));
    StepWork(asked, issued);
    t := StepSync(asked.(pending := map[0 := Pending([issued], [])]), d, issued);
    StepLook(t, d, issued, second, {issued});
    t := t.(progress := Answering(d, issued, {issued}, {}));
    ReachableInv(CFG, t);
  }

  /**
    The second window, without a second thread: the connection has announced the ID, its client
    uses it, and the packet is read before the connection comes to register the ID.
   */
  lemma ResetBeforeSync(scid: Cid, dcid: Cid, issued: Cid, first: seq<byte>, second: seq<byte>) returns (t: System)
    requires Distinct(scid, dcid, issued) && |second| >= 13
    ensures Reachable(CFG, t) && t.progress.Answering? && t.progress.target == issued
    ensures t.progress.datagram == ShortPacket(issued, second)
    ensures HasId(t, 0, issued) && issued !in t.shared.cids
  {
    var d := ShortPacket(issued, second);
    OpenedReachable(scid, dcid, first);
    StepWork(Opened(CFG, scid, dcid), issued);
    t := Opened(CFG, scid, dcid).(pending := map[0 := Pending([issued], [])]);
    StepsToUnclaimed(t, issued, second);
    StepLook(t.(progress := Unclaimed(d, {}, {8})), d, issued, second, {});
    t := t.(progress := Answering(d, issued, {}, {}));
  }
}

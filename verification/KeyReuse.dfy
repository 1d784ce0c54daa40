/**
  Runs of the server that reuse a connection key: a client is sent a Retry and returns from it, its
  connection is accepted and retires the Retry's SCID, and a copy of its second Initial arrives while
  the token is still valid. No table leads to the SCID any more, so a second connection is made
  under the key of the first, and the shared table ends up resolving to a connection without a
  queue. The IDs are any IDs of 8 bytes and the packets go on in any way.
 */
module KeyReuse {
  import opened Octets
  import opened Resolve
  import opened RouteTable
  import opened TakenCids
  import opened Admission
  import opened RouteSystem
  import opened LiveRoutes
  import opened Openings
  import opened ServerRuns

  const CFG: Config := Config(true, false, 8, 10_000_000_000)

  /** The SCID of the Retry, the DCID the client first used, and the tails of its two packets. */
  datatype Client = Client(scid: Cid, dcid: Cid, first: seq<byte>, second: seq<byte>)

  ghost predicate Proper(c: Client) {
    |c.scid| == |c.dcid| == 8 && c.scid != c.dcid
  }

  function FirstPacket(c: Client): Datagram
    requires Proper(c)
  {
    Datagram(LongPacket(c.dcid, c.first), 0, 0, 0)
  }

  function SecondPacket(c: Client): Datagram
    requires Proper(c)
  {
    Datagram(LongPacket(c.scid, c.second), 0, 0, 0)
  }

  function FirstInitial(c: Client): Initial {
    Initial(1, c.dcid, [], NoToken)
  }

  function Token(c: Client): RetryToken {
    RetryToken(1, 0, c.scid, c.dcid, 0)
  }

  function SecondInitial(c: Client): Initial {
    Initial(1, c.scid, [], FromRetry(Token(c)))
  }

  /** The outcomes of C calls: a Retry gets this SCID, and everything else goes well. */
  function Outcome(c: Client): AddressValidation.Outcome {
    AddressValidation.Outcome(Some(c.scid), false, c.dcid, [], AddressValidation.ReadOk, [])
  }

  function AskFirst(c: Client): Event {
    AskShared(Some(FirstInitial(c)), Issued({}, {}), 0, Smooth(None))
  }

  function AskSecond(c: Client): Event {
    AskShared(Some(SecondInitial(c)), Issued({Token(c)}, {}), 1, Smooth(None))
  }

  // ---------------------------------------------------------------- what is logged

  function RetryLog(c: Client): AddressValidation.Log {
    [AddressValidation.Arrived(FirstInitial(c), 0, 0), AddressValidation.RetryMade(Token(c), 0)]
  }

  /** The Retry's token is the only one, as long as no other is made. */
  ghost predicate OnlyToken(c: Client, log: AddressValidation.Log) {
    && RetryLog(c) <= log
    && forall i :: 2 <= i < |log| ==> log[i].Arrived? || log[i].Created?
  }

  lemma IssuedOnly(c: Client, log: AddressValidation.Log)
    requires OnlyToken(c, log)
    ensures AddressValidation.IssuedBy(log) == Issued({Token(c)}, {})
  {
    assert log[1] == RetryLog(c)[1] && log[0] == RetryLog(c)[0];
    assert forall i :: 0 <= i < |log| && log[i].RetryMade? ==> i == 1;
    assert forall i :: 0 <= i < |log| ==> !log[i].NewTokenMade?;
  }

  lemma IssuedNone()
    ensures AddressValidation.IssuedBy([]) == Issued({}, {})
  {
  }

  lemma Admitted(c: Client)
    requires Proper(c)
    ensures Decide(CFG, Issued({Token(c)}, {}), SecondInitial(c), 0, 1) == Admit(c.dcid, true, true)
    ensures ServerScid(Admit(c.dcid, true, true), SecondInitial(c), None) == Some(c.scid)
  {
  }

  // ---------------------------------------------------------------- reachability

  ghost predicate ReachedBy(t: Server) {
    exists actions :: RunsTo(CFG, Fresh(CFG), actions, t)
  }

  lemma {:induction false} RunsOneMore(s: Server, actions: seq<Action>, t: Server, a: Action)
    requires RunsTo(CFG, s, actions, t) && Allowed(CFG, t, a)
    ensures RunsTo(CFG, s, actions + [a], Next(CFG, t, a))
    decreases |actions|
  {
    if actions != [] {
      RunsOneMore(Next(CFG, s, actions[0]), actions[1..], t, a);
      assert (actions + [a])[1..] == actions[1..] + [a];
    } else {
      assert RunsTo(CFG, Next(CFG, t, a), (actions + [a])[1..], Next(CFG, t, a));
    }
  }

  lemma ReachedNext(s: Server, a: Action)
    requires ReachedBy(s) && Allowed(CFG, s, a)
    ensures ReachedBy(Next(CFG, s, a))
  {
    var actions :| RunsTo(CFG, Fresh(CFG), actions, s);
    RunsOneMore(Fresh(CFG), actions, s, a);
  }

  /** A step that is not about an Initial leaves the validation state alone. */
  lemma ReachedStep(s: Server, e: Event, t: System, o: AddressValidation.Outcome)
    requires ReachedBy(s) && !e.AskShared? && Steps(CFG, s.routes, e, t)
    ensures ReachedBy(s.(routes := t))
  {
    ReachedNext(s, Route(e, o));
  }

  lemma {:induction false} ReachedSteps(s: Server, es: seq<Event>, t: System, o: AddressValidation.Outcome)
    requires ReachedBy(s) && Reaches(CFG, s.routes, es, t) && forall i :: 0 <= i < |es| ==> !es[i].AskShared?
    ensures ReachedBy(s.(routes := t))
    decreases |es|
  {
    if es != [] {
      var next := Step(CFG, s.routes, es[0]);
      ReachedStep(s, es[0], next, o);
      ReachedSteps(s.(routes := next), es[1..], t, o);
    }
  }

  // ---------------------------------------------------------------- the run

  lemma FreshReached()
    ensures ReachedBy(Fresh(CFG))
  {
    assert RunsTo(CFG, Fresh(CFG), [], Fresh(CFG));
  }

  /** The first Initial is answered with a Retry; only the log knows of it. */
  lemma RetrySent(c: Client)
    requires Proper(c)
    ensures ReachedBy(Server(Bound(CFG), AddressValidation.State(RetryLog(c), map[])))
  {
    var d, o := FirstPacket(c), Outcome(c);
    LongPacketNames(c.dcid, c.first);
    FreshReached();
    StepRead(CFG, Bound(CFG), d, c.dcid);
    var read := Bound(CFG).(progress := Unrouted(d));
    ReachedStep(Fresh(CFG), Receive(d, QUIET), read, o);
    UnknownId(read.shared, d.data, c.dcid, 0);
    IssuedNone();
    var s := Server(read, AddressValidation.START);
    ReachedNext(s, Route(AskFirst(c), o));
    assert Next(CFG, s, Route(AskFirst(c), o)).validation.log == RetryLog(c);
  }

  lemma SecondAllowed(c: Client, s: Server)
    requires Proper(c) && Shaped(s.routes) && s.routes.progress == Unrouted(SecondPacket(c)) && OnlyToken(c, s.validation.log)
    requires s.routes.conns == {} && c.scid !in s.routes.shared.cids && s.routes.shared.addrs == map[]
    ensures Allowed(CFG, s, Route(AskSecond(c), Outcome(c))) && Arriving(s.routes, AskSecond(c))
    ensures Creating(CFG, s.routes, AskSecond(c)) && DecisionIn(CFG, s.routes, AskSecond(c)).retried
    ensures Enabled(CFG, s.routes, AskSecond(c))
  {
    LongPacketNames(c.scid, c.second);
    UnknownId(s.routes.shared, SecondPacket(c).data, c.scid, 0);
    IssuedOnly(c, s.validation.log);
    Admitted(c);
  }

  /** The second Initial brings the token back, and its connection is accepted. */
  lemma Accepted(c: Client) returns (v: AddressValidation.State)
    requires Proper(c)
    ensures ReachedBy(Server(Opened(CFG, c.scid, c.dcid), v)) && OnlyToken(c, v.log)
  {
    var d, o := SecondPacket(c), Outcome(c);
    var retried := Server(Bound(CFG), AddressValidation.State(RetryLog(c), map[]));
    RetrySent(c);
    LongPacketNames(c.scid, c.second);
    StepRead(CFG, Bound(CFG), d, c.scid);
    var read := Server(Bound(CFG).(progress := Unrouted(d)), retried.validation);
    ReachedStep(retried, Receive(d, QUIET), read.routes, o);
    SecondAllowed(c, read);
    ReachedNext(read, Route(AskSecond(c), o));
    Admitted(c);
    StepCreate(CFG, d, AskSecond(c), c.scid, c.dcid);
    v := Next(CFG, read, Route(AskSecond(c), o)).validation;
    CreationLogged(c, read);
    StepTake(CFG, c.scid, c.dcid);
    ReachedStep(Server(Held(CFG, c.scid, c.dcid), v), Take(c.scid, 0, [c.scid, c.dcid], []), Opened(CFG, c.scid, c.dcid), o);
  }

  lemma CreationLogged(c: Client, s: Server)
    requires Proper(c) && OnlyToken(c, s.validation.log) && Arriving(s.routes, AskSecond(c))
    requires s.routes.progress == Unrouted(SecondPacket(c)) && Allowed(CFG, s, Route(AskSecond(c), Outcome(c)))
    ensures OnlyToken(c, Next(CFG, s, Route(AskSecond(c), Outcome(c))).validation.log)
  {
    IssuedOnly(c, s.validation.log);
    Admitted(c);
  }

  function Retired(c: Client): System {
    Opened(CFG, c.scid, c.dcid).(shared := Table(map[c.dcid := c.scid], map[], {8}), sharedTaken := Memory({c.scid}, [c.scid]))
  }

  lemma RetireTakesOut(c: Client)
    requires Proper(c)
    ensures Retire(Register(Table(map[c.scid := c.scid, c.dcid := c.scid], map[], {8}), c.scid, []), c.scid, [c.scid])
            == Table(map[c.dcid := c.scid], map[], {8})
    ensures RememberAll(EMPTY, [c.scid]) == Memory({c.scid}, [c.scid])
  {
    assert [c.scid][..0] == [];
    assert RememberAll(EMPTY, []) == EMPTY;
  }

  lemma StepsRetire(c: Client)
    requires Proper(c)
    ensures var worked := Opened(CFG, c.scid, c.dcid).(pending := map[0 := Pending([], [c.scid])]);
            && Steps(CFG, Opened(CFG, c.scid, c.dcid), AcceptedWork(0, [], [c.scid]), worked)
            && Steps(CFG, worked, AcceptedSync(0), Retired(c))
  {
    var s := Opened(CFG, c.scid, c.dcid);
    assert Pending(s.pending[0].issued + [], s.pending[0].retired + [c.scid]) == Pending([], [c.scid]);
    assert s.pending[0 := Pending([], [c.scid])] == map[0 := Pending([], [c.scid])];
    assert map[0 := Pending([], [c.scid])][0 := Pending([], [])] == s.pending;
    assert {|c.scid|, |c.dcid|} == {8};
    RetireTakesOut(c);
  }

  /** The accepted connection has retired the SCID, and a copy of the second packet has been read. */
  lemma ReadAgain(c: Client) returns (s: Server)
    requires Proper(c)
    ensures ReachedBy(s) && s.routes == Retired(c).(progress := Unrouted(SecondPacket(c))) && OnlyToken(c, s.validation.log)
  {
    var o := Outcome(c);
    var v := Accepted(c);
    StepsRetire(c);
    var start, worked := Opened(CFG, c.scid, c.dcid), Opened(CFG, c.scid, c.dcid).(pending := map[0 := Pending([], [c.scid])]);
    ReachedStep(Server(start, v), AcceptedWork(0, [], [c.scid]), worked, o);
    ReachedStep(Server(worked, v), AcceptedSync(0), Retired(c), o);
    LongPacketNames(c.scid, c.second);
    StepRead(CFG, Retired(c), SecondPacket(c), c.scid);
    s := Server(Retired(c).(progress := Unrouted(SecondPacket(c))), v);
    ReachedStep(Server(Retired(c), v), Receive(SecondPacket(c), QUIET), s.routes, o);
  }

  lemma RoutesReachable(t: Server)
    requires ReachedBy(t)
    ensures Reachable(CFG, t.routes)
  {
    var actions :| RunsTo(CFG, Fresh(CFG), actions, t);
    var es, vs := RunProjects(CFG, Fresh(CFG), actions, t);
  }

  /**
    Delivery does fail in these runs: for any ID the second connection is issued and any long header
    that names it, the shared table leads to a connection that has no queue.
   */
  lemma DeliveryFails(c: Client, issued: Cid, data: seq<byte>, from: Addr) returns (t: Server)
    requires Proper(c) && Names(data, issued)
    ensures ReachedBy(t)
    ensures SharedOwner(t.routes.shared, data, from) == Some(c.scid) && !Deliverable(t.routes, c.scid)
  {
    var s := ReadAgain(c);
    RoutesReachable(s);
    ReachableInv(CFG, s.routes);
    SecondAllowed(c, s);
    assert Live(s.routes);
    var a := Route(AskSecond(c), Outcome(c));
    ReachedNext(s, a);
    var created, es, u := ReuseBreaksDelivery(CFG, s.routes, AskSecond(c), issued, data, from);
    t := Next(CFG, s, a);
    ReachedSteps(t, es, u, Outcome(c));
    t := t.(routes := u);
  }
}

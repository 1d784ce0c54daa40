/**
  The routing system and the address validation of one server in one run: the tokens that admit a
  connection are those that the same run has made, and what is routed is what it has created.
 */
module ServerRuns {
  import opened Octets
  import opened Resolve
  import opened RouteTable
  import opened Admission
  import opened RouteSystem
  import opened LiveRoutes
  import AddressValidation

  datatype Server = Server(routes: System, validation: AddressValidation.State)

  /** A step of the routing system, with the outcomes of C calls, or events of one connection. */
  datatype Action = Route(event: Event, outcome: AddressValidation.Outcome) | OnConnection(events: AddressValidation.Event)

  /** The step comes to `handle_new_connection` with an Initial. */
  ghost predicate Arriving(s: System, e: Event) {
    e.AskShared? && s.progress.Unrouted? && e.accepted.Some?
    && IsLong(s.progress.datagram.data) && SharedOwner(s.shared, s.progress.datagram.data, s.progress.datagram.from).None?
  }

  /** Both models speak of the same random values and outcomes. */
  ghost predicate Agrees(cfg: Config, s: System, e: Event, o: AddressValidation.Outcome)
    requires Arriving(s, e)
  {
    var i, from := e.accepted.value, s.progress.datagram.from;
    && (o.retryScid.Some? ==> |o.retryScid.value| == RetryScidLen(cfg))
    && |o.scid| == cfg.scidLen
    && (e.setup.scid.Some? ==> e.setup.scid.value == o.scid)
    && (e.setup.internalKey.Some? ==> e.setup.internalKey.value == o.internalKey)
    && (Decide(cfg, e.tokens, i, from, e.ts).Admit? ==>
          (Creates(cfg, s, i, from, e.tokens, e.ts, e.setup)
           <==> !o.refused && (o.read == AddressValidation.ReadOk || o.read == AddressValidation.Discarded)))
  }

  ghost predicate Allowed(cfg: Config, s: Server, a: Action) {
    match a
    case Route(e, o) =>
      && Shaped(s.routes) && Possible(cfg, s.routes, e)
      && (e.AskShared? ==> e.tokens == AddressValidation.IssuedBy(s.validation.log))
      && (Arriving(s.routes, e) ==> Agrees(cfg, s.routes, e, o))
    case OnConnection(c) => !c.InitialArrives? && AddressValidation.Enabled(cfg, s.validation, c)
  }

  ghost function Arrival(s: System, e: Event, o: AddressValidation.Outcome): AddressValidation.Event
    requires Arriving(s, e)
  {
    AddressValidation.InitialArrives(e.accepted.value, s.progress.datagram.from, e.ts, o)
  }

  ghost function Next(cfg: Config, s: Server, a: Action): Server
    requires Allowed(cfg, s, a)
  {
    match a
    case Route(e, o) =>
      Server(Step(cfg, s.routes, e),
             if Arriving(s.routes, e) then AddressValidation.Step(cfg, s.validation, Arrival(s.routes, e, o)) else s.validation)
    case OnConnection(c) => s.(validation := AddressValidation.Step(cfg, s.validation, c))
  }

  function Fresh(cfg: Config): Server {
    Server(Bound(cfg), AddressValidation.START)
  }

  ghost predicate RunsTo(cfg: Config, s: Server, actions: seq<Action>, t: Server)
    decreases |actions|
  {
    if actions == [] then t == s
    else Allowed(cfg, s, actions[0]) && RunsTo(cfg, Next(cfg, s, actions[0]), actions[1..], t)
  }

  // ---------------------------------------------------------------- both models hold of the run

  /** What the validation model promises about tokens is what the routing model needs of them. */
  lemma RouteIsEnabled(cfg: Config, s: Server, a: Action)
    requires a.Route? && Allowed(cfg, s, a) && AddressValidation.Inv(cfg, s.validation)
    ensures Enabled(cfg, s.routes, a.event)
  {
    AddressValidation.RetryScidLength(cfg, s.validation.log);
  }

  /** The part of an action that the validation model sees. */
  ghost function Validated(s: Server, a: Action): seq<AddressValidation.Event> {
    match a
    case Route(e, o) => if Arriving(s.routes, e) then [Arrival(s.routes, e, o)] else []
    case OnConnection(c) => [c]
  }

  lemma NextValidates(cfg: Config, s: Server, a: Action)
    requires Allowed(cfg, s, a)
    ensures AddressValidation.Reaches(cfg, s.validation, Validated(s, a), Next(cfg, s, a).validation)
  {
    var vs, v := Validated(s, a), Next(cfg, s, a).validation;
    if vs != [] {
      assert vs[1..] == [];
      assert AddressValidation.Enabled(cfg, s.validation, vs[0]);
      assert AddressValidation.Reaches(cfg, v, vs[1..], v);
    }
  }

  lemma {:induction false} ValidationContinues(cfg: Config, s: AddressValidation.State, es: seq<AddressValidation.Event>,
                                               t: AddressValidation.State, fs: seq<AddressValidation.Event>, u: AddressValidation.State)
    requires AddressValidation.Reaches(cfg, s, es, t) && AddressValidation.Reaches(cfg, t, fs, u)
    ensures AddressValidation.Reaches(cfg, s, es + fs, u)
    decreases |es|
  {
    if es == [] {
      assert es + fs == fs;
    } else {
      ValidationContinues(cfg, AddressValidation.Step(cfg, s, es[0]), es[1..], t, fs, u);
      assert (es + fs)[1..] == es[1..] + fs;
    }
  }

  /** Every run of the server is a run of the routing model and a run of the validation model. */
  lemma {:induction false} RunProjects(cfg: Config, s: Server, actions: seq<Action>, t: Server)
      returns (es: seq<Event>, vs: seq<AddressValidation.Event>)
    requires RunsTo(cfg, s, actions, t) && AddressValidation.Inv(cfg, s.validation)
    ensures Reaches(cfg, s.routes, es, t.routes)
    ensures AddressValidation.Reaches(cfg, s.validation, vs, t.validation)
    decreases |actions|
  {
    if actions == [] {
      es, vs := [], [];
    } else {
      var a, next := actions[0], Next(cfg, s, actions[0]);
      NextValidates(cfg, s, a);
      AddressValidation.RunsKeepInv(cfg, s.validation, Validated(s, a), next.validation);
      es, vs := RunProjects(cfg, next, actions[1..], t);
      ValidationContinues(cfg, s.validation, Validated(s, a), next.validation, vs, t.validation);
      vs := Validated(s, a) + vs;
      if a.Route? {
        RouteIsEnabled(cfg, s, a);
        es := FirstStep(cfg, s.routes, a.event, next.routes, es, t.routes);
      }
    }
  }

  // ---------------------------------------------------------------- what is routed was created

  /** The keys of all connections, held or accepted. */
  ghost function KeysOf(s: System): set<Key> {
    s.conns + s.senders.Keys + s.handles.Values
  }

  ghost predicate Logged(log: AddressValidation.Log, key: Key) {
    exists j :: 0 <= j < |log| && log[j].Created? && log[j].conn.key == key
  }

  ghost predicate AllLogged(s: Server) {
    forall key :: key in KeysOf(s.routes) ==> Logged(s.validation.log, key)
  }

  lemma DeliveryAddsNoKey(s: System, key: Key, d: Datagram)
    requires Shaped(s)
    ensures KeysOf(Delivered(s, key, d)) <= KeysOf(s)
  {
  }

  lemma TakeAddsNoKey(s: System, key: Key, channel: Channel, cids: seq<Cid>, addrs: seq<Addr>)
    requires key in s.conns
    ensures KeysOf(TakeConnection(s, key, channel, cids, addrs)) <= KeysOf(s)
  {
    var t := TakeConnection(s, key, channel, cids, addrs);
    forall k | k in t.handles.Values ensures k in s.handles.Values || k == key {
      var ch :| ch in t.handles && t.handles[ch] == k;
      assert ch != channel ==> s.handles[ch] == k;
    }
  }

  lemma DropAddsNoKey(cfg: Config, s: System, channel: Channel)
    requires Shaped(s) && channel in s.handles
    ensures KeysOf(Step(cfg, s, AcceptedDrop(channel))) <= KeysOf(s)
  {
    var t := Step(cfg, s, AcceptedDrop(channel));
    forall k | k in t.handles.Values ensures k in s.handles.Values {
      var ch :| ch in t.handles && t.handles[ch] == k;
      assert s.handles[ch] == k;
    }
  }

  lemma ReadAddsNoKey(s: System, channel: Channel, d: Datagram, io: ConnIo)
    requires Shaped(s) && channel in s.handles
    ensures KeysOf(ReadByAccepted(s, channel, d, io)) <= KeysOf(s)
  {
    var owner := SharedOwner(s.shared, d.data, d.from);
    if owner.Some? && owner.value != s.handles[channel] {
      DeliveryAddsNoKey(s, owner.value, d);
    }
  }

  lemma AskAddsNoKey(cfg: Config, s: System, e: Event)
    requires Shaped(s) && Enabled(cfg, s, e) && e.AskShared? && !Creating(cfg, s, e)
    ensures KeysOf(Step(cfg, s, e)) <= KeysOf(s)
  {
    var d := s.progress.datagram;
    if SharedOwner(s.shared, d.data, d.from).Some? {
      DeliveryAddsNoKey(s.(progress := Idle), SharedOwner(s.shared, d.data, d.from).value, d);
    } else {
      NotCreatingOnlyRemoves(cfg, s, e);
    }
  }

  lemma ServerStepAddsNoKey(cfg: Config, s: System, e: Event)
    requires Shaped(s) && Enabled(cfg, s, e)
    requires e.Receive? || e.LookAt? || e.FinishReset? || e.Timer? || e.RemoveClosed?
    ensures KeysOf(Step(cfg, s, e)) <= KeysOf(s)
  {
    match e
    case Receive(d, io) =>
      var owner := ServerOwner(s.own, d.data, d.from);
      if owner.Some? {
        ExistingOnlyRemoves(s, owner.value, io);
      }
    case LookAt(len, hasToken) => LookOnlyRemoves(s, len, hasToken);
    case FinishReset =>
    case Timer(key, io) => ExistingOnlyRemoves(s, key, io);
    case RemoveClosed(keys) => RemoveAllOnlyRemoves(s, keys);
  }

  lemma StepAddsNoKey(cfg: Config, s: System, e: Event)
    requires Shaped(s) && Enabled(cfg, s, e) && !Creating(cfg, s, e)
    ensures KeysOf(Step(cfg, s, e)) <= KeysOf(s)
  {
    match e
    case AskShared(_, _, _, _) => AskAddsNoKey(cfg, s, e);
    case Take(key, channel, cids, addrs) => TakeAddsNoKey(s, key, channel, cids, addrs);
    case AcceptedRead(channel, d, io) => ReadAddsNoKey(s, channel, d, io);
    case AcceptedWork(_, _, _) =>
    case AcceptedSync(_) =>
    case AcceptedPop(_, _) =>
    case AcceptedDrop(channel) => DropAddsNoKey(cfg, s, channel);
    case _ => ServerStepAddsNoKey(cfg, s, e);
  }

  /** The validation model gives a connection the key the routing model gives it. */
  lemma SameKey(cfg: Config, s: System, e: Event, o: AddressValidation.Outcome)
    requires Creating(cfg, s, e) && Agrees(cfg, s, e, o) && TokensOk(cfg, e.tokens)
    ensures AddressValidation.NewConn(DecisionIn(cfg, s, e), e.accepted.value, s.progress.datagram.from, o).key == NewKey(cfg, s, e)
  {
    if DecisionIn(cfg, s, e).retried {
      assert e.accepted.value.token.retry in e.tokens.retry;
    }
  }

  /** A created connection is logged under the key it is routed by. */
  lemma CreationIsLogged(cfg: Config, s: Server, a: Action)
    requires a.Route? && Allowed(cfg, s, a) && AddressValidation.Inv(cfg, s.validation) && Creating(cfg, s.routes, a.event)
    ensures Logged(Next(cfg, s, a).validation.log, NewKey(cfg, s.routes, a.event))
  {
    AddressValidation.RetryScidLength(cfg, s.validation.log);
    SameKey(cfg, s.routes, a.event, a.outcome);
    NextArrives(cfg, s, a);
    ArrivalIsLogged(cfg, s.validation, a.event.accepted.value, s.routes.progress.datagram.from, a.event.ts, a.outcome);
  }

  lemma NextArrives(cfg: Config, s: Server, a: Action)
    requires a.Route? && Allowed(cfg, s, a) && Creating(cfg, s.routes, a.event)
    ensures Next(cfg, s, a).validation
            == AddressValidation.Arrive(cfg, s.validation, a.event.accepted.value, s.routes.progress.datagram.from, a.event.ts, a.outcome)
  {
  }

  lemma ArrivalIsLogged(cfg: Config, s: AddressValidation.State, i: Initial, from: Addr, ts: nat, o: AddressValidation.Outcome)
    requires Decide(cfg, AddressValidation.IssuedBy(s.log), i, from, ts).Admit?
    requires !o.refused && (o.read == AddressValidation.ReadOk || o.read == AddressValidation.Discarded)
    ensures var d := Decide(cfg, AddressValidation.IssuedBy(s.log), i, from, ts);
            Logged(AddressValidation.Arrive(cfg, s, i, from, ts, o).log, AddressValidation.NewConn(d, i, from, o).key)
  {
    AddressValidation.AdmittedIsCreated(cfg, s, i, from, ts, o);
    var log := AddressValidation.Arrive(cfg, s, i, from, ts, o).log;
    assert log[|s.log| + 1].Created?;
  }

  lemma NextExtendsLog(cfg: Config, s: Server, a: Action)
    requires Allowed(cfg, s, a)
    ensures s.validation.log <= Next(cfg, s, a).validation.log
  {
    NextValidates(cfg, s, a);
    AddressValidation.RunExtendsLog(cfg, s.validation, Validated(s, a), Next(cfg, s, a).validation);
  }

  lemma NextKeysLogged(cfg: Config, s: Server, a: Action, key: Key)
    requires Allowed(cfg, s, a) && AddressValidation.Inv(cfg, s.validation) && AllLogged(s)
    requires key in KeysOf(Next(cfg, s, a).routes)
    ensures Logged(Next(cfg, s, a).validation.log, key)
  {
    NextExtendsLog(cfg, s, a);
    if a.Route? {
      RouteIsEnabled(cfg, s, a);
      if Creating(cfg, s.routes, a.event) {
        CreatingOnlyAdds(cfg, s.routes, a.event);
        CreationIsLogged(cfg, s, a);
      } else {
        StepAddsNoKey(cfg, s.routes, a.event);
      }
    }
    if key in KeysOf(s.routes) {
      var j :| 0 <= j < |s.validation.log| && s.validation.log[j].Created? && s.validation.log[j].conn.key == key;
      assert Next(cfg, s, a).validation.log[j] == s.validation.log[j];
    }
  }

  lemma {:induction false} RunKeepsLogged(cfg: Config, s: Server, actions: seq<Action>, t: Server)
    requires RunsTo(cfg, s, actions, t) && AddressValidation.Inv(cfg, s.validation) && AllLogged(s)
    ensures AllLogged(t)
    decreases |actions|
  {
    if actions != [] {
      var next := Next(cfg, s, actions[0]);
      NextValidates(cfg, s, actions[0]);
      AddressValidation.RunsKeepInv(cfg, s.validation, Validated(s, actions[0]), next.validation);
      forall key | key in KeysOf(next.routes) ensures Logged(next.validation.log, key) {
        NextKeysLogged(cfg, s, actions[0], key);
      }
      RunKeepsLogged(cfg, next, actions[1..], t);
    }
  }

  // ---------------------------------------------------------------- theorems over whole runs

  /**
    With Retry configured, every connection the server holds or has handed over was created from an
    Initial whose token this run made earlier for the address the Initial came from.
   */
  lemma RoutedAreTokenHolders(cfg: Config, actions: seq<Action>, t: Server, key: Key) returns (token: nat, created: nat)
    requires RunsTo(cfg, Fresh(cfg), actions, t) && cfg.retryConfigured
    requires key in KeysOf(t.routes)
    ensures var log := t.validation.log;
            created < |log| && log[created].Created? && log[created].conn.key == key &&
            var cause := log[created].cause;
            && token < cause < created && log[cause].Arrived? && log[cause].from == log[created].conn.remote
            && match log[token]
               case RetryMade(r, _) => log[cause].initial.token == FromRetry(r) && r.addr == log[cause].from
               case NewTokenMade(_, n, _) => log[cause].initial.token == FromNewToken(n) && n.addr == log[cause].from
               case _ => false
  {
    RunKeepsLogged(cfg, Fresh(cfg), actions, t);
    var es, vs := RunProjects(cfg, Fresh(cfg), actions, t);
    var log := t.validation.log;
    created :| 0 <= created < |log| && log[created].Created? && log[created].conn.key == key;
    token := AddressValidation.OnlyTokenHolders(cfg, vs, t.validation, created);
  }

  /** Whatever datagram the server's own table resolves, it resolves to such a connection. */
  lemma ResolvedAreTokenHolders(cfg: Config, actions: seq<Action>, t: Server, data: seq<byte>, from: Addr) returns (created: nat)
    requires RunsTo(cfg, Fresh(cfg), actions, t) && cfg.retryConfigured
    requires ServerOwner(t.routes.own, data, from).Some?
    ensures created < |t.validation.log| && t.validation.log[created].Created?
    ensures t.validation.log[created].conn.validated
    ensures t.validation.log[created].conn.key == ServerOwner(t.routes.own, data, from).value
  {
    ResolvedIsHeld(cfg, actions, t, data, from);
    var token;
    token, created := RoutedAreTokenHolders(cfg, actions, t, ServerOwner(t.routes.own, data, from).value);
    CreatedIsValidated(cfg, actions, t, created);
  }

  lemma ResolvedIsHeld(cfg: Config, actions: seq<Action>, t: Server, data: seq<byte>, from: Addr)
    requires RunsTo(cfg, Fresh(cfg), actions, t) && ServerOwner(t.routes.own, data, from).Some?
    ensures ServerOwner(t.routes.own, data, from).value in t.routes.conns
  {
    var es, vs := RunProjects(cfg, Fresh(cfg), actions, t);
    RunsKeepInv(cfg, Bound(cfg), es, t.routes);
    OwnerIsValue(t.routes.own, data, from, t.routes.conns);
  }

  lemma CreatedIsValidated(cfg: Config, actions: seq<Action>, t: Server, j: nat)
    requires RunsTo(cfg, Fresh(cfg), actions, t) && cfg.retryConfigured
    requires j < |t.validation.log| && t.validation.log[j].Created?
    ensures t.validation.log[j].conn.validated
  {
    var es, vs := RunProjects(cfg, Fresh(cfg), actions, t);
    AddressValidation.RunsKeepInv(cfg, AddressValidation.START, vs, t.validation);
    assert AddressValidation.Justified(cfg, t.validation.log, j);
  }
}

/**
  Address validation over whole runs of the server (tokio-ngtcp2/src/server.rs; sections 7.3, 8.1.2
  and 8.1.3 of RFC 9000). The state keeps a log of what happened, against which the theorems are
  stated; the network delivers any Initial from any address at any time.
 */
module AddressValidation {
  import opened Octets
  import opened Resolve
  import opened Admission

  /** A connection as `handle_new_connection` set it up; `retryScid` is the transport parameter. */
  datatype Conn = Conn(key: Key, scid: Cid, originalDcid: Cid, retryScid: Option<Cid>,
                       remote: Addr, validated: bool, retried: bool)

  datatype LogEntry =
    | Arrived(initial: Initial, from: Addr, ts: nat)
    /** A Retry answering the Initial logged at `cause`. */
    | RetryMade(retry: RetryToken, cause: nat)
    /** A connection created from the Initial logged at `cause`. */
    | Created(conn: Conn, cause: nat)
    /** Path validation to `addr` succeeded on the connection logged at `id`. */
    | PathProven(id: nat, addr: Addr)
    /** A NEW_TOKEN token made on the connection logged at `id`, and whether ngtcp2 took it. */
    | NewTokenMade(id: nat, token: NewToken, submitted: bool)

  type Log = seq<LogEntry>

  /** The fields of `ServerConnection` that matter here. */
  datatype Live = Live(remote: Addr, validated: bool, submitted: bool)

  /** `conns` maps the log index of a creation to the connection's current fields. */
  datatype State = State(log: Log, conns: map<nat, Live>)

  /** An event that `drain_events` takes from ngtcp2; `made` and `taken` are the outcomes of the C calls. */
  datatype ConnEvent =
    | HandshakeCompleted(ts: nat, made: bool, taken: bool)
    | PathValidated(addr: Addr, success: bool)
    | OtherEvent

  datatype ReadResult = ReadOk | RetryRequired | Discarded | Failed

  /** Random values and outcomes of C calls while an Initial is processed. */
  datatype Outcome = Outcome(
    retryScid: Option<Cid>, // None: the Retry could not be made
    refused: bool,          // too many connections, a duplicate, or a failed allocation
    scid: Cid, internalKey: Key, read: ReadResult, events: seq<ConnEvent>)

  datatype Event =
    | InitialArrives(initial: Initial, from: Addr, ts: nat, outcome: Outcome)
    | Drain(id: nat, events: seq<ConnEvent>)
    | Removed(id: nat)

  ghost function IssuedBy(log: Log): Issued {
    Issued(set i | 0 <= i < |log| && log[i].RetryMade? :: log[i].retry,
           set i | 0 <= i < |log| && log[i].NewTokenMade? :: log[i].token)
  }

  // ---------------------------------------------------------------- steps

  /** `submit_new_token` */
  function SubmitNewToken(cfg: Config, c: Live, id: nat, log: Log, ts: nat, made: bool, taken: bool): (Live, Log) {
    if c.submitted || !c.validated || !cfg.newToken || !made then (c, log)
    else (c.(submitted := taken), log + [NewTokenMade(id, NewToken(c.remote, ts), taken)])
  }

  function Handle(cfg: Config, c: Live, id: nat, log: Log, e: ConnEvent): (Live, Log) {
    match e
    case HandshakeCompleted(ts, made, taken) => SubmitNewToken(cfg, c, id, log, ts, made, taken)
    case PathValidated(addr, success) =>
      if success then (c.(remote := addr), log + [PathProven(id, addr)]) else (c, log)
    case OtherEvent => (c, log)
  }

  /** `drain_events` */
  function DrainEvents(cfg: Config, c: Live, id: nat, log: Log, events: seq<ConnEvent>): (Live, Log) {
    if events == [] then (c, log)
    else
      var n := |events| - 1;
      var (d, l) := DrainEvents(cfg, c, id, log, events[..n]);
      Handle(cfg, d, id, l, events[n])
  }

  function MakeRetry(log: Log, i: Initial, from: Addr, ts: nat, cause: nat, retryScid: Option<Cid>): Log {
    if retryScid.None? then log
    else log + [RetryMade(RetryToken(i.version, from, retryScid.value, i.dcid, ts), cause)]
  }

  ghost function NewConn(d: Decision, i: Initial, from: Addr, o: Outcome): Conn
    requires d.Admit?
  {
    var scid := ServerScid(d, i, Some(o.scid)).value;
    Conn(ConnKey(scid, Some(o.internalKey)).value, scid, d.originalDcid,
         if d.retried then Some(scid) else None, from, d.validated, d.retried)
  }

  ghost function Arrive(cfg: Config, s: State, i: Initial, from: Addr, ts: nat, o: Outcome): State {
    var cause := |s.log|;
    var log := s.log + [Arrived(i, from, ts)];
    var d := Decide(cfg, IssuedBy(s.log), i, from, ts);
    match d
    case SendRetry => s.(log := MakeRetry(log, i, from, ts, cause, o.retryScid))
    case RejectToken => s.(log := log)
    case Admit(_, _, _) =>
      if o.refused then s.(log := log)
      else if o.read == RetryRequired then s.(log := MakeRetry(log, i, from, ts, cause, o.retryScid))
      else if o.read == Failed then s.(log := log)
      else
        var c := NewConn(d, i, from, o);
        var id := |log|;
        var (live, l) := DrainEvents(cfg, Live(c.remote, c.validated, false), id, log + [Created(c, cause)], o.events);
        State(l, s.conns[id := live])
  }

  ghost predicate Enabled(cfg: Config, s: State, e: Event) {
    match e
    case InitialArrives(_, _, _, o) =>
      (o.retryScid.Some? ==> |o.retryScid.value| == RetryScidLen(cfg)) && |o.scid| == cfg.scidLen
    case Drain(id, _) => id in s.conns
    case Removed(_) => true
  }

  ghost function Step(cfg: Config, s: State, e: Event): State
    requires Enabled(cfg, s, e)
  {
    match e
    case InitialArrives(i, from, ts, o) => Arrive(cfg, s, i, from, ts, o)
    case Drain(id, events) =>
      var (live, log) := DrainEvents(cfg, s.conns[id], id, s.log, events);
      State(log, s.conns[id := live])
    case Removed(id) => s.(conns := s.conns - {id})
  }

  ghost predicate Reaches(cfg: Config, s: State, es: seq<Event>, t: State)
    decreases |es|
  {
    if es == [] then t == s
    else Enabled(cfg, s, es[0]) && Reaches(cfg, Step(cfg, s, es[0]), es[1..], t)
  }

  const START: State := State([], map[])

  // ---------------------------------------------------------------- what each log entry is justified by

  /** The token logged at `i` is the one the Initial carries, was made for its parameters and has not expired. */
  ghost predicate Verifies(cfg: Config, log: Log, initial: Initial, from: Addr, ts: nat, i: nat)
    requires i < |log|
  {
    match log[i]
    case RetryMade(r, _) =>
      && initial.token == FromRetry(r)
      && r.addr == from && r.version == initial.version && r.scid == initial.dcid && ts < r.ts + cfg.timeout
    case NewTokenMade(_, n, _) =>
      initial.token == FromNewToken(n) && n.addr == from && ts < n.ts + cfg.timeout
    case _ => false
  }

  ghost predicate TokenVerifies(cfg: Config, log: Log, initial: Initial, from: Addr, ts: nat) {
    exists i :: 0 <= i < |log| && Verifies(cfg, log, initial, from, ts, i)
  }

  /** A Retry answers an Initial received earlier from the address it is sent to. */
  ghost predicate RetryJustified(cfg: Config, log: Log, j: nat)
    requires j < |log| && log[j].RetryMade?
  {
    var t, cause := log[j].retry, log[j].cause;
    && cause < j && log[cause].Arrived?
    && log[cause].from == t.addr
    && log[cause].initial.dcid == t.originalDcid
    && log[cause].initial.version == t.version
    && log[cause].ts == t.ts
    && |t.scid| == RetryScidLen(cfg)
    && (log[cause].initial.token.NoToken? || TokenVerifies(cfg, log[..cause], log[cause].initial, log[cause].from, log[cause].ts))
  }

  /** The Initial logged at `cause` carries the token of the Retry logged at `i`, and the connection returns from it. */
  ghost predicate ReturnsFrom(cfg: Config, log: Log, c: Conn, cause: nat, i: nat)
    requires i < |log| && cause < |log| && log[cause].Arrived?
  {
    && log[i].RetryMade? && log[cause].initial.token == FromRetry(log[i].retry)
    && log[i].retry.version == log[cause].initial.version
    && log[i].retry.addr == c.remote
    && log[i].retry.originalDcid == c.originalDcid
    && log[i].retry.scid == c.scid == c.key
    && c.retryScid == Some(log[i].retry.scid)
    && !Expired(log[i].retry.ts, cfg.timeout, log[cause].ts)
  }

  /** The Initial logged at `cause` carries the NEW_TOKEN token logged at `i`, which is for the connection's address. */
  ghost predicate Redeems(cfg: Config, log: Log, c: Conn, cause: nat, i: nat)
    requires i < |log| && cause < |log| && log[cause].Arrived?
  {
    && log[i].NewTokenMade? && log[cause].initial.token == FromNewToken(log[i].token)
    && log[i].token.addr == c.remote
    && !Expired(log[i].token.ts, cfg.timeout, log[cause].ts)
  }

  ghost predicate CreationJustified(cfg: Config, log: Log, j: nat)
    requires j < |log| && log[j].Created?
  {
    var c, cause := log[j].conn, log[j].cause;
    && cause < j && log[cause].Arrived? && log[cause].from == c.remote
    && (c.retried <==> log[cause].initial.token.FromRetry?)
    && (c.retried ==> c.validated && exists i :: 0 <= i < cause && ReturnsFrom(cfg, log, c, cause, i))
    && (!c.retried ==> c.retryScid.None? && c.originalDcid == log[cause].initial.dcid)
    && (!c.retried && c.validated ==> exists i :: 0 <= i < cause && Redeems(cfg, log, c, cause, i))
    && (cfg.retryConfigured ==> c.validated)
  }

  /** A NEW_TOKEN is for the address a token proved at creation, or one proven on the path since. */
  ghost predicate NewTokenJustified(cfg: Config, log: Log, j: nat)
    requires j < |log| && log[j].NewTokenMade?
  {
    var id, addr := log[j].id, log[j].token.addr;
    && cfg.newToken && id < j && log[id].Created? && log[id].conn.validated
    && AddressProven(log[..j], id, addr)
    && (forall i :: id <= i < j ==> !Submitted(log[i], id))
  }

  ghost predicate AddressProven(log: Log, id: nat, addr: Addr)
    requires id < |log| && log[id].Created?
  {
    log[id].conn.remote == addr || exists i :: id < i < |log| && log[i] == PathProven(id, addr)
  }

  ghost predicate Submitted(e: LogEntry, id: nat) {
    e.NewTokenMade? && e.id == id && e.submitted
  }

  ghost predicate Justified(cfg: Config, log: Log, j: nat)
    requires j < |log|
  {
    match log[j]
    case Arrived(_, _, _) => true
    case RetryMade(_, _) => RetryJustified(cfg, log, j)
    case Created(_, _) => CreationJustified(cfg, log, j)
    case PathProven(id, _) => id < j && log[id].Created?
    case NewTokenMade(_, _, _) => NewTokenJustified(cfg, log, j)
  }

  ghost predicate LogOk(cfg: Config, log: Log) {
    forall j :: 0 <= j < |log| ==> Justified(cfg, log, j)
  }

  /** The live fields agree with the log. */
  ghost predicate LiveOk(log: Log, id: nat, c: Live) {
    && id < |log| && log[id].Created?
    && c.validated == log[id].conn.validated
    && c.remote == ProvenAddress(log, id)
    && (c.submitted <==> exists i :: id <= i < |log| && Submitted(log[i], id))
  }

  /** The address last proven on the connection: by its last path validation, or by its first Initial. */
  ghost function ProvenAddress(log: Log, id: nat): Addr
    requires id < |log| && log[id].Created?
  {
    var n := |log| - 1;
    if n == id then log[id].conn.remote
    else if log[n].PathProven? && log[n].id == id then log[n].addr
    else ProvenAddress(log[..n], id)
  }

  lemma {:induction false} ProvenAddressIsProven(log: Log, id: nat)
    requires id < |log| && log[id].Created?
    ensures AddressProven(log, id, ProvenAddress(log, id))
  {
    var n := |log| - 1;
    if n != id {
      if log[n].PathProven? && log[n].id == id {
        assert log[n] == PathProven(id, log[n].addr);
      } else {
        ProvenAddressIsProven(log[..n], id);
      }
    }
  }

  ghost predicate Inv(cfg: Config, s: State) {
    LogOk(cfg, s.log) && forall id :: id in s.conns ==> LiveOk(s.log, id, s.conns[id])
  }

  // ---------------------------------------------------------------- the invariant is kept

  lemma JustifiedAfter(cfg: Config, log: Log, e: LogEntry, j: nat)
    requires j < |log| && Justified(cfg, log, j)
    ensures Justified(cfg, log + [e], j)
  {
    var more := log + [e];
    match log[j]
    case Arrived(_, _, _) =>
    case RetryMade(_, cause) =>
      assert more[..cause] == log[..cause];
    case Created(c, cause) =>
      if c.retried {
        var i :| 0 <= i < cause && ReturnsFrom(cfg, log, c, cause, i);
        assert ReturnsFrom(cfg, more, c, cause, i);
      } else if c.validated {
        var i :| 0 <= i < cause && Redeems(cfg, log, c, cause, i);
        assert Redeems(cfg, more, c, cause, i);
      }
    case PathProven(_, _) =>
    case NewTokenMade(_, _, _) =>
      assert more[..j] == log[..j];
  }

  lemma LogGrows(cfg: Config, log: Log, e: LogEntry)
    requires LogOk(cfg, log) && Justified(cfg, log + [e], |log|)
    ensures LogOk(cfg, log + [e])
  {
    forall j | 0 <= j < |log| ensures Justified(cfg, log + [e], j) {
      JustifiedAfter(cfg, log, e, j);
    }
  }

  lemma LiveAfter(log: Log, e: LogEntry, id: nat, c: Live, d: Live)
    requires LiveOk(log, id, c)
    requires d.validated == c.validated
    requires d.remote == if e.PathProven? && e.id == id then e.addr else c.remote
    requires d.submitted == (c.submitted || Submitted(e, id))
    ensures LiveOk(log + [e], id, d)
  {
    var more := log + [e];
    assert more[..|log|] == log;
    if i :| id <= i < |log| && Submitted(log[i], id) {
      assert Submitted(more[i], id);
    }
    if Submitted(e, id) {
      assert Submitted(more[|log|], id);
    }
    if i :| id <= i < |more| && Submitted(more[i], id) {
      assert i < |log| ==> Submitted(log[i], id);
    }
  }

  /** A log entry that is about no live connection keeps the invariant. */
  lemma EntryKeepsInv(cfg: Config, s: State, e: LogEntry)
    requires Inv(cfg, s) && Justified(cfg, s.log + [e], |s.log|)
    requires !e.PathProven? && !e.NewTokenMade?
    ensures Inv(cfg, s.(log := s.log + [e]))
  {
    LogGrows(cfg, s.log, e);
    forall id | id in s.conns ensures LiveOk(s.log + [e], id, s.conns[id]) {
      LiveAfter(s.log, e, id, s.conns[id], s.conns[id]);
    }
  }

  /** A log entry about one connection keeps the invariant if that connection follows it. */
  lemma OwnEntryKeepsInv(cfg: Config, s: State, e: LogEntry, id: nat, d: Live)
    requires Inv(cfg, s) && id in s.conns && Justified(cfg, s.log + [e], |s.log|)
    requires (e.PathProven? && e.id == id) || (e.NewTokenMade? && e.id == id)
    requires d.validated == s.conns[id].validated
    requires d.remote == if e.PathProven? then e.addr else s.conns[id].remote
    requires d.submitted == (s.conns[id].submitted || Submitted(e, id))
    ensures Inv(cfg, State(s.log + [e], s.conns[id := d]))
  {
    LogGrows(cfg, s.log, e);
    var t := State(s.log + [e], s.conns[id := d]);
    forall other | other in t.conns ensures LiveOk(t.log, other, t.conns[other]) {
      LiveAfter(s.log, e, other, s.conns[other], t.conns[other]);
    }
  }

  lemma HandleKeepsInv(cfg: Config, s: State, id: nat, e: ConnEvent)
    requires Inv(cfg, s) && id in s.conns
    ensures var (c, log) := Handle(cfg, s.conns[id], id, s.log, e);
            Inv(cfg, State(log, s.conns[id := c]))
  {
    var c := s.conns[id];
    assert LiveOk(s.log, id, c);
    match e
    case HandshakeCompleted(ts, made, taken) =>
      if !c.submitted && c.validated && cfg.newToken && made {
        var entry := NewTokenMade(id, NewToken(c.remote, ts), taken);
        assert (s.log + [entry])[..|s.log|] == s.log;
        ProvenAddressIsProven(s.log, id);
        OwnEntryKeepsInv(cfg, s, entry, id, c.(submitted := taken));
      } else {
        assert s.conns[id := c] == s.conns;
      }
    case PathValidated(addr, success) =>
      if success {
        OwnEntryKeepsInv(cfg, s, PathProven(id, addr), id, c.(remote := addr));
      } else {
        assert s.conns[id := c] == s.conns;
      }
    case OtherEvent => assert s.conns[id := c] == s.conns;
  }

  lemma {:induction false} DrainKeepsInv(cfg: Config, s: State, id: nat, events: seq<ConnEvent>)
    requires Inv(cfg, s) && id in s.conns
    ensures var (c, log) := DrainEvents(cfg, s.conns[id], id, s.log, events);
            Inv(cfg, State(log, s.conns[id := c]))
  {
    if events == [] {
      assert s.conns[id := s.conns[id]] == s.conns;
    } else {
      var n := |events| - 1;
      DrainKeepsInv(cfg, s, id, events[..n]);
      var (c, log) := DrainEvents(cfg, s.conns[id], id, s.log, events[..n]);
      var t := State(log, s.conns[id := c]);
      HandleKeepsInv(cfg, t, id, events[n]);
      var (d, l) := Handle(cfg, c, id, log, events[n]);
      assert t.conns[id := d] == s.conns[id := d];
    }
  }

  /**
    What is decided, against the log: an Initial with a token is admitted exactly if the token was
    made for it and has not expired, and is never answered with a Retry at this point; one without
    is admitted exactly if Retry is not configured.
   */
  lemma AdmitsExactly(cfg: Config, log: Log, i: Initial, from: Addr, ts: nat)
    ensures var d := Decide(cfg, IssuedBy(log), i, from, ts);
            if i.token.NoToken? then (d.Admit? <==> !cfg.retryConfigured) && (d.SendRetry? <==> cfg.retryConfigured)
            else (d.Admit? <==> TokenVerifies(cfg, log, i, from, ts)) && !d.SendRetry?
  {
    var d := Decide(cfg, IssuedBy(log), i, from, ts);
    if d.Admit? && i.token.FromRetry? {
      var k :| 0 <= k < |log| && log[k].RetryMade? && log[k].retry == i.token.retry;
      assert Verifies(cfg, log, i, from, ts, k);
    } else if d.Admit? && i.token.FromNewToken? {
      var k :| 0 <= k < |log| && log[k].NewTokenMade? && log[k].token == i.token.token;
      assert Verifies(cfg, log, i, from, ts, k);
    }
    if k :| 0 <= k < |log| && Verifies(cfg, log, i, from, ts, k) {
      assert i.token.FromRetry? ==> i.token.retry in IssuedBy(log).retry;
      assert i.token.FromNewToken? ==> i.token.token in IssuedBy(log).newTokens;
    }
  }

  /** A creation that the decision allows is justified by the log. */
  lemma CreationIsJustified(cfg: Config, log: Log, i: Initial, from: Addr, ts: nat, o: Outcome)
    requires LogOk(cfg, log)
    requires Decide(cfg, IssuedBy(log), i, from, ts).Admit?
    ensures var d := Decide(cfg, IssuedBy(log), i, from, ts);
            Justified(cfg, log + [Arrived(i, from, ts)] + [Created(NewConn(d, i, from, o), |log|)], |log| + 1)
  {
    var d := Decide(cfg, IssuedBy(log), i, from, ts);
    var c := NewConn(d, i, from, o);
    var all := log + [Arrived(i, from, ts)] + [Created(c, |log|)];
    assert all[|log|] == Arrived(i, from, ts) && all[|log| + 1] == Created(c, |log|);
    if d.retried {
      var t := i.token.retry;
      var k :| 0 <= k < |log| && log[k].RetryMade? && log[k].retry == t;
      assert Justified(cfg, log, k);
      assert all[k] == log[k];
      assert ReturnsFrom(cfg, all, c, |log|, k);
    } else if d.validated {
      var t := i.token.token;
      var k :| 0 <= k < |log| && log[k].NewTokenMade? && log[k].token == t;
      assert all[k] == log[k];
      assert Redeems(cfg, all, c, |log|, k);
    }
  }

  lemma RetryKeepsInv(cfg: Config, s: State, i: Initial, from: Addr, ts: nat, cause: nat, retryScid: Option<Cid>)
    requires Inv(cfg, s) && cause < |s.log| && s.log[cause] == Arrived(i, from, ts)
    requires i.token.NoToken? || TokenVerifies(cfg, s.log[..cause], i, from, ts)
    requires retryScid.Some? ==> |retryScid.value| == RetryScidLen(cfg)
    ensures Inv(cfg, s.(log := MakeRetry(s.log, i, from, ts, cause, retryScid)))
  {
    if retryScid.Some? {
      var entry := RetryMade(RetryToken(i.version, from, retryScid.value, i.dcid, ts), cause);
      assert (s.log + [entry])[..cause] == s.log[..cause];
      EntryKeepsInv(cfg, s, entry);
    }
  }

  lemma ArriveKeepsInv(cfg: Config, s: State, i: Initial, from: Addr, ts: nat, o: Outcome)
    requires Inv(cfg, s) && (o.retryScid.Some? ==> |o.retryScid.value| == RetryScidLen(cfg))
    ensures Inv(cfg, Arrive(cfg, s, i, from, ts, o))
  {
    var d := Decide(cfg, IssuedBy(s.log), i, from, ts);
    var arrived := s.(log := s.log + [Arrived(i, from, ts)]);
    EntryKeepsInv(cfg, s, Arrived(i, from, ts));
    AdmitsExactly(cfg, s.log, i, from, ts);
    assert arrived.log[..|s.log|] == s.log;
    if i.token.NoToken? || d.Admit? {
      RetryKeepsInv(cfg, arrived, i, from, ts, |s.log|, o.retryScid);
    }
    if d.Admit? && !o.refused && (o.read == ReadOk || o.read == Discarded) {
      var c := NewConn(d, i, from, o);
      var entry := Created(c, |s.log|);
      CreationIsJustified(cfg, s.log, i, from, ts, o);
      EntryKeepsInv(cfg, arrived, entry);
      var id := |arrived.log|;
      var created := State(arrived.log + [entry], s.conns[id := Live(c.remote, c.validated, false)]);
      assert LiveOk(created.log, id, created.conns[id]);
      assert Inv(cfg, created);
      DrainKeepsInv(cfg, created, id, o.events);
      var (live, log) := DrainEvents(cfg, created.conns[id], id, created.log, o.events);
      assert created.conns[id := live] == s.conns[id := live];
    }
  }

  lemma {:induction false} RunsKeepInv(cfg: Config, s: State, es: seq<Event>, t: State)
    requires Inv(cfg, s) && Reaches(cfg, s, es, t)
    ensures Inv(cfg, t)
    decreases |es|
  {
    if es != [] {
      match es[0] {
        case InitialArrives(i, from, ts, o) => ArriveKeepsInv(cfg, s, i, from, ts, o);
        case Drain(id, events) => DrainKeepsInv(cfg, s, id, events);
        case Removed(_) =>
      }
      RunsKeepInv(cfg, Step(cfg, s, es[0]), es[1..], t);
    }
  }

  // ---------------------------------------------------------------- theorems over whole runs

  /**
    Retry binding. In every run, a connection with the `retried` mark answers a Retry this server
    sent earlier to the same address: its original DCID is the DCID of the Initial that triggered
    that Retry, and its SCID, its key and its retry_source_connection_id are the Retry's SCID.
   */
  lemma RetryBinding(cfg: Config, es: seq<Event>, t: State, j: nat) returns (retry: nat, first: nat)
    requires Reaches(cfg, START, es, t)
    requires j < |t.log| && t.log[j].Created? && t.log[j].conn.retried
    ensures first < retry < j && t.log[retry].RetryMade? && t.log[first].Arrived?
    ensures var c, r, i := t.log[j].conn, t.log[retry].retry, t.log[first];
            && r.addr == c.remote && i.from == c.remote
            && c.originalDcid == r.originalDcid == i.initial.dcid
            && c.scid == c.key == r.scid && c.retryScid == Some(r.scid)
            && c.scid != []
            && retry < t.log[j].cause < j && t.log[t.log[j].cause].Arrived?
            && t.log[t.log[j].cause].initial.token == FromRetry(r) && t.log[t.log[j].cause].from == c.remote
            && t.log[t.log[j].cause].initial.version == r.version
  {
    RunsKeepInv(cfg, START, es, t);
    assert Justified(cfg, t.log, j);
    var c, cause := t.log[j].conn, t.log[j].cause;
    retry :| 0 <= retry < cause && ReturnsFrom(cfg, t.log, c, cause, retry);
    assert Justified(cfg, t.log, retry);
    first := t.log[retry].cause;
  }

  /** Without a Retry the parameter is never advertised and the original DCID is the Initial's own. */
  lemma NoRetryNoRetryScid(cfg: Config, es: seq<Event>, t: State, j: nat)
    requires Reaches(cfg, START, es, t)
    requires j < |t.log| && t.log[j].Created? && !t.log[j].conn.retried
    ensures t.log[j].conn.retryScid.None?
    ensures t.log[j].cause < j && t.log[t.log[j].cause].Arrived?
    ensures t.log[j].conn.originalDcid == t.log[t.log[j].cause].initial.dcid
  {
    RunsKeepInv(cfg, START, es, t);
    assert Justified(cfg, t.log, j);
  }

  /**
    With Retry configured, every connection ever created comes from an Initial whose token this
    server made earlier for the address the Initial came from.
   */
  lemma OnlyTokenHolders(cfg: Config, es: seq<Event>, t: State, j: nat) returns (i: nat)
    requires Reaches(cfg, START, es, t) && cfg.retryConfigured
    requires j < |t.log| && t.log[j].Created?
    ensures var cause := t.log[j].cause;
            && i < cause < j && t.log[cause].Arrived? && t.log[cause].from == t.log[j].conn.remote
            && match t.log[i]
               case RetryMade(token, _) => t.log[cause].initial.token == FromRetry(token) && token.addr == t.log[cause].from
               case NewTokenMade(_, token, _) => t.log[cause].initial.token == FromNewToken(token) && token.addr == t.log[cause].from
               case _ => false
  {
    RunsKeepInv(cfg, START, es, t);
    assert Justified(cfg, t.log, j);
    var c, cause := t.log[j].conn, t.log[j].cause;
    if c.retried {
      i :| 0 <= i < cause && ReturnsFrom(cfg, t.log, c, cause, i);
    } else {
      i :| 0 <= i < cause && Redeems(cfg, t.log, c, cause, i);
    }
  }

  /** A connection is marked as retried exactly if its Initial carried a Retry token. */
  lemma RetriedExactly(cfg: Config, es: seq<Event>, t: State, j: nat)
    requires Reaches(cfg, START, es, t)
    requires j < |t.log| && t.log[j].Created?
    ensures t.log[j].cause < j && t.log[t.log[j].cause].Arrived?
    ensures t.log[j].conn.retried <==> t.log[t.log[j].cause].initial.token.FromRetry?
  {
    RunsKeepInv(cfg, START, es, t);
    assert Justified(cfg, t.log, j);
  }

  /** A token that does not verify gets its client nothing: no connection, no Retry, no trace but the packet. */
  lemma UnverifiedChangesNothing(cfg: Config, s: State, i: Initial, from: Addr, ts: nat, o: Outcome)
    requires !i.token.NoToken? && !TokenVerifies(cfg, s.log, i, from, ts)
    ensures Arrive(cfg, s, i, from, ts, o) == s.(log := s.log + [Arrived(i, from, ts)])
  {
    AdmitsExactly(cfg, s.log, i, from, ts);
  }

  /** An Initial gets a connection exactly if it is admitted, nothing refuses it and ngtcp2 takes or discards its packet. */
  lemma ConnectsExactly(cfg: Config, s: State, i: Initial, from: Addr, ts: nat, o: Outcome)
    ensures var t := Arrive(cfg, s, i, from, ts, o);
            && (|t.log| > |s.log| + 1 && t.log[|s.log| + 1].Created?
                <==> && (if i.token.NoToken? then !cfg.retryConfigured else TokenVerifies(cfg, s.log, i, from, ts))
                     && !o.refused && o.read in {ReadOk, Discarded})
            && (forall id :: id in t.conns <==> id in s.conns || (id == |s.log| + 1 && |t.log| > id && t.log[id].Created?))
  {
    AdmitsExactly(cfg, s.log, i, from, ts);
    if Decide(cfg, IssuedBy(s.log), i, from, ts).Admit? && !o.refused && o.read in {ReadOk, Discarded} {
      AdmittedIsCreated(cfg, s, i, from, ts, o);
    }
  }

  /** An Initial is answered with a Retry exactly if it has no token and Retry is configured, or is admitted and ngtcp2 asks for one. */
  lemma RetriesExactly(cfg: Config, s: State, i: Initial, from: Addr, ts: nat, o: Outcome)
    requires o.retryScid.Some?
    ensures var log := Arrive(cfg, s, i, from, ts, o).log;
            var token := RetryToken(i.version, from, o.retryScid.value, i.dcid, ts);
            |log| > |s.log| + 1 && log[|s.log| + 1] == RetryMade(token, |s.log|)
            <==> if i.token.NoToken? && cfg.retryConfigured then true
                 else (i.token.NoToken? || TokenVerifies(cfg, s.log, i, from, ts)) && !o.refused && o.read == RetryRequired
  {
    AdmitsExactly(cfg, s.log, i, from, ts);
    if Decide(cfg, IssuedBy(s.log), i, from, ts).Admit? && !o.refused && (o.read == ReadOk || o.read == Discarded) {
      AdmittedIsCreated(cfg, s, i, from, ts, o);
    }
  }

  /** In every run a Retry answers an Initial without a token, or one that was admitted. */
  lemma RetryCauses(cfg: Config, es: seq<Event>, t: State, j: nat)
    requires Reaches(cfg, START, es, t)
    requires j < |t.log| && t.log[j].RetryMade?
    ensures var cause := t.log[j].cause;
            && cause < j && t.log[cause].Arrived? && t.log[cause].from == t.log[j].retry.addr
            && (t.log[cause].initial.token.NoToken?
                || TokenVerifies(cfg, t.log[..cause], t.log[cause].initial, t.log[cause].from, t.log[cause].ts))
  {
    RunsKeepInv(cfg, START, es, t);
    assert Justified(cfg, t.log, j);
  }

  // ---------------------------------------------------------------- when NEW_TOKEN tokens are made

  /**
    In every reachable state, a completed handshake makes a NEW_TOKEN exactly if the connection is
    validated, tokens are configured, one could be made, and none was submitted on the connection
    before. It is for the address last proven on the connection.
   */
  lemma HandshakeMakesToken(cfg: Config, es: seq<Event>, t: State, id: nat, ts: nat, made: bool, taken: bool)
    requires Reaches(cfg, START, es, t) && id in t.conns
    ensures id < |t.log| && t.log[id].Created?
    ensures var u := Step(cfg, t, Drain(id, [HandshakeCompleted(ts, made, taken)]));
            u.log == if t.log[id].conn.validated && cfg.newToken && made && (forall i :: id <= i < |t.log| ==> !Submitted(t.log[i], id))
                     then t.log + [NewTokenMade(id, NewToken(ProvenAddress(t.log, id), ts), taken)]
                     else t.log
  {
    RunsKeepInv(cfg, START, es, t);
    assert LiveOk(t.log, id, t.conns[id]);
    DrainOne(cfg, t.conns[id], id, t.log, HandshakeCompleted(ts, made, taken));
  }

  /** After a token was made, another completed handshake makes one more exactly if ngtcp2 did not take the first. */
  lemma SecondHandshake(cfg: Config, es: seq<Event>, t: State, id: nat, ts: nat, taken: bool, again: nat, takenAgain: bool)
    requires Reaches(cfg, START, es, t) && id in t.conns && cfg.newToken
    requires id < |t.log| && t.log[id].Created? && t.log[id].conn.validated
    requires forall i :: id <= i < |t.log| ==> !Submitted(t.log[i], id)
    ensures var addr := ProvenAddress(t.log, id);
            var first := HandshakeCompleted(ts, true, taken);
            Step(cfg, t, Drain(id, [first, HandshakeCompleted(again, true, takenAgain)])).log
            == t.log + [NewTokenMade(id, NewToken(addr, ts), taken)]
               + if taken then [] else [NewTokenMade(id, NewToken(addr, again), takenAgain)]
  {
    RunsKeepInv(cfg, START, es, t);
    assert LiveOk(t.log, id, t.conns[id]);
    var c := t.conns[id];
    var first, second := HandshakeCompleted(ts, true, taken), HandshakeCompleted(again, true, takenAgain);
    assert [first, second] == [first] + [second];
    DrainSplits(cfg, c, id, t.log, [first], [second]);
    DrainOne(cfg, c, id, t.log, first);
    var (d, log) := Handle(cfg, c, id, t.log, first);
    DrainOne(cfg, d, id, log, second);
  }

  /** A path validation is recorded, and moves the connection's address, exactly if it succeeded. */
  lemma PathValidationIsExact(cfg: Config, es: seq<Event>, t: State, id: nat, addr: Addr, success: bool)
    requires Reaches(cfg, START, es, t) && id in t.conns
    ensures var u := Step(cfg, t, Drain(id, [PathValidated(addr, success)]));
            && u.log == t.log + (if success then [PathProven(id, addr)] else [])
            && id < |u.log| && u.log[id].Created? && id in u.conns
            && u.conns[id].remote == ProvenAddress(u.log, id)
  {
    RunsKeepInv(cfg, START, es, t);
    assert LiveOk(t.log, id, t.conns[id]);
    DrainOne(cfg, t.conns[id], id, t.log, PathValidated(addr, success));
    assert t.log + [] == t.log;
    assert (t.log + [PathProven(id, addr)])[..|t.log|] == t.log;
  }

  /** Events are handled in their order. */
  lemma {:induction false} DrainSplits(cfg: Config, c: Live, id: nat, log: Log, first: seq<ConnEvent>, second: seq<ConnEvent>)
    ensures var (d, l) := DrainEvents(cfg, c, id, log, first);
            DrainEvents(cfg, c, id, log, first + second) == DrainEvents(cfg, d, id, l, second)
    decreases |second|
  {
    if second == [] {
      assert first + second == first;
    } else {
      var n := |second| - 1;
      DrainSplits(cfg, c, id, log, first, second[..n]);
      assert (first + second)[..|first| + n] == first + second[..n];
    }
  }

  lemma DrainOne(cfg: Config, c: Live, id: nat, log: Log, e: ConnEvent)
    ensures DrainEvents(cfg, c, id, log, [e]) == Handle(cfg, c, id, log, e)
  {
    assert [e][..0] == [];
    assert DrainEvents(cfg, c, id, log, []) == (c, log);
  }

  // ---------------------------------------------------------------- where NEW_TOKEN tokens come from

  /** The Initial at `c` came from the address with the token of the Retry at `i`, which was sent to it. */
  ghost predicate RetryReturned(log: Log, addr: Addr, i: nat, c: nat) {
    && i < c < |log|
    && log[i].RetryMade? && log[i].retry.addr == addr
    && log[c].Arrived? && log[c].from == addr && log[c].initial.token == FromRetry(log[i].retry)
  }

  /** The Initial at `c` came from the address with the NEW_TOKEN token at `i`, which was made for it. */
  ghost predicate TokenReturned(log: Log, addr: Addr, i: nat, c: nat) {
    && i < c < |log|
    && log[i].NewTokenMade? && log[i].token.addr == addr
    && log[c].Arrived? && log[c].from == addr && log[c].initial.token == FromNewToken(log[i].token)
  }

  /** The connection the token at `j` was made on: it was created earlier, from an earlier Initial. */
  ghost predicate MadeOn(log: Log, j: nat, id: nat) {
    && j < |log| && log[j].NewTokenMade? && log[j].id == id
    && id < j && log[id].Created? && log[id].conn.validated && log[id].cause < id
  }

  ghost predicate PathProvenOn(log: Log, id: nat, addr: Addr, j: nat) {
    exists i :: id < i < j && i < |log| && log[i] == PathProven(id, addr)
  }

  /**
    One step back: the address of every NEW_TOKEN was proven on its own connection, by the token the
    creating Initial brought from that address or by a path validation before the token was made.
   */
  lemma NewTokenProven(cfg: Config, log: Log, j: nat)
    requires LogOk(cfg, log) && j < |log| && log[j].NewTokenMade?
    ensures MadeOn(log, j, log[j].id)
    ensures var id, addr := log[j].id, log[j].token.addr;
            || PathProvenOn(log, id, addr, j)
            || (exists i :: RetryReturned(log, addr, i, log[id].cause))
            || (exists i :: TokenReturned(log, addr, i, log[id].cause))
  {
    var id, addr := log[j].id, log[j].token.addr;
    assert Justified(cfg, log, j);
    assert log[..j][id] == log[id];
    assert Justified(cfg, log, id);
    var c, cause := log[id].conn, log[id].cause;
    if c.remote != addr {
      var i :| id < i < j && log[..j][i] == PathProven(id, addr);
      assert log[i] == PathProven(id, addr);
    } else if c.retried {
      var i :| 0 <= i < cause && ReturnsFrom(cfg, log, c, cause, i);
      assert RetryReturned(log, addr, i, cause);
    } else {
      var i :| 0 <= i < cause && Redeems(cfg, log, c, cause, i);
      assert TokenReturned(log, addr, i, cause);
    }
  }

  /** From connection to connection, the token at `k` was passed on to become the one at `j`. */
  ghost predicate PassedOn(log: Log, k: nat, j: nat)
    requires j < |log| && log[j].NewTokenMade?
    decreases j
  {
    k == j ||
    (MadeOn(log, j, log[j].id)
     && exists m: nat :: m < j && TokenReturned(log, log[j].token.addr, m, log[log[j].id].cause) && PassedOn(log, k, m))
  }

  /** The address is proven without a NEW_TOKEN: its Retry token came back from it, or it answered a path challenge. */
  ghost predicate Rooted(log: Log, k: nat)
    requires k < |log| && log[k].NewTokenMade?
  {
    var id, addr := log[k].id, log[k].token.addr;
    MadeOn(log, k, id)
    && (PathProvenOn(log, id, addr, k) || exists i :: RetryReturned(log, addr, i, log[id].cause))
  }

  /**
    NEW_TOKEN chain. However many connections a token was passed on through, it goes back to a
    NEW_TOKEN for the same address whose connection was created by an Initial that brought a Retry
    token back from that address, or on which that address passed path validation.
   */
  lemma {:induction false} NewTokenRooted(cfg: Config, log: Log, j: nat) returns (k: nat)
    requires LogOk(cfg, log) && j < |log| && log[j].NewTokenMade?
    ensures k <= j && log[k].NewTokenMade? && log[k].token.addr == log[j].token.addr
    ensures PassedOn(log, k, j) && Rooted(log, k)
    decreases j
  {
    NewTokenProven(cfg, log, j);
    var id, addr := log[j].id, log[j].token.addr;
    k := j;
    if !Rooted(log, j) {
      var m :| TokenReturned(log, addr, m, log[id].cause);
      k := NewTokenRooted(cfg, log, m);
    }
  }

  lemma NewTokenChain(cfg: Config, es: seq<Event>, t: State, j: nat) returns (k: nat)
    requires Reaches(cfg, START, es, t)
    requires j < |t.log| && t.log[j].NewTokenMade?
    ensures k <= j && t.log[k].NewTokenMade? && t.log[k].token.addr == t.log[j].token.addr
    ensures PassedOn(t.log, k, j) && Rooted(t.log, k)
  {
    RunsKeepInv(cfg, START, es, t);
    k := NewTokenRooted(cfg, t.log, j);
  }

  /** At most one NEW_TOKEN is submitted on a connection. */
  lemma OneSubmission(cfg: Config, es: seq<Event>, t: State, id: nat, i: nat, j: nat)
    requires Reaches(cfg, START, es, t)
    requires i < |t.log| && Submitted(t.log[i], id)
    requires j < |t.log| && Submitted(t.log[j], id)
    ensures i == j
  {
    RunsKeepInv(cfg, START, es, t);
    assert Justified(cfg, t.log, i) && Justified(cfg, t.log, j);
  }

  /** Every Retry token in existence has an SCID of the configured length, but at least 8 bytes. */
  lemma RetryScidLength(cfg: Config, log: Log)
    requires LogOk(cfg, log)
    ensures TokensOk(cfg, IssuedBy(log)) && RetryScidLen(cfg) >= 8
  {
    forall token | token in IssuedBy(log).retry ensures |token.scid| == RetryScidLen(cfg) {
      var i :| 0 <= i < |log| && log[i].RetryMade? && log[i].retry == token;
      assert Justified(cfg, log, i);
    }
  }

  // ---------------------------------------------------------------- honest clients get in

  lemma {:induction false} DrainExtendsLog(cfg: Config, c: Live, id: nat, log: Log, events: seq<ConnEvent>)
    ensures log <= DrainEvents(cfg, c, id, log, events).1
  {
    if events != [] {
      DrainExtendsLog(cfg, c, id, log, events[..|events| - 1]);
    }
  }

  lemma StepExtendsLog(cfg: Config, s: State, e: Event)
    requires Enabled(cfg, s, e)
    ensures s.log <= Step(cfg, s, e).log
  {
    match e
    case InitialArrives(i, from, ts, o) =>
      var d := Decide(cfg, IssuedBy(s.log), i, from, ts);
      if d.Admit? {
        var c := NewConn(d, i, from, o);
        var log := s.log + [Arrived(i, from, ts)];
        DrainExtendsLog(cfg, Live(c.remote, c.validated, false), |log|, log + [Created(c, |s.log|)], o.events);
      }
    case Drain(id, events) => DrainExtendsLog(cfg, s.conns[id], id, s.log, events);
    case Removed(_) =>
  }

  lemma {:induction false} RunExtendsLog(cfg: Config, s: State, es: seq<Event>, t: State)
    requires Reaches(cfg, s, es, t)
    ensures s.log <= t.log
    decreases |es|
  {
    if es != [] {
      StepExtendsLog(cfg, s, es[0]);
      RunExtendsLog(cfg, Step(cfg, s, es[0]), es[1..], t);
    }
  }

  /** An admitted Initial that nothing else stops creates its connection right after it is logged. */
  lemma AdmittedIsCreated(cfg: Config, s: State, i: Initial, from: Addr, ts: nat, o: Outcome)
    requires Decide(cfg, IssuedBy(s.log), i, from, ts).Admit?
    requires !o.refused && (o.read == ReadOk || o.read == Discarded)
    ensures var d, log := Decide(cfg, IssuedBy(s.log), i, from, ts), Arrive(cfg, s, i, from, ts, o).log;
            |s.log| + 1 < |log| && log[|s.log| + 1] == Created(NewConn(d, i, from, o), |s.log|)
  {
    var c := NewConn(Decide(cfg, IssuedBy(s.log), i, from, ts), i, from, o);
    var log := s.log + [Arrived(i, from, ts)] + [Created(c, |s.log|)];
    DrainExtendsLog(cfg, Live(c.remote, c.validated, false), |s.log| + 1, log, o.events);
    assert log[|s.log| + 1] == Created(c, |s.log|);
  }

  /**
    Retry round trip: a client that answers a Retry in time, from the same address and with the
    Retry's SCID, is let in whatever happened in between, with the DCID it first used.
   */
  lemma RetryRoundTrip(cfg: Config, s: State, first: Initial, from: Addr, ts: nat, o: Outcome, es: seq<Event>, t: State,
                       second: Initial, later: nat, p: Outcome)
    requires cfg.retryConfigured && first.token.NoToken? && o.retryScid.Some?
    requires Enabled(cfg, s, InitialArrives(first, from, ts, o))
    requires Reaches(cfg, Arrive(cfg, s, first, from, ts, o), es, t)
    requires second.version == first.version && second.dcid == o.retryScid.value
    requires second.token == FromRetry(RetryToken(first.version, from, o.retryScid.value, first.dcid, ts))
    requires !Expired(ts, cfg.timeout, later)
    requires !p.refused && (p.read == ReadOk || p.read == Discarded)
    ensures var log, scid := Arrive(cfg, t, second, from, later, p).log, o.retryScid.value;
            |t.log| + 1 < |log| && log[|t.log| + 1]
            == Created(Conn(scid, scid, first.dcid, Some(scid), from, true, true), |t.log|)
  {
    var asked := Arrive(cfg, s, first, from, ts, o);
    var k := |s.log| + 1;
    assert asked.log[k] == RetryMade(second.token.retry, |s.log|);
    RunExtendsLog(cfg, asked, es, t);
    assert t.log[k] == asked.log[k];
    AdmittedIsCreated(cfg, t, second, from, later, p);
  }

  /** A client that returns in time with a NEW_TOKEN made for its address is let in as validated, without a Retry. */
  lemma NewTokenRoundTrip(cfg: Config, s: State, k: nat, es: seq<Event>, t: State, i: Initial, later: nat, p: Outcome)
    requires k < |s.log| && s.log[k].NewTokenMade? && Reaches(cfg, s, es, t)
    requires i.token == FromNewToken(s.log[k].token) && !Expired(s.log[k].token.ts, cfg.timeout, later)
    requires !p.refused && (p.read == ReadOk || p.read == Discarded)
    ensures var from := s.log[k].token.addr;
            var log := Arrive(cfg, t, i, from, later, p).log;
            |t.log| + 1 < |log| && log[|t.log| + 1]
            == Created(Conn(ConnKey(p.scid, Some(p.internalKey)).value, p.scid, i.dcid, None, from, true, false), |t.log|)
  {
    RunExtendsLog(cfg, s, es, t);
    assert t.log[k] == s.log[k];
    AdmittedIsCreated(cfg, t, i, s.log[k].token.addr, later, p);
  }
}

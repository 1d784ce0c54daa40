/**
  The server, the shared routing table and the accepted connections as one step system
  (tokio-ngtcp2/src/server.rs). A step is what one task does between two points where another may
  run: the mutex of `SharedRoutes` is held for at most one step. Whatever ngtcp2 does, issue and
  retire connection IDs, complete handshakes, fail, is a choice of the environment.
 */
module RouteSystem {
  import opened Octets
  import opened Resolve
  import opened RouteTable
  import opened TakenCids
  import opened HandOff
  import opened Admission

  const MAX_CONNECTIONS: nat := 1024
  const INTERNAL_KEY_LEN: nat := 16
  const MAX_QUEUED_DATAGRAMS: nat := 512

  /** A shorter packet gets no Stateless Reset: a first byte, 5 random bytes and the token. */
  const MIN_STATELESS_RESET_SIZE: nat := 22

  /** A channel between the shared table and one accepted connection; it is open while that lives. */
  type Channel = nat

  datatype Datagram = Datagram(data: seq<byte>, from: Addr, local: Addr, ecn: nat)

  /** Where `Server::accept` is with the datagram it has read. */
  datatype Progress =
    | Idle
    /** Not in the server's own table; the shared table is to be asked. */
    | Unrouted(datagram: Datagram)
    /**
      In neither table: `send_stateless_reset` tries the lengths in `rest`, the longest first.
      `since` records the IDs that accepted connections have registered after the shared table was
      asked and that are still there.
     */
    | Unclaimed(datagram: Datagram, since: set<Cid>, rest: set<nat>)
    /**
      A Stateless Reset with the token of `target` is about to be sent. `later` records the IDs
      that accepted connections have retired after the target was looked up.
     */
    | Answering(datagram: Datagram, target: Cid, since: set<Cid>, later: set<Cid>)

  /** What ngtcp2 has done on an accepted connection and `sync_routes` has not yet passed on. */
  datatype Pending = Pending(issued: seq<Cid>, retired: seq<Cid>)

  datatype System = System(
    conns: set<Key>,
    own: Table,
    ownTaken: Memory,
    progress: Progress,
    shared: Table,
    senders: map<Key, Channel>,
    sharedTaken: Memory,
    handles: map<Channel, Key>,
    queues: map<Channel, seq<Datagram>>,
    pending: map<Channel, Pending>)

  /** What ngtcp2 did to a connection during a call. */
  datatype ErrorKind = NoError | Ignore | SilentDrop | Terminal | TransportClose | ApplicationClose | Internal
  datatype ConnIo = ConnIo(issued: seq<Cid>, retired: seq<Cid>, error: ErrorKind, closeWritten: bool)

  /** Outcomes while a new connection is set up; `None` is a failure to generate. */
  datatype Setup = Setup(scid: Option<Cid>, internalKey: Option<Key>, preferred: Option<Cid>,
                         sessionOk: bool, connectionOk: bool, retryRequired: bool, error: ErrorKind, issued: seq<Cid>)

  datatype Event =
    | Receive(d: Datagram, io: ConnIo)
    /** `accepted` is the Initial of a long header, if the server accepts it as one. */
    | AskShared(accepted: Option<Initial>, tokens: Issued, ts: nat, setup: Setup)
    /** The next length is tried, under the lock; `hasToken` is the outcome of deriving a token. */
    | LookAt(len: nat, hasToken: bool)
    | FinishReset
    | Timer(key: Key, io: ConnIo)
    | RemoveClosed(closed: seq<Key>)
    | Take(taken: Key, channel: Channel, cids: seq<Cid>, addrs: seq<Addr>)
    | AcceptedRead(reader: Channel, d: Datagram, io: ConnIo)
    /** ngtcp2 issues and retires IDs in a call that sends packets before `sync_routes`, as in `flush`. */
    | AcceptedWork(worker: Channel, issued: seq<Cid>, retired: seq<Cid>)
    | AcceptedSync(synced: Channel)
    | AcceptedPop(popped: Channel, io: ConnIo)
    | AcceptedDrop(dropped: Channel)

  // ---------------------------------------------------------------- the server's own steps

  /** `remove_connection` */
  function RemoveConnection(s: System, key: Key): System {
    s.(conns := s.conns - {key}, own := Forget(s.own, key))
  }

  /** `handle_conn_error` */
  function ConnError(s: System, key: Key, error: ErrorKind, closeWritten: bool): System {
    match error
    case SilentDrop => RemoveConnection(s, key)
    case Internal => RemoveConnection(s, key)
    case TransportClose => if closeWritten then s else RemoveConnection(s, key)
    case ApplicationClose => if closeWritten then s else RemoveConnection(s, key)
    case _ => s
  }

  function SyncOwn(s: System, key: Key, io: ConnIo): System {
    s.(own := Retire(Register(s.own, key, io.issued), key, io.retired),
       ownTaken := RememberAll(s.ownTaken, io.retired))
  }

  /** `handle_existing_connection` */
  function Existing(s: System, key: Key, io: ConnIo): System {
    if key !in s.conns then s
    else ConnError(SyncOwn(s, key, io), key, io.error, io.closeWritten)
  }

  /** One connection of `handle_timers`, which closes nothing and only removes. */
  function OnTimer(s: System, key: Key, io: ConnIo): System {
    if key !in s.conns then s
    else
      var t := SyncOwn(s, key, io);
      if io.error == NoError || io.error == Ignore || io.error == Terminal then t else RemoveConnection(t, key)
  }

  function RemoveAll(s: System, keys: seq<Key>): System {
    if keys == [] then s else RemoveConnection(RemoveAll(s, keys[..|keys| - 1]), keys[|keys| - 1])
  }

  /** The entries `handle_new_connection` adds for a connection with this SCID and key. */
  function AddRoutes(t: Table, scid: Cid, key: Key, from: Addr, originalDcid: Cid, preferred: Option<Cid>, issued: seq<Cid>): Table {
    var lens := if scid == [] then t.lens else t.lens + {|scid|};
    var t1 := if scid != key then Table(t.cids, t.addrs[from := key], lens)
              else Table(t.cids[scid := key], t.addrs, lens);
    var t2 := t1.(cids := t1.cids[originalDcid := key]);
    var t3 := if scid != [] && preferred.Some? then Register(t2, key, [preferred.value]) else t2;
    Register(t3, key, issued)
  }

  /** The key `handle_new_connection` would give the connection, if it gets that far. */
  function KeyOf(d: Decision, i: Initial, setup: Setup): Option<Key>
    requires d.Admit?
  {
    match ServerScid(d, i, setup.scid)
    case None => None
    case Some(scid) => ConnKey(scid, setup.internalKey)
  }

  /** Nothing makes `handle_new_connection` return early. */
  predicate Creates(cfg: Config, s: System, i: Initial, from: Addr, tokens: Issued, ts: nat, setup: Setup) {
    var d := Decide(cfg, tokens, i, from, ts);
    && d.Admit?
    && |s.conns| < MAX_CONNECTIONS
    && (d.validated || d.originalDcid !in s.own.cids)
    && KeyOf(d, i, setup).Some?
    && setup.sessionOk && setup.connectionOk && !setup.retryRequired
    && (setup.error == NoError || setup.error == Ignore)
  }

  /** `handle_new_connection` from the decision on; what it sends does not touch the tables. */
  function NewConnection(cfg: Config, s: System, i: Initial, from: Addr, tokens: Issued, ts: nat, setup: Setup): System {
    if !Creates(cfg, s, i, from, tokens, ts, setup) then s
    else
      var d := Decide(cfg, tokens, i, from, ts);
      var key := KeyOf(d, i, setup).value;
      var scid := ServerScid(d, i, setup.scid).value;
      s.(conns := s.conns + {key},
         own := AddRoutes(s.own, scid, key, from, d.originalDcid, setup.preferred, setup.issued))
  }

  /** `take_connection` */
  function TakeConnection(s: System, key: Key, channel: Channel, cids: seq<Cid>, addrs: seq<Addr>): System {
    s.(conns := s.conns - {key},
       own := Forget(s.own, key),
       ownTaken := RememberAll(s.ownTaken, cids),
       shared := SharedAfter(s.shared, key, cids, addrs),
       senders := s.senders[key := channel],
       handles := s.handles[channel := key],
       queues := s.queues[channel := []],
       pending := s.pending[channel := Pending([], [])])
  }

  // ---------------------------------------------------------------- delivery through the shared table

  /** Every accepted connection has its queue and its pending IDs. */
  predicate Shaped(s: System) {
    s.handles.Keys <= s.queues.Keys && s.handles.Keys <= s.pending.Keys
  }

  /** What `deliver` reports: there is a queue and its receiver lives. */
  predicate Deliverable(s: System, key: Key) {
    key in s.senders && s.senders[key] in s.handles
  }

  /** The records of the server's progress after IDs were registered and retired. */
  function Noted(p: Progress, registered: seq<Cid>, retired: seq<Cid>, shared: Table, taken: Memory): Progress {
    match p
    case Unclaimed(d, since, rest) => Unclaimed(d, (since + set c | c in registered) * shared.cids.Keys, rest)
    case Answering(d, target, since, later) =>
      Answering(d, target, (since + set c | c in registered) * shared.cids.Keys, (later + set c | c in retired) * taken.cids)
    case _ => p
  }

  /** `SharedRoutes::remove` */
  function RemoveShared(s: System, key: Key): System {
    var shared := Forget(s.shared, key);
    s.(shared := shared, senders := s.senders - {key}, progress := Noted(s.progress, [], [], shared, s.sharedTaken))
  }

  /** `deliver`, and the clean-up of its callers; a full queue drops the datagram. */
  function Delivered(s: System, key: Key, d: Datagram): System
    requires s.handles.Keys <= s.queues.Keys
  {
    if !Deliverable(s, key) then RemoveShared(s, key)
    else
      var channel := s.senders[key];
      if |s.queues[channel]| >= MAX_QUEUED_DATAGRAMS then s
      else s.(queues := s.queues[channel := s.queues[channel] + [d]])
  }

  /** What ngtcp2 does on the connection is pending until the next sync. */
  function Work(s: System, channel: Channel, issued: seq<Cid>, retired: seq<Cid>): System
    requires channel in s.pending
  {
    var p := s.pending[channel];
    s.(pending := s.pending[channel := Pending(p.issued + issued, p.retired + retired)])
  }

  /** `AcceptedConnection::sync_routes` */
  function SyncShared(s: System, channel: Channel): System
    requires channel in s.handles && channel in s.pending
  {
    var key, p := s.handles[channel], s.pending[channel];
    var shared := Retire(Register(s.shared, key, p.issued), key, p.retired);
    var taken := RememberAll(s.sharedTaken, p.retired);
    s.(shared := shared, sharedTaken := taken,
       progress := Noted(s.progress, p.issued, p.retired, shared, taken),
       pending := s.pending[channel := Pending([], [])])
  }

  /** ngtcp2 has worked on the connection; an internal error returns before the sync. */
  function AfterIo(s: System, channel: Channel, io: ConnIo): System
    requires channel in s.handles && channel in s.pending
  {
    var t := Work(s, channel, io.issued, io.retired);
    if io.error == Internal then t else SyncShared(t, channel)
  }

  /** `AcceptedConnection::handle_received_datagram` */
  function ReadByAccepted(s: System, channel: Channel, d: Datagram, io: ConnIo): System
    requires channel in s.handles && Shaped(s)
  {
    var owner := SharedOwner(s.shared, d.data, d.from);
    if owner.Some? && owner.value != s.handles[channel] then Delivered(s, owner.value, d)
    else AfterIo(s, channel, io)
  }

  // ---------------------------------------------------------------- Stateless Reset

  /**
    The ID whose token `send_stateless_reset` uses: the longest listed length first; a remembered
    ID ends the search, one without a token does not.
   */
  function ResetTarget(lens: set<nat>, taken: set<Cid>, tokenless: set<Cid>, data: seq<byte>, len: nat): Option<Cid> {
    if len in lens && 1 + len <= |data| && data[1..1 + len] in taken then None
    else if len in lens && 1 + len <= |data| && data[1..1 + len] !in tokenless then Some(data[1..1 + len])
    else if len == 0 then None
    else ResetTarget(lens, taken, tokenless, data, len - 1)
  }

  /** One turn of that search as it happens: what is remembered is looked up anew for each length. */
  function Looked(s: System, len: nat, hasToken: bool): System
    requires s.progress.Unclaimed?
  {
    var d := s.progress.datagram;
    var next := s.(progress := s.progress.(rest := s.progress.rest - {len}));
    if |d.data| < 1 + len || len > MAX_CID_LEN then next
    else
      var cid := d.data[1..1 + len];
      if cid in s.ownTaken.cids || cid in s.sharedTaken.cids then s.(progress := Idle)
      else if !hasToken then next
      else if |d.data| < MIN_STATELESS_RESET_SIZE then s.(progress := Idle)
      else s.(progress := Answering(d, cid, s.progress.since, {}))
  }

  // ---------------------------------------------------------------- the step relation

  /** What the code, its schedulers and ngtcp2 may do next. */
  ghost predicate Possible(cfg: Config, s: System, e: Event) {
    match e
    case Receive(_, _) => s.progress.Idle?
    case AskShared(accepted, tokens, ts, setup) =>
      && s.progress.Unrouted?
      && (setup.scid.Some? ==> |setup.scid.value| == cfg.scidLen)
      && (setup.internalKey.Some? ==> |setup.internalKey.value| == INTERNAL_KEY_LEN)
      // the packet is the one that was read
      && (accepted.Some? && IsLong(s.progress.datagram.data) ==>
            LongDcid(s.progress.datagram.data) == Some(accepted.value.dcid))
      // a generated key is random, so no connection uses it; a Retry's SCID comes from the network
      && (accepted.Some? ==>
            var d := Decide(cfg, tokens, accepted.value, s.progress.datagram.from, ts);
            d.Admit? && !d.retried && KeyOf(d, accepted.value, setup).Some? ==>
              KeyOf(d, accepted.value, setup).value !in s.conns + s.senders.Keys)
    case LookAt(len, _) => s.progress.Unclaimed? && len in s.progress.rest && forall l :: l in s.progress.rest ==> l <= len
    case FinishReset => s.progress.Unclaimed? || s.progress.Answering?
    case Timer(_, _) => s.progress.Idle?
    case RemoveClosed(_) => s.progress.Idle?
    case Take(key, channel, cids, addrs) =>
      s.progress.Idle? && key in s.conns && channel !in s.handles && Collected(s.own, key, cids, addrs)
    case AcceptedRead(channel, _, _) => channel in s.handles
    case AcceptedWork(channel, _, _) => channel in s.handles
    case AcceptedSync(channel) => channel in s.handles
    case AcceptedPop(channel, _) => channel in s.handles && channel in s.queues && s.queues[channel] != []
    case AcceptedDrop(channel) => channel in s.handles
  }

  /** The tokens the server takes for its own have the length it gives them. */
  ghost predicate Enabled(cfg: Config, s: System, e: Event) {
    Possible(cfg, s, e) && (e.AskShared? ==> TokensOk(cfg, e.tokens))
  }

  ghost function Step(cfg: Config, s: System, e: Event): System
    requires Shaped(s) && Possible(cfg, s, e)
  {
    match e
    case Receive(d, io) =>
      var owner := ServerOwner(s.own, d.data, d.from);
      if owner.Some? then Existing(s, owner.value, io) else s.(progress := Unrouted(d))
    case AskShared(accepted, tokens, ts, setup) =>
      var d := s.progress.datagram;
      var owner := SharedOwner(s.shared, d.data, d.from);
      if owner.Some? then Delivered(s.(progress := Idle), owner.value, d)
      else if IsLong(d.data) then
        if accepted.None? then s.(progress := Idle)
        else NewConnection(cfg, s.(progress := Idle), accepted.value, d.from, tokens, ts, setup)
      else s.(progress := Unclaimed(d, {}, s.own.lens))
    case LookAt(len, hasToken) => Looked(s, len, hasToken)
    case FinishReset => s.(progress := Idle)
    case Timer(key, io) => OnTimer(s, key, io)
    case RemoveClosed(keys) => RemoveAll(s, keys)
    case Take(key, channel, cids, addrs) => TakeConnection(s, key, channel, cids, addrs)
    case AcceptedRead(channel, d, io) => ReadByAccepted(s, channel, d, io)
    case AcceptedWork(channel, issued, retired) => Work(s, channel, issued, retired)
    case AcceptedSync(channel) => SyncShared(s, channel)
    case AcceptedPop(channel, io) => AfterIo(s.(queues := s.queues[channel := s.queues[channel][1..]]), channel, io)
    case AcceptedDrop(channel) =>
      var t := RemoveShared(s, s.handles[channel]);
      t.(handles := t.handles - {channel}, queues := t.queues - {channel}, pending := t.pending - {channel})
  }

  /** A server just bound. */
  function Bound(cfg: Config): System {
    System({}, Table(map[], map[], if cfg.scidLen > 0 then {cfg.scidLen} else {}), EMPTY, Idle,
           Table(map[], map[], {}), map[], EMPTY, map[], map[], map[])
  }

  ghost predicate Reaches(cfg: Config, s: System, es: seq<Event>, t: System)
    decreases |es|
  {
    if es == [] then t == s
    else Shaped(s) && Enabled(cfg, s, es[0]) && Reaches(cfg, Step(cfg, s, es[0]), es[1..], t)
  }

  // ---------------------------------------------------------------- invariant

  /** The server's table routes only to connections it holds, of which there are at most 1024. */
  ghost predicate ServerOk(cfg: Config, s: System) {
    && ValuesIn(s.own, s.conns)
    && |s.conns| <= MAX_CONNECTIONS
    && (cfg.scidLen > 0 ==> s.own.addrs == map[])
  }

  /** The shared table routes only to live connections, each with the open queue that is its own. */
  ghost predicate RoutesLive(s: System) {
    && ValuesIn(s.shared, s.senders.Keys)
    && (forall k :: k in s.senders ==> s.senders[k] in s.handles && s.handles[s.senders[k]] == k)
    && (forall ch :: ch in s.handles ==> s.handles[ch] in s.senders && s.senders[s.handles[ch]] == ch)
  }

  /** Routes are live, and no connection is both held by the server and accepted. */
  ghost predicate Live(s: System) {
    RoutesLive(s) && s.conns !! s.senders.Keys
  }

  ghost predicate SharedOk(cfg: Config, s: System) {
    LengthsListed(s.shared) && (cfg.scidLen > 0 ==> s.shared.addrs == map[])
  }

  ghost predicate QueuesOk(s: System) {
    && s.queues.Keys == s.handles.Keys == s.pending.Keys
    && forall ch :: ch in s.queues ==> |s.queues[ch]| <= MAX_QUEUED_DATAGRAMS
  }

  /** The packet starts, after its first byte, with this ID. */
  ghost predicate StartsWith(data: seq<byte>, cid: Cid) {
    |cid| <= MAX_CID_LEN && 1 + |cid| <= |data| && data[1..1 + |cid|] == cid
  }

  /** The server does not know the packet, nor did the shared table; what it knows by now is recorded. */
  ghost predicate StillUnclaimed(s: System, d: Datagram, since: set<Cid>) {
    && !IsLong(d.data)
    && ServerOwner(s.own, d.data, d.from).None?
    && since <= s.shared.cids.Keys
    && forall c :: c in s.shared.cids && StartsWith(d.data, c) ==> c in since
  }

  ghost predicate TargetOk(s: System, d: Datagram, target: Cid, later: set<Cid>) {
    && StartsWith(d.data, target) && |target| in s.own.lens
    && |d.data| >= MIN_STATELESS_RESET_SIZE
    && target !in s.ownTaken.cids
    && later <= s.sharedTaken.cids
    && (target in s.sharedTaken.cids ==> target in later)
  }

  ghost predicate ProgressOk(s: System) {
    match s.progress
    case Idle => true
    case Unrouted(d) => ServerOwner(s.own, d.data, d.from).None?
    case Unclaimed(d, since, rest) => StillUnclaimed(s, d, since) && rest <= s.own.lens
    case Answering(d, target, since, later) => StillUnclaimed(s, d, since) && TargetOk(s, d, target, later)
  }

  /** What every run keeps, whatever keys the network brings back. */
  ghost predicate Inv(cfg: Config, s: System) {
    && ServerOk(cfg, s) && SharedOk(cfg, s) && QueuesOk(s) && ProgressOk(s)
    && Consistent(s.ownTaken) && Consistent(s.sharedTaken)
  }

  // ---------------------------------------------------------------- the invariant is kept

  lemma TablesKeepValues(t: Table, keys: set<Key>, key: Key, cids: seq<Cid>)
    requires ValuesIn(t, keys)
    ensures key in keys ==> ValuesIn(Register(t, key, cids), keys)
    ensures ValuesIn(Retire(t, key, cids), keys)
    ensures ValuesIn(Forget(t, key), keys - {key})
    ensures LengthsListed(t) ==>
      LengthsListed(Register(t, key, cids)) && LengthsListed(Retire(t, key, cids)) && LengthsListed(Forget(t, key))
  {
  }

  lemma {:induction false} RememberAllConsistent(m: Memory, cids: seq<Cid>)
    requires Consistent(m)
    ensures Consistent(RememberAll(m, cids))
  {
    if cids != [] {
      RememberAllConsistent(m, cids[..|cids| - 1]);
      RememberKeepsConsistent(RememberAll(m, cids[..|cids| - 1]), cids[|cids| - 1]);
    }
  }

  lemma RemoveKeepsInv(cfg: Config, s: System, key: Key)
    requires Inv(cfg, s) && s.progress.Idle?
    ensures Inv(cfg, RemoveConnection(s, key)) && RemoveConnection(s, key).progress.Idle?
  {
    TablesKeepValues(s.own, s.conns, key, []);
  }

  lemma SyncOwnKeepsInv(cfg: Config, s: System, key: Key, io: ConnIo)
    requires Inv(cfg, s) && s.progress.Idle? && key in s.conns
    ensures Inv(cfg, SyncOwn(s, key, io)) && SyncOwn(s, key, io).progress.Idle?
  {
    TablesKeepValues(s.own, s.conns, key, io.issued);
    TablesKeepValues(Register(s.own, key, io.issued), s.conns, key, io.retired);
    RememberAllConsistent(s.ownTaken, io.retired);
  }

  lemma ExistingKeepsInv(cfg: Config, s: System, key: Key, io: ConnIo)
    requires Inv(cfg, s) && s.progress.Idle?
    ensures Inv(cfg, Existing(s, key, io)) && Inv(cfg, OnTimer(s, key, io))
  {
    if key in s.conns {
      SyncOwnKeepsInv(cfg, s, key, io);
      RemoveKeepsInv(cfg, SyncOwn(s, key, io), key);
    }
  }

  lemma {:induction false} RemoveAllKeepsInv(cfg: Config, s: System, keys: seq<Key>)
    requires Inv(cfg, s) && s.progress.Idle?
    ensures Inv(cfg, RemoveAll(s, keys)) && RemoveAll(s, keys).progress.Idle?
  {
    if keys != [] {
      RemoveAllKeepsInv(cfg, s, keys[..|keys| - 1]);
      RemoveKeepsInv(cfg, RemoveAll(s, keys[..|keys| - 1]), keys[|keys| - 1]);
    }
  }

  lemma AddRoutesKeepsValues(t: Table, keys: set<Key>, scid: Cid, key: Key, from: Addr, originalDcid: Cid,
                             preferred: Option<Cid>, issued: seq<Cid>)
    requires ValuesIn(t, keys)
    ensures ValuesIn(AddRoutes(t, scid, key, from, originalDcid, preferred, issued), keys + {key})
    ensures scid == key ==> AddRoutes(t, scid, key, from, originalDcid, preferred, issued).addrs == t.addrs
  {
    var lens := if scid == [] then t.lens else t.lens + {|scid|};
    var t1 := if scid != key then Table(t.cids, t.addrs[from := key], lens)
              else Table(t.cids[scid := key], t.addrs, lens);
    var t2 := t1.(cids := t1.cids[originalDcid := key]);
    assert ValuesIn(t2, keys + {key});
    var t3 := if scid != [] && preferred.Some? then Register(t2, key, [preferred.value]) else t2;
    if scid != [] && preferred.Some? {
      TablesKeepValues(t2, keys + {key}, key, [preferred.value]);
    }
    TablesKeepValues(t3, keys + {key}, key, issued);
  }

  /** A Retry's SCID is never empty, so with non-empty SCIDs the key is the SCID. */
  lemma KeyIsScid(cfg: Config, d: Decision, i: Initial, from: Addr, tokens: Issued, ts: nat, setup: Setup)
    requires d == Decide(cfg, tokens, i, from, ts) && d.Admit? && KeyOf(d, i, setup).Some?
    requires TokensOk(cfg, tokens)
    requires setup.scid.Some? ==> |setup.scid.value| == cfg.scidLen
    ensures cfg.scidLen > 0 ==> KeyOf(d, i, setup) == ServerScid(d, i, setup.scid)
  {
    if d.retried {
      assert i.token.retry in tokens.retry;
    }
  }

  lemma NewConnectionKeepsInv(cfg: Config, s: System, i: Initial, from: Addr, tokens: Issued, ts: nat, setup: Setup)
    requires Inv(cfg, s) && s.progress.Idle?
    requires TokensOk(cfg, tokens)
    requires setup.scid.Some? ==> |setup.scid.value| == cfg.scidLen
    ensures Inv(cfg, NewConnection(cfg, s, i, from, tokens, ts, setup))
  {
    var d := Decide(cfg, tokens, i, from, ts);
    if Creates(cfg, s, i, from, tokens, ts, setup) {
      var key := KeyOf(d, i, setup).value;
      var scid := ServerScid(d, i, setup.scid).value;
      AddRoutesKeepsValues(s.own, s.conns, scid, key, from, d.originalDcid, setup.preferred, setup.issued);
      KeyIsScid(cfg, d, i, from, tokens, ts, setup);
    }
  }

  lemma SharedAfterKeepsValues(shared: Table, keys: set<Key>, key: Key, cids: seq<Cid>, addrs: seq<Addr>)
    requires LengthsListed(shared)
    ensures ValuesIn(shared, keys) ==> ValuesIn(SharedAfter(shared, key, cids, addrs), keys + {key})
    ensures LengthsListed(SharedAfter(shared, key, cids, addrs))
  {
    if ValuesIn(shared, keys) {
      TablesKeepValues(shared, keys + {key}, key, cids);
    }
  }

  lemma NoAddressesToTake(own: Table, shared: Table, key: Key, cids: seq<Cid>, addrs: seq<Addr>)
    requires Collected(own, key, cids, addrs) && own.addrs == map[]
    ensures SharedAfter(shared, key, cids, addrs).addrs == shared.addrs
  {
    assert forall a :: a in addrs ==> a in AddrsOf(own, key);
  }

  lemma TakeKeepsSharedOk(cfg: Config, s: System, key: Key, channel: Channel, cids: seq<Cid>, addrs: seq<Addr>)
    requires ServerOk(cfg, s) && SharedOk(cfg, s) && Enabled(cfg, s, Take(key, channel, cids, addrs))
    ensures SharedOk(cfg, TakeConnection(s, key, channel, cids, addrs))
  {
    SharedAfterKeepsValues(s.shared, {}, key, cids, addrs);
    if cfg.scidLen > 0 {
      NoAddressesToTake(s.own, s.shared, key, cids, addrs);
    }
  }

  lemma TakeKeepsServerOk(cfg: Config, s: System, key: Key, channel: Channel, cids: seq<Cid>, addrs: seq<Addr>)
    requires ServerOk(cfg, s)
    ensures ServerOk(cfg, TakeConnection(s, key, channel, cids, addrs))
  {
    TablesKeepValues(s.own, s.conns, key, []);
  }

  lemma TakeKeepsInv(cfg: Config, s: System, key: Key, channel: Channel, cids: seq<Cid>, addrs: seq<Addr>)
    requires Inv(cfg, s) && Enabled(cfg, s, Take(key, channel, cids, addrs))
    ensures Inv(cfg, TakeConnection(s, key, channel, cids, addrs))
  {
    TakeKeepsServerOk(cfg, s, key, channel, cids, addrs);
    TakeKeepsSharedOk(cfg, s, key, channel, cids, addrs);
    RememberAllConsistent(s.ownTaken, cids);
  }

  lemma SyncKeepsUnclaimed(s: System, channel: Channel, d: Datagram, since: set<Cid>)
    requires channel in s.handles && channel in s.pending && StillUnclaimed(s, d, since)
    ensures var t := SyncShared(s, channel);
            StillUnclaimed(t, d, (since + set c | c in s.pending[channel].issued) * t.shared.cids.Keys)
  {
    var t := SyncShared(s, channel);
    var now := (since + set c | c in s.pending[channel].issued) * t.shared.cids.Keys;
    forall c | c in t.shared.cids && StartsWith(d.data, c) ensures c in now {
      assert c in s.pending[channel].issued || c in s.shared.cids;
    }
  }

  lemma SyncKeepsTarget(s: System, channel: Channel, d: Datagram, target: Cid, later: set<Cid>)
    requires channel in s.handles && channel in s.pending && TargetOk(s, d, target, later)
    ensures var t := SyncShared(s, channel);
            TargetOk(t, d, target, (later + set c | c in s.pending[channel].retired) * t.sharedTaken.cids)
  {
    if target in SyncShared(s, channel).sharedTaken.cids {
      RememberOnlyAdds(s.sharedTaken, s.pending[channel].retired, target);
    }
  }

  lemma SyncKeepsProgress(s: System, channel: Channel)
    requires channel in s.handles && channel in s.pending && ProgressOk(s)
    ensures ProgressOk(SyncShared(s, channel))
  {
    match s.progress
    case Idle =>
    case Unrouted(_) =>
    case Unclaimed(d, since, _) => SyncKeepsUnclaimed(s, channel, d, since);
    case Answering(d, target, since, later) =>
      SyncKeepsUnclaimed(s, channel, d, since);
      SyncKeepsTarget(s, channel, d, target, later);
  }

  lemma SyncSharedKeepsInv(cfg: Config, s: System, channel: Channel)
    requires Inv(cfg, s) && channel in s.handles
    ensures Inv(cfg, SyncShared(s, channel))
  {
    SyncKeepsProgress(s, channel);
    RememberAllConsistent(s.sharedTaken, s.pending[channel].retired);
  }

  lemma WorkKeepsInv(cfg: Config, s: System, channel: Channel, issued: seq<Cid>, retired: seq<Cid>)
    requires Inv(cfg, s) && channel in s.handles
    ensures Inv(cfg, Work(s, channel, issued, retired))
  {
  }

  lemma AfterIoKeepsInv(cfg: Config, s: System, channel: Channel, io: ConnIo)
    requires Inv(cfg, s) && channel in s.handles
    ensures Inv(cfg, AfterIo(s, channel, io))
  {
    WorkKeepsInv(cfg, s, channel, io.issued, io.retired);
    if io.error != Internal {
      SyncSharedKeepsInv(cfg, Work(s, channel, io.issued, io.retired), channel);
    }
  }

  lemma ProgressKeepsInv(cfg: Config, s: System, p: Progress)
    requires Inv(cfg, s) && ProgressOk(s.(progress := p))
    ensures Inv(cfg, s.(progress := p))
  {
  }

  lemma LookKeepsProgress(s: System, len: nat, hasToken: bool)
    requires ProgressOk(s) && s.progress.Unclaimed? && len in s.progress.rest
    ensures ProgressOk(Looked(s, len, hasToken))
  {
    var d, t := s.progress.datagram, Looked(s, len, hasToken);
    if t.progress.Answering? {
      assert StillUnclaimed(t, d, s.progress.since);
      assert TargetOk(t, d, d.data[1..1 + len], {});
    } else if t.progress.Unclaimed? {
      assert StillUnclaimed(t, d, s.progress.since);
    }
  }

  lemma LookKeepsInv(cfg: Config, s: System, len: nat, hasToken: bool)
    requires Inv(cfg, s) && s.progress.Unclaimed? && len in s.progress.rest
    ensures Inv(cfg, Looked(s, len, hasToken))
  {
    var t := Looked(s, len, hasToken);
    LookKeepsProgress(s, len, hasToken);
    assert t == s.(progress := t.progress);
    ProgressKeepsInv(cfg, s, t.progress);
  }

  lemma RemoveSharedKeepsInv(cfg: Config, s: System, key: Key)
    requires Inv(cfg, s)
    ensures Inv(cfg, RemoveShared(s, key))
  {
  }

  lemma DeliveryKeepsInv(cfg: Config, s: System, key: Key, d: Datagram)
    requires Inv(cfg, s)
    ensures Inv(cfg, Delivered(s, key, d))
  {
    if !Deliverable(s, key) {
      RemoveSharedKeepsInv(cfg, s, key);
    }
  }

  lemma UnclaimedHasNoPrefix(t: Table, data: seq<byte>)
    requires LengthsListed(t) && !IsLong(data) && ResolveDcid(t.cids, t.lens, data).None?
    ensures forall c :: c in t.cids ==> !StartsWith(data, c)
  {
    forall c | c in t.cids ensures !StartsWith(data, c) {
      if StartsWith(data, c) {
        UnresolvedHasNoPrefix(t, data, |c|);
        assert false;
      }
    }
  }

  lemma AskSharedKeepsInv(cfg: Config, s: System, e: Event)
    requires Inv(cfg, s) && e.AskShared? && Enabled(cfg, s, e)
    ensures Inv(cfg, Step(cfg, s, e))
  {
    var d := s.progress.datagram;
    var idle := s.(progress := Idle);
    if SharedOwner(s.shared, d.data, d.from).Some? {
      DeliveryKeepsInv(cfg, idle, SharedOwner(s.shared, d.data, d.from).value, d);
    } else if !IsLong(d.data) {
      UnclaimedHasNoPrefix(s.shared, d.data);
    } else if e.accepted.Some? {
      NewConnectionKeepsInv(cfg, idle, e.accepted.value, d.from, e.tokens, e.ts, e.setup);
    }
  }

  lemma DropKeepsInv(cfg: Config, s: System, channel: Channel)
    requires Inv(cfg, s) && channel in s.handles
    ensures Inv(cfg, Step(cfg, s, AcceptedDrop(channel)))
    ensures CidsOf(Step(cfg, s, AcceptedDrop(channel)).shared, s.handles[channel]) == {}
    ensures AddrsOf(Step(cfg, s, AcceptedDrop(channel)).shared, s.handles[channel]) == {}
  {
    RemoveSharedKeepsInv(cfg, s, s.handles[channel]);
  }

  lemma PopKeepsInv(cfg: Config, s: System, channel: Channel, io: ConnIo)
    requires Inv(cfg, s) && Enabled(cfg, s, AcceptedPop(channel, io))
    ensures Inv(cfg, Step(cfg, s, AcceptedPop(channel, io)))
  {
    var t := s.(queues := s.queues[channel := s.queues[channel][1..]]);
    assert QueuesOk(t) && ProgressOk(t);
    AfterIoKeepsInv(cfg, t, channel, io);
  }

  lemma ReadKeepsInv(cfg: Config, s: System, channel: Channel, d: Datagram, io: ConnIo)
    requires Inv(cfg, s) && channel in s.handles
    ensures Inv(cfg, ReadByAccepted(s, channel, d, io))
  {
    var owner := SharedOwner(s.shared, d.data, d.from);
    if owner.Some? && owner.value != s.handles[channel] {
      DeliveryKeepsInv(cfg, s, owner.value, d);
    } else {
      AfterIoKeepsInv(cfg, s, channel, io);
    }
  }

  lemma StepKeepsInv(cfg: Config, s: System, e: Event)
    requires Inv(cfg, s) && Enabled(cfg, s, e)
    ensures Inv(cfg, Step(cfg, s, e))
  {
    match e
    case Receive(d, io) =>
      var owner := ServerOwner(s.own, d.data, d.from);
      if owner.Some? {
        ExistingKeepsInv(cfg, s, owner.value, io);
      }
    case AskShared(_, _, _, _) => AskSharedKeepsInv(cfg, s, e);
    case LookAt(len, hasToken) => LookKeepsInv(cfg, s, len, hasToken);
    case FinishReset =>
    case Timer(key, io) => ExistingKeepsInv(cfg, s, key, io);
    case RemoveClosed(keys) => RemoveAllKeepsInv(cfg, s, keys);
    case Take(key, channel, cids, addrs) => TakeKeepsInv(cfg, s, key, channel, cids, addrs);
    case AcceptedRead(channel, d, io) => ReadKeepsInv(cfg, s, channel, d, io);
    case AcceptedWork(channel, issued, retired) => WorkKeepsInv(cfg, s, channel, issued, retired);
    case AcceptedSync(channel) => SyncSharedKeepsInv(cfg, s, channel);
    case AcceptedPop(channel, io) => PopKeepsInv(cfg, s, channel, io);
    case AcceptedDrop(channel) => DropKeepsInv(cfg, s, channel);
  }

  lemma {:induction false} RunsKeepInv(cfg: Config, s: System, es: seq<Event>, t: System)
    requires Inv(cfg, s) && Reaches(cfg, s, es, t)
    ensures Inv(cfg, t)
    decreases |es|
  {
    if es != [] {
      StepKeepsInv(cfg, s, es[0]);
      RunsKeepInv(cfg, Step(cfg, s, es[0]), es[1..], t);
    }
  }

  ghost predicate Reachable(cfg: Config, t: System) {
    exists es :: Reaches(cfg, Bound(cfg), es, t)
  }

  lemma ReachableInv(cfg: Config, t: System)
    requires Reachable(cfg, t)
    ensures Inv(cfg, t)
  {
    var es :| Reaches(cfg, Bound(cfg), es, t);
    RunsKeepInv(cfg, Bound(cfg), es, t);
  }

  lemma {:induction false} ReachesMore(cfg: Config, s: System, es: seq<Event>, t: System, e: Event)
    requires Reaches(cfg, s, es, t) && Shaped(t) && Enabled(cfg, t, e)
    ensures Reaches(cfg, s, es + [e], Step(cfg, t, e))
    decreases |es|
  {
    if es != [] {
      ReachesMore(cfg, Step(cfg, s, es[0]), es[1..], t, e);
      assert (es + [e])[1..] == es[1..] + [e];
    }
  }

  ghost predicate Steps(cfg: Config, s: System, e: Event, t: System) {
    Shaped(s) && Enabled(cfg, s, e) && Step(cfg, s, e) == t
  }

  lemma StepReachable(cfg: Config, s: System, e: Event, t: System)
    requires Reachable(cfg, s) && Steps(cfg, s, e, t)
    ensures Reachable(cfg, t)
  {
    var es :| Reaches(cfg, Bound(cfg), es, s);
    ReachesMore(cfg, Bound(cfg), es, s, e);
  }

  // ---------------------------------------------------------------- theorems over whole runs

  /** The routing-table invariant, in every reachable state. */
  lemma RoutesOnlyToHeld(cfg: Config, t: System)
    requires Reachable(cfg, t)
    ensures ServerOk(cfg, t) && SharedOk(cfg, t) && QueuesOk(t)
  {
    ReachableInv(cfg, t);
  }

  // ---------------------------------------------------------------- Stateless Reset safety

  lemma {:induction false} ResetTargetIsCandidate(lens: set<nat>, taken: set<Cid>, tokenless: set<Cid>, data: seq<byte>, len: nat)
    requires ResetTarget(lens, taken, tokenless, data, len).Some?
    ensures var c := ResetTarget(lens, taken, tokenless, data, len).value;
            |c| <= len && |c| in lens && 1 + |c| <= |data| && data[1..1 + |c|] == c && c !in taken
  {
    if len > 0 && !(len in lens && 1 + len <= |data| && data[1..1 + len] !in tokenless) {
      ResetTargetIsCandidate(lens, taken, tokenless, data, len - 1);
    }
  }

  lemma {:induction false} SkippedLength(lens: set<nat>, taken: set<Cid>, tokenless: set<Cid>, data: seq<byte>, len: nat, top: nat)
    requires 1 + len <= |data| && len <= top ==> data[1..1 + len] !in taken && data[1..1 + len] in tokenless
    ensures ResetTarget(lens, taken, tokenless, data, top) == ResetTarget(lens - {len}, taken, tokenless, data, top)
  {
    if top > 0 {
      SkippedLength(lens, taken, tokenless, data, len, top - 1);
    }
  }

  lemma {:induction false} GreatestDecides(lens: set<nat>, taken: set<Cid>, tokenless: set<Cid>, data: seq<byte>, len: nat, top: nat)
    requires len in lens && (forall x :: x in lens ==> x <= len) && len <= top && 1 + len <= |data|
    requires data[1..1 + len] in taken || data[1..1 + len] !in tokenless
    ensures ResetTarget(lens, taken, tokenless, data, top)
            == if data[1..1 + len] in taken then None else Some(data[1..1 + len])
  {
    if top > len {
      GreatestDecides(lens, taken, tokenless, data, len, top - 1);
    }
  }

  lemma {:induction false} NoLengths(taken: set<Cid>, tokenless: set<Cid>, data: seq<byte>, top: nat)
    ensures ResetTarget({}, taken, tokenless, data, top).None?
  {
    if top > 0 {
      NoLengths(taken, tokenless, data, top - 1);
    }
  }

  /** Undisturbed, the turns of the search end at the target and answer it if the packet is long enough. */
  lemma LooksFindTarget(cfg: Config, s: System, e: Event, tokenless: set<Cid>)
    requires e.LookAt? && Shaped(s) && Enabled(cfg, s, e)
    requires var data := s.progress.datagram.data;
             1 + e.len <= |data| ==> (e.hasToken <==> data[1..1 + e.len] !in tokenless)
    ensures var data, taken := s.progress.datagram.data, s.ownTaken.cids + s.sharedTaken.cids;
            var target := ResetTarget(s.progress.rest, taken, tokenless, data, MAX_CID_LEN);
            var after := Step(cfg, s, e).progress;
            && (after.Unclaimed? ==> ResetTarget(after.rest, taken, tokenless, data, MAX_CID_LEN) == target)
            && (after.Answering? ==> target == Some(after.target))
            && (after.Idle? ==> target.None? || |data| < MIN_STATELESS_RESET_SIZE)
            && !after.Unrouted?
  {
    var data, taken := s.progress.datagram.data, s.ownTaken.cids + s.sharedTaken.cids;
    if e.len <= MAX_CID_LEN && 1 + e.len <= |data| && (data[1..1 + e.len] in taken || e.hasToken) {
      GreatestDecides(s.progress.rest, taken, tokenless, data, e.len, MAX_CID_LEN);
    } else {
      SkippedLength(s.progress.rest, taken, tokenless, data, e.len, MAX_CID_LEN);
    }
  }

  /**
    Stateless Reset safety (section 10.3 of RFC 9000). In every reachable state in which a reset is
    about to be sent, the ID whose token it uses starts the packet and is neither routed nor
    remembered by the server; the shared table routes it exactly if an accepted connection
    registered it after that table was asked, and remembers it exactly if one has retired it since
    it was looked up.
   */
  lemma ResetSafety(cfg: Config, t: System)
    requires Reachable(cfg, t) && t.progress.Answering?
    ensures var c := t.progress.target;
            && StartsWith(t.progress.datagram.data, c)
            && |t.progress.datagram.data| >= MIN_STATELESS_RESET_SIZE
            && c !in t.own.cids && c !in t.ownTaken.cids
            && (c in t.shared.cids <==> c in t.progress.since)
            && (c in t.sharedTaken.cids <==> c in t.progress.later)
  {
    ReachableInv(cfg, t);
    UnresolvedHasNoPrefix(t.own, t.progress.datagram.data, |t.progress.target|);
  }

  /**
    Hand-off over whole runs: with non-empty SCIDs and prefix-free IDs, every datagram the server
    resolved to a connection before taking it is then unresolved there, resolved to the same
    connection by the shared table, and deliverable.
   */
  lemma HandOffKeepsDatagrams(cfg: Config, t: System, e: Event, data: seq<byte>, from: Addr)
    requires Reachable(cfg, t) && e.Take? && Enabled(cfg, t, e) && Shaped(t)
    requires cfg.scidLen > 0 && PrefixFree(t.own, t.shared)
    requires ServerOwner(t.own, data, from) == Some(e.taken)
    ensures var u := Step(cfg, t, e);
            && ServerOwner(u.own, data, from).None?
            && SharedOwner(u.shared, data, from) == Some(e.taken)
            && Deliverable(u, e.taken)
  {
    ReachableInv(cfg, t);
    HandOffPreservesOwner(t.own, t.shared, e.taken, e.cids, e.addrs, data, from);
  }

  /** A long header that names this destination connection ID. */
  ghost predicate Names(data: seq<byte>, cid: Cid) {
    IsLong(data) && LongDcid(data) == Some(cid)
  }

  /**
    A new connection is found by what its client will send: retransmitted Initials with the original
    DCID, packets to the server's SCID and packets to every ID issued during the first flight.
   */
  lemma NewConnectionIsFound(cfg: Config, s: System, i: Initial, from: Addr, tokens: Issued, ts: nat, setup: Setup, data: seq<byte>)
    requires Creates(cfg, s, i, from, tokens, ts, setup)
    requires var d := Decide(cfg, tokens, i, from, ts);
             || Names(data, d.originalDcid)
             || (Names(data, KeyOf(d, i, setup).value) && ServerScid(d, i, setup.scid).value != [])
             || exists c :: c in setup.issued && Names(data, c)
    ensures ServerOwner(NewConnection(cfg, s, i, from, tokens, ts, setup).own, data, from)
            == Some(KeyOf(Decide(cfg, tokens, i, from, ts), i, setup).value)
  {
    var d := Decide(cfg, tokens, i, from, ts);
    var scid := ServerScid(d, i, setup.scid).value;
    AddRoutesMaps(s.own, scid, KeyOf(d, i, setup).value, from, d.originalDcid, setup.preferred, setup.issued, LongDcid(data).value);
  }

  /** Exactly these IDs lead to the new connection; every other entry is as before. */
  lemma AddRoutesMaps(t: Table, scid: Cid, key: Key, from: Addr, originalDcid: Cid, preferred: Option<Cid>, issued: seq<Cid>, c: Cid)
    ensures var u := AddRoutes(t, scid, key, from, originalDcid, preferred, issued);
            if c == originalDcid || c == scid == key || (scid != [] && preferred == Some(c)) || c in issued
            then c in u.cids && u.cids[c] == key
            else (c in u.cids <==> c in t.cids) && (c in t.cids ==> u.cids[c] == t.cids[c])
  {
  }

  /**
    After a sync the shared table routes to the connection exactly the IDs it routed before or that
    were issued, less the retired ones, and leaves every other connection's remaining IDs alone.
   */
  lemma SyncIsExact(s: System, channel: Channel, c: Cid)
    requires channel in s.handles && channel in s.pending
    ensures var key, p := s.handles[channel], s.pending[channel];
            var before, after := s.shared, SyncShared(s, channel).shared;
            && (c in after.cids && after.cids[c] == key
                <==> c !in p.retired && (c in p.issued || (c in before.cids && before.cids[c] == key)))
            && (c in before.cids && before.cids[c] != key && c !in p.issued ==> c in after.cids && after.cids[c] == before.cids[c])
            && (c !in before.cids && c !in p.issued ==> c !in after.cids)
  {
  }
}

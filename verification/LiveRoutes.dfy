/**
  Which runs of the routing system keep every shared route live: those in which each connection has
  a key of its own. A generated key is random; a Retry's SCID, which becomes the key of the
  connection that returns with it, can come back a second time.
 */
module LiveRoutes {
  import opened Octets
  import opened Resolve
  import opened RouteTable
  import opened Admission
  import opened RouteSystem

  // ---------------------------------------------------------------- keys in use

  /** The step creates a connection. */
  ghost predicate Creating(cfg: Config, s: System, e: Event) {
    e.AskShared? && s.progress.Unrouted? && e.accepted.Some? &&
    var d := s.progress.datagram;
    && IsLong(d.data) && SharedOwner(s.shared, d.data, d.from).None?
    && Creates(cfg, s, e.accepted.value, d.from, e.tokens, e.ts, e.setup)
  }

  ghost function DecisionIn(cfg: Config, s: System, e: Event): Decision
    requires Creating(cfg, s, e)
  {
    Decide(cfg, e.tokens, e.accepted.value, s.progress.datagram.from, e.ts)
  }

  ghost function NewKey(cfg: Config, s: System, e: Event): Key
    requires Creating(cfg, s, e)
  {
    KeyOf(DecisionIn(cfg, s, e), e.accepted.value, e.setup).value
  }

  /** The step creates a connection from a Retry token whose SCID is the key of an accepted connection. */
  ghost predicate ReusesKey(cfg: Config, s: System, e: Event) {
    Creating(cfg, s, e) && DecisionIn(cfg, s, e).retried && e.accepted.value.dcid in s.senders
  }

  /**
    A new connection gets a key in use only if it comes from a Retry token and the connection with
    that key has retired the ID, so that neither table leads to it any more.
   */
  lemma KeyInUse(cfg: Config, s: System, e: Event)
    requires Inv(cfg, s) && Enabled(cfg, s, e) && Creating(cfg, s, e)
    ensures var key := NewKey(cfg, s, e);
            && (key in s.conns + s.senders.Keys ==>
                  DecisionIn(cfg, s, e).retried && key == e.accepted.value.dcid && key !in s.own.cids && key !in s.shared.cids)
            && (ReusesKey(cfg, s, e) <==> key in s.senders)
  {
    var d, i := s.progress.datagram, e.accepted.value;
    if DecisionIn(cfg, s, e).retried {
      assert i.token.retry in e.tokens.retry && |i.dcid| == RetryScidLen(cfg);
      assert ServerOwner(s.own, d.data, d.from).None?;
    }
  }

  /** The step only removes held connections. */
  ghost predicate OnlyRemoves(s: System, t: System) {
    t.conns <= s.conns && t.shared == s.shared && t.senders == s.senders && t.handles == s.handles
  }

  lemma RemovalKeepsLive(s: System, t: System)
    requires Live(s) && OnlyRemoves(s, t)
    ensures Live(t)
  {
  }

  lemma CreationKeepsLive(s: System, t: System, key: Key)
    requires Live(s) && OnlyRemoves(s.(conns := s.conns + {key}), t) && t.conns == s.conns + {key}
    ensures Live(t) <==> key !in s.senders
  {
    assert RoutesLive(t);
    assert key in t.conns;
  }

  lemma ExistingOnlyRemoves(s: System, key: Key, io: ConnIo)
    ensures OnlyRemoves(s, Existing(s, key, io)) && OnlyRemoves(s, OnTimer(s, key, io))
  {
  }

  lemma LookOnlyRemoves(s: System, len: nat, hasToken: bool)
    requires s.progress.Unclaimed?
    ensures OnlyRemoves(s, Looked(s, len, hasToken))
  {
  }

  lemma {:induction false} RemoveAllOnlyRemoves(s: System, keys: seq<Key>)
    ensures OnlyRemoves(s, RemoveAll(s, keys))
  {
    if keys != [] {
      RemoveAllOnlyRemoves(s, keys[..|keys| - 1]);
    }
  }

  /** With live routes a delivery only appends to the owner's queue, unless that is full. */
  lemma DeliveryIsAppend(cfg: Config, s: System, key: Key, d: Datagram)
    requires Inv(cfg, s) && RoutesLive(s) && key in s.senders
    ensures Deliverable(s, key) && s.senders[key] in s.queues
    ensures var channel := s.senders[key];
            Delivered(s, key, d) == s.(queues := s.queues[channel :=
              if |s.queues[channel]| < MAX_QUEUED_DATAGRAMS then s.queues[channel] + [d] else s.queues[channel]])
  {
    var channel := s.senders[key];
    assert s.queues[channel := s.queues[channel]] == s.queues;
  }

  lemma SyncKeepsLive(s: System, channel: Channel)
    requires Live(s) && channel in s.handles && channel in s.pending
    ensures Live(SyncShared(s, channel))
  {
    var key, p := s.handles[channel], s.pending[channel];
    TablesKeepValues(s.shared, s.senders.Keys, key, p.issued);
    TablesKeepValues(Register(s.shared, key, p.issued), s.senders.Keys, key, p.retired);
  }

  lemma AfterIoKeepsLive(s: System, channel: Channel, io: ConnIo)
    requires Live(s) && channel in s.handles && channel in s.pending
    ensures Live(AfterIo(s, channel, io))
  {
    var t := Work(s, channel, io.issued, io.retired);
    RemovalKeepsLive(s, t);
    if io.error != Internal {
      SyncKeepsLive(t, channel);
    }
  }

  lemma DropKeepsLive(cfg: Config, s: System, channel: Channel)
    requires Shaped(s) && Live(s) && channel in s.handles
    ensures Live(Step(cfg, s, AcceptedDrop(channel)))
  {
    var key := s.handles[channel];
    var t := Step(cfg, s, AcceptedDrop(channel));
    TablesKeepValues(s.shared, s.senders.Keys, key, []);
    assert t.senders.Keys == s.senders.Keys - {key};
  }

  /** A second connection with a key in use shuts the first one out of the table of queues. */
  lemma UsedKeyBreaksRoutes(s: System, key: Key, channel: Channel, cids: seq<Cid>, addrs: seq<Addr>)
    requires RoutesLive(s) && channel !in s.handles && key in s.senders
    ensures !RoutesLive(TakeConnection(s, key, channel, cids, addrs))
  {
    var t := TakeConnection(s, key, channel, cids, addrs);
    assert t.handles[s.senders[key]] == key && t.senders[key] != s.senders[key];
  }

  lemma UnusedKeyKeepsRoutes(s: System, key: Key, channel: Channel, cids: seq<Cid>, addrs: seq<Addr>)
    requires RoutesLive(s) && channel !in s.handles && LengthsListed(s.shared) && key !in s.senders
    ensures RoutesLive(TakeConnection(s, key, channel, cids, addrs))
  {
    var t := TakeConnection(s, key, channel, cids, addrs);
    assert t.senders.Keys == s.senders.Keys + {key};
    SharedAfterKeepsValues(s.shared, s.senders.Keys, key, cids, addrs);
  }

  /** Unique keys are needed: taking a connection keeps all routes live exactly if its key is unused. */
  lemma TakeNeedsUnusedKey(s: System, key: Key, channel: Channel, cids: seq<Cid>, addrs: seq<Addr>)
    requires RoutesLive(s) && channel !in s.handles && LengthsListed(s.shared)
    ensures RoutesLive(TakeConnection(s, key, channel, cids, addrs)) <==> key !in s.senders
  {
    if key in s.senders {
      UsedKeyBreaksRoutes(s, key, channel, cids, addrs);
    } else {
      UnusedKeyKeepsRoutes(s, key, channel, cids, addrs);
    }
  }

  lemma OwnedKeepsLive(cfg: Config, s: System, e: Event)
    requires Inv(cfg, s) && Live(s) && e.AskShared? && Enabled(cfg, s, e)
    requires SharedOwner(s.shared, s.progress.datagram.data, s.progress.datagram.from).Some?
    ensures Live(Step(cfg, s, e)) && !Creating(cfg, s, e)
  {
    var d := s.progress.datagram;
    var owner := SharedOwner(s.shared, d.data, d.from).value;
    OwnerIsValue(s.shared, d.data, d.from, s.senders.Keys);
    DeliveryIsAppend(cfg, s.(progress := Idle), owner, d);
    RemovalKeepsLive(s, Step(cfg, s, e));
  }

  lemma NotCreatingOnlyRemoves(cfg: Config, s: System, e: Event)
    requires Shaped(s) && e.AskShared? && Enabled(cfg, s, e) && !Creating(cfg, s, e)
    requires SharedOwner(s.shared, s.progress.datagram.data, s.progress.datagram.from).None?
    ensures OnlyRemoves(s, Step(cfg, s, e))
  {
  }

  lemma NewConnectionOnlyAdds(cfg: Config, s: System, i: Initial, from: Addr, tokens: Issued, ts: nat, setup: Setup, key: Key)
    requires Creates(cfg, s, i, from, tokens, ts, setup) && KeyOf(Decide(cfg, tokens, i, from, ts), i, setup) == Some(key)
    ensures var t := NewConnection(cfg, s, i, from, tokens, ts, setup);
            t.conns == s.conns + {key} && OnlyRemoves(s.(conns := s.conns + {key}), t) && t.progress == s.progress
  {
  }

  lemma CreatingIsNewConnection(cfg: Config, s: System, e: Event)
    requires Shaped(s) && Enabled(cfg, s, e) && Creating(cfg, s, e)
    ensures Creates(cfg, s.(progress := Idle), e.accepted.value, s.progress.datagram.from, e.tokens, e.ts, e.setup)
    ensures Step(cfg, s, e)
            == NewConnection(cfg, s.(progress := Idle), e.accepted.value, s.progress.datagram.from, e.tokens, e.ts, e.setup)
  {
  }

  lemma CreatingOnlyAdds(cfg: Config, s: System, e: Event)
    requires Shaped(s) && Enabled(cfg, s, e) && Creating(cfg, s, e)
    ensures Step(cfg, s, e).conns == s.conns + {NewKey(cfg, s, e)}
    ensures OnlyRemoves(s.(conns := s.conns + {NewKey(cfg, s, e)}), Step(cfg, s, e))
    ensures Step(cfg, s, e).progress.Idle?
  {
    CreatingIsNewConnection(cfg, s, e);
    NewConnectionOnlyAdds(cfg, s.(progress := Idle), e.accepted.value, s.progress.datagram.from, e.tokens, e.ts, e.setup,
                          NewKey(cfg, s, e));
  }

  lemma AskSharedKeepsLive(cfg: Config, s: System, e: Event)
    requires Inv(cfg, s) && Live(s) && e.AskShared? && Enabled(cfg, s, e)
    ensures Live(Step(cfg, s, e)) <==> !ReusesKey(cfg, s, e)
  {
    if SharedOwner(s.shared, s.progress.datagram.data, s.progress.datagram.from).Some? {
      OwnedKeepsLive(cfg, s, e);
    } else if Creating(cfg, s, e) {
      KeyInUse(cfg, s, e);
      CreatingOnlyAdds(cfg, s, e);
      CreationKeepsLive(s, Step(cfg, s, e), NewKey(cfg, s, e));
    } else {
      NotCreatingOnlyRemoves(cfg, s, e);
      RemovalKeepsLive(s, Step(cfg, s, e));
    }
  }

  lemma TakeKeepsLive(cfg: Config, s: System, key: Key, channel: Channel, cids: seq<Cid>, addrs: seq<Addr>)
    requires Inv(cfg, s) && Live(s) && key in s.conns && channel !in s.handles
    ensures Live(TakeConnection(s, key, channel, cids, addrs))
  {
    UnusedKeyKeepsRoutes(s, key, channel, cids, addrs);
  }

  lemma PopKeepsLive(cfg: Config, s: System, channel: Channel, io: ConnIo)
    requires Inv(cfg, s) && Live(s) && Enabled(cfg, s, AcceptedPop(channel, io))
    ensures Live(Step(cfg, s, AcceptedPop(channel, io)))
  {
    var t := s.(queues := s.queues[channel := s.queues[channel][1..]]);
    RemovalKeepsLive(s, t);
    AfterIoKeepsLive(t, channel, io);
  }

  lemma ServerStepKeepsLive(cfg: Config, s: System, e: Event)
    requires Inv(cfg, s) && Live(s) && Enabled(cfg, s, e)
    requires e.Receive? || e.LookAt? || e.FinishReset? || e.Timer? || e.RemoveClosed?
    ensures Live(Step(cfg, s, e))
  {
    match e {
      case Receive(d, io) =>
        var owner := ServerOwner(s.own, d.data, d.from);
        if owner.Some? {
          ExistingOnlyRemoves(s, owner.value, io);
        }
      case LookAt(len, hasToken) => LookOnlyRemoves(s, len, hasToken);
      case FinishReset =>
      case Timer(key, io) => ExistingOnlyRemoves(s, key, io);
      case RemoveClosed(keys) => RemoveAllOnlyRemoves(s, keys);
    }
    RemovalKeepsLive(s, Step(cfg, s, e));
  }

  lemma ReadKeepsLive(cfg: Config, s: System, channel: Channel, d: Datagram, io: ConnIo)
    requires Inv(cfg, s) && Live(s) && channel in s.handles
    ensures Live(ReadByAccepted(s, channel, d, io))
  {
    OwnerIsValue(s.shared, d.data, d.from, s.senders.Keys);
    var owner := SharedOwner(s.shared, d.data, d.from);
    if owner.Some? && owner.value != s.handles[channel] {
      DeliveryIsAppend(cfg, s, owner.value, d);
    } else {
      AfterIoKeepsLive(s, channel, io);
    }
  }

  /** Every step keeps all routes live, with one exception, which does not: the reuse of a key. */
  lemma StepKeepsLive(cfg: Config, s: System, e: Event)
    requires Inv(cfg, s) && Live(s) && Enabled(cfg, s, e)
    ensures Live(Step(cfg, s, e)) <==> !ReusesKey(cfg, s, e)
  {
    match e
    case AskShared(_, _, _, _) => AskSharedKeepsLive(cfg, s, e);
    case Take(key, channel, cids, addrs) => TakeKeepsLive(cfg, s, key, channel, cids, addrs);
    case AcceptedRead(channel, d, io) => ReadKeepsLive(cfg, s, channel, d, io);
    case AcceptedWork(_, _, _) => RemovalKeepsLive(s, Step(cfg, s, e));
    case AcceptedSync(channel) => SyncKeepsLive(s, channel);
    case AcceptedPop(channel, io) => PopKeepsLive(cfg, s, channel, io);
    case AcceptedDrop(channel) => DropKeepsLive(cfg, s, channel);
    case _ => ServerStepKeepsLive(cfg, s, e);
  }

  /** No step of the run reuses a key. */
  ghost predicate NeverReuses(cfg: Config, s: System, es: seq<Event>)
    decreases |es|
  {
    es != [] ==>
      Shaped(s) && Enabled(cfg, s, es[0]) && !ReusesKey(cfg, s, es[0]) && NeverReuses(cfg, Step(cfg, s, es[0]), es[1..])
  }

  lemma {:induction false} RunsKeepLive(cfg: Config, s: System, es: seq<Event>, t: System)
    requires Inv(cfg, s) && Live(s) && Reaches(cfg, s, es, t) && NeverReuses(cfg, s, es)
    ensures Live(t)
    decreases |es|
  {
    if es != [] {
      StepKeepsInv(cfg, s, es[0]);
      StepKeepsLive(cfg, s, es[0]);
      RunsKeepLive(cfg, Step(cfg, s, es[0]), es[1..], t);
    }
  }

  /** Reached by a run in which every connection has a key of its own. */
  ghost predicate ReachableUnique(cfg: Config, t: System) {
    exists es :: Reaches(cfg, Bound(cfg), es, t) && NeverReuses(cfg, Bound(cfg), es)
  }

  lemma ReachableLive(cfg: Config, t: System)
    requires ReachableUnique(cfg, t)
    ensures Reachable(cfg, t) && Inv(cfg, t) && Live(t)
  {
    var es :| Reaches(cfg, Bound(cfg), es, t) && NeverReuses(cfg, Bound(cfg), es);
    RunsKeepInv(cfg, Bound(cfg), es, t);
    RunsKeepLive(cfg, Bound(cfg), es, t);
  }

  // ---------------------------------------------------------------- theorems over whole runs

  /** The shared table too routes only to live connections, if every connection has a key of its own. */
  lemma SharedRoutesLive(cfg: Config, t: System)
    requires ReachableUnique(cfg, t)
    ensures RoutesLive(t) && t.conns !! t.senders.Keys
  {
    ReachableLive(cfg, t);
  }

  /**
    In every interleaving that does not reuse a key, whatever the shared table resolves to has an
    open queue: `deliver` never reports a closed route, and the clean-up after it is never reached.
   */
  lemma DeliveryNeverFails(cfg: Config, t: System, data: seq<byte>, from: Addr)
    requires ReachableUnique(cfg, t)
    requires SharedOwner(t.shared, data, from).Some?
    ensures Deliverable(t, SharedOwner(t.shared, data, from).value)
  {
    ReachableLive(cfg, t);
    OwnerIsValue(t.shared, data, from, t.senders.Keys);
  }

  /**
    Whoever reads a datagram of an accepted connection, its owner gets it: it is appended to the
    owner's queue, unless the reader is the owner or the queue is full, and nothing else changes.
   */
  lemma ReadReachesOwner(cfg: Config, t: System, reader: Channel, d: Datagram, io: ConnIo, owner: Key)
    requires ReachableUnique(cfg, t) && Shaped(t)
    requires reader in t.handles && t.handles[reader] != owner
    requires SharedOwner(t.shared, d.data, d.from) == Some(owner)
    ensures owner in t.senders && t.senders[owner] in t.handles && t.handles[t.senders[owner]] == owner
    ensures var channel := t.senders[owner];
            Step(cfg, t, AcceptedRead(reader, d, io)) == t.(queues := t.queues[channel :=
              if |t.queues[channel]| < MAX_QUEUED_DATAGRAMS then t.queues[channel] + [d] else t.queues[channel]])
  {
    ReachableLive(cfg, t);
    OwnerIsValue(t.shared, d.data, d.from, t.senders.Keys);
    DeliveryIsAppend(cfg, t, owner, d);
  }

  /** The same when the server itself has read the datagram and does not know it. */
  lemma HandOffReachesOwner(cfg: Config, t: System, e: Event, owner: Key)
    requires ReachableUnique(cfg, t) && Shaped(t) && e.AskShared? && Enabled(cfg, t, e)
    requires SharedOwner(t.shared, t.progress.datagram.data, t.progress.datagram.from) == Some(owner)
    ensures owner in t.senders && t.senders[owner] in t.handles && t.handles[t.senders[owner]] == owner
    ensures var channel, d := t.senders[owner], t.progress.datagram;
            Step(cfg, t, e) == t.(progress := Idle, queues := t.queues[channel :=
              if |t.queues[channel]| < MAX_QUEUED_DATAGRAMS then t.queues[channel] + [d] else t.queues[channel]])
  {
    ReachableLive(cfg, t);
    var d := t.progress.datagram;
    OwnerIsValue(t.shared, d.data, d.from, t.senders.Keys);
    DeliveryIsAppend(cfg, t.(progress := Idle), owner, d);
  }

  /** The client of the accepted connection may use this ID: it was issued, registered or not, and not retired. */
  ghost predicate HasId(s: System, channel: Channel, c: Cid) {
    channel in s.handles && channel in s.pending && c !in s.pending[channel].retired
    && (c in s.pending[channel].issued || (c in s.shared.cids && s.shared.cids[c] == s.handles[channel]))
  }

  /** The connection has announced the ID, its client has not retired it, and it is not registered. */
  ghost predicate Announced(s: System, channel: Channel, c: Cid) {
    channel in s.pending && c in s.pending[channel].issued && c !in s.pending[channel].retired
  }

  /** The connection registered the ID after the shared table was asked, and its client has not retired it. */
  ghost predicate RegisteredSince(s: System, channel: Channel, c: Cid)
    requires s.progress.Answering?
  {
    channel in s.handles && channel in s.pending && c !in s.pending[channel].retired
    && c in s.progress.since && c in s.shared.cids && s.shared.cids[c] == s.handles[channel]
  }

  /**
    A reset hits a live connection, whose client may use the ID, exactly through one of two windows;
    and whatever was registered since then does belong to a live connection.
   */
  lemma ResetHitsLive(cfg: Config, t: System)
    requires ReachableUnique(cfg, t) && t.progress.Answering?
    ensures var c := t.progress.target;
            && (forall channel :: HasId(t, channel, c) <==> Announced(t, channel, c) || RegisteredSince(t, channel, c))
            && (c in t.progress.since ==> c in t.shared.cids && Deliverable(t, t.shared.cids[c]))
  {
    ReachableLive(cfg, t);
    ResetSafety(cfg, t);
  }

  // ---------------------------------------------------------------- what the reuse of a key leads to

  lemma {:induction false} ElementsListed<T>(s: set<T>) returns (l: seq<T>)
    ensures forall x :: x in l <==> x in s
    decreases |s|
  {
    l := [];
    if s != {} {
      var x :| x in s;
      l := ElementsListed(s - {x});
      l := l + [x];
    }
  }

  lemma UnusedChannel(s: System) returns (channel: Channel)
    ensures channel !in s.handles
  {
    if s.handles.Keys == {} {
      channel := 0;
    } else {
      HasGreatest(s.handles.Keys);
      var top :| top in s.handles.Keys && forall x :: x in s.handles.Keys ==> x <= top;
      channel := top + 1;
    }
  }

  /** With two handles for one key, dropping the first cuts the second off from every ID it is issued. */
  lemma DropCutsOff(cfg: Config, s: System, first: Channel, second: Channel, c: Cid, data: seq<byte>, from: Addr)
      returns (dropped: System, worked: System, synced: System)
    requires Shaped(s) && first in s.handles && second in s.handles && first != second
    requires s.handles[first] == s.handles[second] && s.pending[second] == Pending([], [])
    requires Names(data, c)
    ensures Steps(cfg, s, AcceptedDrop(first), dropped)
    ensures Steps(cfg, dropped, AcceptedWork(second, [c], []), worked)
    ensures Steps(cfg, worked, AcceptedSync(second), synced)
    ensures SharedOwner(synced.shared, data, from) == Some(s.handles[first]) && !Deliverable(synced, s.handles[first])
  {
    dropped := Step(cfg, s, AcceptedDrop(first));
    worked := Step(cfg, dropped, AcceptedWork(second, [c], []));
    synced := Step(cfg, worked, AcceptedSync(second));
    assert worked.pending[second] == Pending([c], []);
    assert c in synced.shared.cids && synced.shared.cids[c] == s.handles[first];
  }

  lemma CutOffRun(cfg: Config, s: System, first: Channel, second: Channel, c: Cid, data: seq<byte>, from: Addr)
      returns (es: seq<Event>, t: System)
    requires Shaped(s) && first in s.handles && second in s.handles && first != second
    requires s.handles[first] == s.handles[second] && s.pending[second] == Pending([], [])
    requires Names(data, c)
    ensures Reaches(cfg, s, es, t) && forall i :: 0 <= i < |es| ==> !es[i].AskShared?
    ensures SharedOwner(t.shared, data, from) == Some(s.handles[first]) && !Deliverable(t, s.handles[first])
  {
    var dropped, worked, synced := DropCutsOff(cfg, s, first, second, c, data, from);
    es := ThreeSteps(cfg, s, AcceptedDrop(first), dropped, AcceptedWork(second, [c], []), worked, AcceptedSync(second), synced);
    t := synced;
  }

  lemma ThreeSteps(cfg: Config, s0: System, e1: Event, s1: System, e2: Event, s2: System, e3: Event, s3: System)
      returns (es: seq<Event>)
    requires Steps(cfg, s0, e1, s1) && Steps(cfg, s1, e2, s2) && Steps(cfg, s2, e3, s3)
    ensures es == [e1, e2, e3] && Reaches(cfg, s0, es, s3)
  {
    OneStep(cfg, s2, e3, s3);
    es := FirstStep(cfg, s1, e2, s2, [e3], s3);
    es := FirstStep(cfg, s0, e1, s1, es, s3);
  }

  /**
    The exception matters: whenever a step reuses a key, the run can go on to a state in which the
    shared table resolves to a connection without a queue, for any ID that connection is issued and
    any long header that names it.
   */
  lemma ReuseBreaksDelivery(cfg: Config, s: System, e: Event, c: Cid, data: seq<byte>, from: Addr)
      returns (created: System, es: seq<Event>, t: System)
    requires Inv(cfg, s) && Live(s) && Enabled(cfg, s, e) && ReusesKey(cfg, s, e)
    requires Names(data, c)
    ensures Steps(cfg, s, e, created) && Reaches(cfg, created, es, t)
    ensures forall i :: 0 <= i < |es| ==> !es[i].AskShared?
    ensures SharedOwner(t.shared, data, from) == Some(e.accepted.value.dcid) && !Deliverable(t, e.accepted.value.dcid)
  {
    var take, taken, first, second;
    created, take, taken, first, second := TakeReused(cfg, s, e);
    es, t := TakeAndCutOff(cfg, created, take, taken, first, second, c, data, from);
  }

  lemma TakeAndCutOff(cfg: Config, s: System, take: Event, taken: System, first: Channel, second: Channel,
                      c: Cid, data: seq<byte>, from: Addr)
      returns (es: seq<Event>, t: System)
    requires take.Take? && Steps(cfg, s, take, taken)
    requires Shaped(taken) && first in taken.handles && second in taken.handles && first != second
    requires taken.handles[first] == taken.handles[second] && taken.pending[second] == Pending([], [])
    requires Names(data, c)
    ensures Reaches(cfg, s, es, t) && forall i :: 0 <= i < |es| ==> !es[i].AskShared?
    ensures SharedOwner(t.shared, data, from) == Some(taken.handles[first]) && !Deliverable(t, taken.handles[first])
  {
    es, t := CutOffRun(cfg, taken, first, second, c, data, from);
    es := FirstStep(cfg, s, take, taken, es, t);
  }

  lemma OneStep(cfg: Config, s: System, e: Event, t: System)
    requires Steps(cfg, s, e, t)
    ensures Reaches(cfg, s, [e], t)
  {
    assert Reaches(cfg, t, [e][1..], t);
  }

  lemma FirstStep(cfg: Config, s: System, e: Event, t: System, es: seq<Event>, u: System) returns (all: seq<Event>)
    requires Steps(cfg, s, e, t) && Reaches(cfg, t, es, u)
    ensures all == [e] + es && Reaches(cfg, s, all, u)
  {
    all := [e] + es;
    assert all[1..] == es;
  }

  /** The reusing step and the hand-over of the second connection give two handles for the key. */
  lemma TakeReused(cfg: Config, s: System, e: Event)
      returns (created: System, take: Event, taken: System, first: Channel, second: Channel)
    requires Inv(cfg, s) && Live(s) && Enabled(cfg, s, e) && ReusesKey(cfg, s, e)
    ensures Steps(cfg, s, e, created) && take.Take? && Steps(cfg, created, take, taken) && Shaped(taken)
    ensures first != second && first in taken.handles && second in taken.handles
    ensures taken.handles[first] == taken.handles[second] == e.accepted.value.dcid
    ensures taken.pending[second] == Pending([], [])
  {
    created, first := Step(cfg, s, e), s.senders[e.accepted.value.dcid];
    CreatingOnlyAdds(cfg, s, e);
    ReusedKey(cfg, s, e);
    StepKeepsInv(cfg, s, e);
    take, second := TakeSecond(cfg, created, e.accepted.value.dcid);
    taken := Step(cfg, created, take);
  }

  lemma ReusedKey(cfg: Config, s: System, e: Event)
    requires Inv(cfg, s) && Enabled(cfg, s, e) && ReusesKey(cfg, s, e)
    ensures NewKey(cfg, s, e) == e.accepted.value.dcid
  {
    assert e.accepted.value.token.retry in e.tokens.retry;
  }

  /** Taking a held connection is always possible; the new handle has a channel of its own. */
  lemma TakeSecond(cfg: Config, s: System, key: Key) returns (take: Event, channel: Channel)
    requires Shaped(s) && s.progress.Idle? && key in s.conns
    ensures take.Take? && Enabled(cfg, s, take) && channel !in s.handles
    ensures Step(cfg, s, take).handles == s.handles[channel := key]
    ensures Step(cfg, s, take).pending == s.pending[channel := Pending([], [])]
  {
    channel := UnusedChannel(s);
    var cids := ElementsListed(CidsOf(s.own, key));
    var addrs := ElementsListed(AddrsOf(s.own, key));
    take := Take(key, channel, cids, addrs);
  }
}

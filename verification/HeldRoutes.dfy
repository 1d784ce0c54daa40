/**
  What each step of the server and of an accepted connection does to the routing tables, exactly,
  and where the datagrams that follow it go.
 */
module HeldRoutes {
  import opened Octets
  import opened Resolve
  import opened RouteTable
  import opened TakenCids
  import opened HandOff
  import opened Admission
  import opened RouteSystem
  import opened LiveRoutes

  // ---------------------------------------------------------------- connections the server holds

  /** After a datagram the connection is still held exactly if its error does not end it, or its closing packet was written. */
  lemma HeldAfterDatagram(s: System, key: Key, io: ConnIo)
    requires key in s.conns
    ensures key in Existing(s, key, io).conns
            <==> io.error in {NoError, Ignore, Terminal} || (io.error in {TransportClose, ApplicationClose} && io.closeWritten)
    ensures forall other :: other != key ==> (other in Existing(s, key, io).conns <==> other in s.conns)
  {
  }

  /** After a timer no closing packet is written, and only errors that can be ignored or are final already keep it. */
  lemma HeldAfterTimer(s: System, key: Key, io: ConnIo)
    requires key in s.conns
    ensures key in OnTimer(s, key, io).conns <==> io.error in {NoError, Ignore, Terminal}
    ensures forall other :: other != key ==> (other in OnTimer(s, key, io).conns <==> other in s.conns)
  {
  }

  /** The table `after` is `before` with what ngtcp2 issued and retired on the connection. */
  ghost predicate Synced(before: Table, after: Table, key: Key, io: ConnIo) {
    && (forall c :: c in after.cids && after.cids[c] == key
          <==> c !in io.retired && (c in io.issued || (c in before.cids && before.cids[c] == key)))
    && (forall c :: c in before.cids && before.cids[c] != key && c !in io.issued ==> c in after.cids && after.cids[c] == before.cids[c])
    && (forall c :: c in after.cids && after.cids[c] != key ==> c in before.cids && before.cids[c] == after.cids[c])
    && (forall l :: l in after.lens <==> l in before.lens || exists c :: c in io.issued && |c| == l)
    && after.addrs == before.addrs
  }

  /** No ID and no address leads to the connection; what led to others and was not issued again still does. */
  ghost predicate Gone(before: Table, after: Table, key: Key, io: ConnIo) {
    && CidsOf(after, key) == {} && AddrsOf(after, key) == {}
    && (forall c :: c in before.cids && before.cids[c] != key && c !in io.issued ==> c in after.cids && after.cids[c] == before.cids[c])
    && (forall a :: a in before.addrs && before.addrs[a] != key ==> a in after.addrs && after.addrs[a] == before.addrs[a])
  }

  lemma SyncOwnIsExact(s: System, key: Key, io: ConnIo)
    ensures Synced(s.own, SyncOwn(s, key, io).own, key, io)
  {
    var after := SyncOwn(s, key, io).own;
    forall l ensures l in after.lens <==> l in s.own.lens || exists c :: c in io.issued && |c| == l {
    }
  }

  lemma RemovedIsGone(s: System, key: Key, io: ConnIo)
    ensures Gone(s.own, Forget(SyncOwn(s, key, io).own, key), key, io)
  {
    SyncOwnIsExact(s, key, io);
  }

  /**
    What a datagram for a held connection does: while the connection is held, its IDs are those it
    had and those issued, less the retired; otherwise nothing leads to it. Retired IDs are remembered.
   */
  lemma ExistingIsExact(s: System, key: Key, io: ConnIo)
    requires key in s.conns
    ensures var t := Existing(s, key, io);
            && (if key in t.conns then Synced(s.own, t.own, key, io) else Gone(s.own, t.own, key, io))
            && t.ownTaken == RememberAll(s.ownTaken, io.retired)
            && t == s.(conns := t.conns, own := t.own, ownTaken := t.ownTaken)
  {
    SyncOwnIsExact(s, key, io);
    RemovedIsGone(s, key, io);
  }

  /** The same for its turn in `handle_timers`. */
  lemma TimerIsExact(s: System, key: Key, io: ConnIo)
    requires key in s.conns
    ensures var t := OnTimer(s, key, io);
            && (if key in t.conns then Synced(s.own, t.own, key, io) else Gone(s.own, t.own, key, io))
            && t.ownTaken == RememberAll(s.ownTaken, io.retired)
            && t == s.(conns := t.conns, own := t.own, ownTaken := t.ownTaken)
  {
    SyncOwnIsExact(s, key, io);
    RemovedIsGone(s, key, io);
  }

  /** What `handle_datagram` does first: a datagram for a held connection goes to it, any other is to be asked about. */
  lemma ReceiveIsExact(cfg: Config, t: System, d: Datagram, io: ConnIo)
    requires Reachable(cfg, t) && t.progress.Idle?
    ensures Shaped(t)
    ensures var u, owner := Step(cfg, t, Receive(d, io)), ServerOwner(t.own, d.data, d.from);
            if owner.None? then u == t.(progress := Unrouted(d))
            else && owner.value in t.conns
                 && (if owner.value in u.conns then Synced(t.own, u.own, owner.value, io) else Gone(t.own, u.own, owner.value, io))
                 && u.ownTaken == RememberAll(t.ownTaken, io.retired)
                 && u == t.(conns := u.conns, own := u.own, ownTaken := u.ownTaken)
  {
    ReachableInv(cfg, t);
    OwnerIsValue(t.own, d.data, d.from, t.conns);
    var owner := ServerOwner(t.own, d.data, d.from);
    if owner.Some? {
      ExistingIsExact(t, owner.value, io);
    }
  }

  /** A timer step does the same for the connection whose turn it is. */
  lemma TimerStepIsExact(cfg: Config, t: System, key: Key, io: ConnIo)
    requires Reachable(cfg, t) && t.progress.Idle?
    ensures Shaped(t)
    ensures var u := Step(cfg, t, Timer(key, io));
            if key !in t.conns then u == t
            else && (if key in u.conns then Synced(t.own, u.own, key, io) else Gone(t.own, u.own, key, io))
                 && u.ownTaken == RememberAll(t.ownTaken, io.retired)
                 && u == t.(conns := u.conns, own := u.own, ownTaken := u.ownTaken)
  {
    ReachableInv(cfg, t);
    if key in t.conns {
      TimerIsExact(t, key, io);
    }
  }

  /** A key that is not held changes nothing. */
  lemma UnknownKeyChangesNothing(s: System, key: Key, io: ConnIo)
    requires key !in s.conns
    ensures Existing(s, key, io) == s && OnTimer(s, key, io) == s
  {
  }

  /** The packet is for this ID: a long header that names it, or a short one it starts and no longer listed ID does. */
  ghost predicate Addressed(t: Table, data: seq<byte>, c: Cid) {
    Names(data, c)
    || (data != [] && !IsLong(data) && StartsWith(data, c) && forall l: nat :: MatchesAt(t.cids, t.lens, data, l) ==> l <= |c|)
  }

  lemma AddressedIsFound(t: Table, data: seq<byte>, c: Cid, from: Addr)
    requires c in t.cids && |c| in t.lens && Addressed(t, data, c)
    ensures ServerOwner(t, data, from) == SharedOwner(t, data, from) == Some(t.cids[c])
  {
    if !IsLong(data) {
      ResolvesTo(t.cids, t.lens, data, |c|);
    }
  }

  /** Packets to an ID issued while a datagram or a timer was handled are found at once. */
  lemma IssuedIsFound(s: System, key: Key, io: ConnIo, c: Cid, data: seq<byte>, from: Addr)
    requires key in s.conns && c in io.issued && c !in io.retired
    ensures key in Existing(s, key, io).conns && Addressed(Existing(s, key, io).own, data, c)
            ==> ServerOwner(Existing(s, key, io).own, data, from) == Some(key)
    ensures key in OnTimer(s, key, io).conns && Addressed(OnTimer(s, key, io).own, data, c)
            ==> ServerOwner(OnTimer(s, key, io).own, data, from) == Some(key)
  {
    ExistingIsExact(s, key, io);
    TimerIsExact(s, key, io);
    var t, u := Existing(s, key, io).own, OnTimer(s, key, io).own;
    if key in Existing(s, key, io).conns && Addressed(t, data, c) {
      AddressedIsFound(t, data, c, from);
    }
    if key in OnTimer(s, key, io).conns && Addressed(u, data, c) {
      AddressedIsFound(u, data, c, from);
    }
  }

  /** Removing closed connections removes those and every route to them, and nothing of the others. */
  lemma {:induction false} RemoveAllIsExact(s: System, keys: seq<Key>)
    ensures var t := RemoveAll(s, keys);
            && (forall k :: k in t.conns <==> k in s.conns && k !in keys)
            && (forall c :: c in t.own.cids <==> c in s.own.cids && s.own.cids[c] !in keys)
            && (forall c :: c in t.own.cids ==> t.own.cids[c] == s.own.cids[c])
            && (forall a :: a in t.own.addrs <==> a in s.own.addrs && s.own.addrs[a] !in keys)
            && (forall a :: a in t.own.addrs ==> t.own.addrs[a] == s.own.addrs[a])
            && t == s.(conns := t.conns, own := t.own)
  {
    if keys != [] {
      var n := |keys| - 1;
      RemoveAllIsExact(s, keys[..n]);
      assert forall k :: k in keys <==> k in keys[..n] || k == keys[n];
    }
  }

  /** So does the step that does it. */
  lemma RemoveClosedIsExact(cfg: Config, s: System, keys: seq<Key>)
    requires Shaped(s) && s.progress.Idle?
    ensures var t := Step(cfg, s, RemoveClosed(keys));
            && (forall k :: k in t.conns <==> k in s.conns && k !in keys)
            && (forall c :: c in t.own.cids <==> c in s.own.cids && s.own.cids[c] !in keys)
            && (forall a :: a in t.own.addrs <==> a in s.own.addrs && s.own.addrs[a] !in keys)
  {
    RemoveAllIsExact(s, keys);
  }

  // ---------------------------------------------------------------- a new connection

  /** The lengths and addresses `handle_new_connection` adds; RouteSystem.AddRoutesMaps has the IDs. */
  lemma AddRoutesLengths(t: Table, scid: Cid, key: Key, from: Addr, originalDcid: Cid, preferred: Option<Cid>, issued: seq<Cid>, l: nat)
    ensures l in AddRoutes(t, scid, key, from, originalDcid, preferred, issued).lens
            <==> l in t.lens || (scid != [] && (l == |scid| || (preferred.Some? && l == |preferred.value|)))
                 || exists c :: c in issued && |c| == l
  {
    if scid != [] && preferred.Some? {
      assert preferred.value in [preferred.value];
    }
  }

  lemma AddRoutesAddresses(t: Table, scid: Cid, key: Key, from: Addr, originalDcid: Cid, preferred: Option<Cid>, issued: seq<Cid>)
    ensures AddRoutes(t, scid, key, from, originalDcid, preferred, issued).addrs
            == if scid == key then t.addrs else t.addrs[from := key]
  {
  }

  /** A connection is created exactly if nothing stands in the way, and otherwise the state does not change. */
  lemma CreatedExactly(cfg: Config, s: System, i: Initial, from: Addr, tokens: Issued, ts: nat, setup: Setup)
    requires Decide(cfg, tokens, i, from, ts).Admit? && KeyOf(Decide(cfg, tokens, i, from, ts), i, setup).Some?
    requires KeyOf(Decide(cfg, tokens, i, from, ts), i, setup).value !in s.conns
    ensures var d := Decide(cfg, tokens, i, from, ts);
            var t := NewConnection(cfg, s, i, from, tokens, ts, setup);
            && (KeyOf(d, i, setup).value in t.conns
                <==> |s.conns| < 1024 && (d.validated || d.originalDcid !in s.own.cids)
                     && setup.sessionOk && setup.connectionOk && !setup.retryRequired && setup.error in {NoError, Ignore})
            && (KeyOf(d, i, setup).value !in t.conns ==> t == s)
  {
  }

  /** In runs a tokenless Initial for a known original DCID never gets that far: it resolves to its connection. */
  lemma DuplicateIsResolved(cfg: Config, t: System, e: Event)
    requires Reachable(cfg, t) && e.AskShared? && Enabled(cfg, t, e) && e.accepted.Some? && IsLong(t.progress.datagram.data)
    requires e.accepted.value.token.NoToken?
    ensures e.accepted.value.dcid !in t.own.cids
  {
    ReachableInv(cfg, t);
  }

  /** The new connection is found by every packet to its SCID, its preferred-address ID or an ID it was issued. */
  lemma NewIdsAreFound(cfg: Config, s: System, i: Initial, from: Addr, tokens: Issued, ts: nat, setup: Setup, c: Cid, data: seq<byte>, sender: Addr)
    requires Creates(cfg, s, i, from, tokens, ts, setup)
    requires var d := Decide(cfg, tokens, i, from, ts);
             var scid := ServerScid(d, i, setup.scid).value;
             c in setup.issued || (scid != [] && (c == scid || setup.preferred == Some(c)))
    requires Addressed(NewConnection(cfg, s, i, from, tokens, ts, setup).own, data, c)
    ensures ServerOwner(NewConnection(cfg, s, i, from, tokens, ts, setup).own, data, sender)
            == KeyOf(Decide(cfg, tokens, i, from, ts), i, setup)
  {
    var d := Decide(cfg, tokens, i, from, ts);
    var scid, key := ServerScid(d, i, setup.scid).value, KeyOf(d, i, setup).value;
    AddRoutesMaps(s.own, scid, key, from, d.originalDcid, setup.preferred, setup.issued, c);
    AddRoutesLengths(s.own, scid, key, from, d.originalDcid, setup.preferred, setup.issued, |c|);
    AddressedIsFound(NewConnection(cfg, s, i, from, tokens, ts, setup).own, data, c, sender);
  }

  // ---------------------------------------------------------------- zero-length connection IDs

  /**
    A connection with a zero-length SCID is found by every packet from its client's address that
    carries no ID, unless an ID happens to resolve the packet.
   */
  lemma NewAddressIsFound(cfg: Config, s: System, i: Initial, from: Addr, tokens: Issued, ts: nat, setup: Setup, data: seq<byte>)
    requires Creates(cfg, s, i, from, tokens, ts, setup)
    requires ServerScid(Decide(cfg, tokens, i, from, ts), i, setup.scid) == Some([])
    requires KeyOf(Decide(cfg, tokens, i, from, ts), i, setup) != Some([])
    requires CarriesNoId(data)
    ensures var t, key := NewConnection(cfg, s, i, from, tokens, ts, setup).own, KeyOf(Decide(cfg, tokens, i, from, ts), i, setup);
            ServerOwner(t, data, from)
            == if ResolveDcid(t.cids, t.lens, data).Some? then ResolveDcid(t.cids, t.lens, data) else key
  {
    var d := Decide(cfg, tokens, i, from, ts);
    var t := NewConnection(cfg, s, i, from, tokens, ts, setup).own;
    AddRoutesAddresses(s.own, [], KeyOf(d, i, setup).value, from, d.originalDcid, setup.preferred, setup.issued);
    if ResolveDcid(t.cids, t.lens, data).None? {
      ServerOwnerByAddress(t, data, from);
    }
  }

  /** In every run of a server with zero-length SCIDs, the client that just connected is found by its address. */
  lemma NewClientIsFound(cfg: Config, t: System, e: Event, data: seq<byte>)
    requires Reachable(cfg, t) && Enabled(cfg, t, e) && Creating(cfg, t, e)
    requires cfg.scidLen == 0 && !DecisionIn(cfg, t, e).retried && CarriesNoId(data)
    ensures Shaped(t)
    ensures var u := Step(cfg, t, e);
            ResolveDcid(u.own.cids, u.own.lens, data).None? ==>
              ServerOwner(u.own, data, t.progress.datagram.from) == Some(NewKey(cfg, t, e))
  {
    ReachableInv(cfg, t);
    CreatingIsNewConnection(cfg, t, e);
    NewAddressIsFound(cfg, t.(progress := Idle), e.accepted.value, t.progress.datagram.from, e.tokens, e.ts, e.setup, data);
  }

  /** A long header with an ID of its own is never resolved by address, so a returning Initial can create its connection. */
  lemma UnknownIdIsUnresolved(t: Table, data: seq<byte>, from: Addr)
    requires IsLong(data) && !CarriesNoId(data)
    requires LongDcid(data).None? || LongDcid(data).value !in t.cids
    ensures ServerOwner(t, data, from).None?
  {
  }

  lemma TakenTableResolves(own: Table, shared: Table, key: Key, cids: seq<Cid>, addrs: seq<Addr>, data: seq<byte>)
    requires Collected(own, key, cids, addrs) && LengthsListed(shared)
    requires ResolveDcid(shared.cids, shared.lens, data).None?
    ensures var after := SharedAfter(shared, key, cids, addrs);
            ResolveDcid(after.cids, after.lens, data).None? || ResolveDcid(after.cids, after.lens, data) == Some(key)
  {
    var after := SharedAfter(shared, key, cids, addrs);
    if data != [] && !IsLong(data) {
      var top := LongestUpTo(after.cids, after.lens, data, MAX_CID_LEN);
      if top.Some? {
        SharedMatches(own, shared, key, cids, addrs, data, top.value);
      }
    }
  }

  /**
    Hand-off of address routes, in every reachable state: a datagram that the server resolved by
    address is, once the connection is taken, unresolved there, and resolved to the connection by
    the shared table and deliverable, unless an ID of another accepted connection claims it.
   */
  lemma HandOffKeepsAddressed(cfg: Config, t: System, e: Event, data: seq<byte>, from: Addr)
    requires Reachable(cfg, t) && Shaped(t) && e.Take? && Enabled(cfg, t, e)
    requires ServerOwner(t.own, data, from) == Some(e.taken) && ResolveDcid(t.own.cids, t.own.lens, data).None?
    ensures var u := Step(cfg, t, e);
            && ServerOwner(u.own, data, from).None?
            && (ResolveDcid(t.shared.cids, t.shared.lens, data).None? ==> SharedOwner(u.shared, data, from) == Some(e.taken))
            && Deliverable(u, e.taken)
  {
    ReachableInv(cfg, t);
    var u := Step(cfg, t, e);
    FewerIdsResolveLess(u.own, t.own, data);
    assert from in AddrsOf(t.own, e.taken);
    if ResolveDcid(t.shared.cids, t.shared.lens, data).None? {
      TakenTableResolves(t.own, t.shared, e.taken, e.cids, e.addrs, data);
    }
  }

  // ---------------------------------------------------------------- hand-over and accepted connections

  /** The accepted connection with this channel is as it was. */
  ghost predicate SameHandle(s: System, t: System, ch: Channel) {
    && ch in s.handles && ch in t.handles && t.handles[ch] == s.handles[ch]
    && ch in s.queues && ch in t.queues && t.queues[ch] == s.queues[ch]
    && ch in s.pending && ch in t.pending && t.pending[ch] == s.pending[ch]
  }

  /** A connection is handed over with an empty queue and nothing pending; its IDs are remembered, others are left alone. */
  lemma TakeIsExact(cfg: Config, s: System, e: Event)
    requires Shaped(s) && e.Take? && Enabled(cfg, s, e)
    ensures var t := Step(cfg, s, e);
            && e.channel in t.queues && t.queues[e.channel] == [] && t.pending[e.channel] == Pending([], [])
            && e.taken in t.senders && t.senders[e.taken] == e.channel && t.handles[e.channel] == e.taken
            && (forall ch :: ch in s.handles ==> SameHandle(s, t, ch))
            && (forall k :: k in t.conns <==> k in s.conns && k != e.taken)
            && CidsOf(t.own, e.taken) == {} && AddrsOf(t.own, e.taken) == {}
            && t.ownTaken == RememberAll(s.ownTaken, e.cids) && t.sharedTaken == s.sharedTaken
  {
  }

  /** With room in the memory, every ID of a connection that is handed over is remembered. */
  lemma TakenIdsAreRemembered(cfg: Config, t: System, e: Event, c: Cid)
    requires Reachable(cfg, t) && Shaped(t) && e.Take? && Enabled(cfg, t, e)
    requires c in t.own.cids && t.own.cids[c] == e.taken && |t.ownTaken.order| + |e.cids| <= 8192
    ensures c in Step(cfg, t, e).ownTaken.cids
  {
    ReachableInv(cfg, t);
    RemembersAll(t.ownTaken, e.cids);
    assert c in CidsOf(t.own, e.taken);
  }

  /**
    Whatever ngtcp2 does on an accepted connection is in the shared table right after the call,
    unless the call ends in an internal error: then it is all still pending.
   */
  lemma AfterIoIsExact(s: System, channel: Channel, io: ConnIo)
    requires channel in s.handles && channel in s.pending
    ensures var p, t := s.pending[channel], AfterIo(s, channel, io);
            if io.error == Internal
            then t == s.(pending := s.pending[channel := Pending(p.issued + io.issued, p.retired + io.retired)])
            else && Synced(s.shared, t.shared, s.handles[channel], ConnIo(p.issued + io.issued, p.retired + io.retired, NoError, false))
                 && t.pending == s.pending[channel := Pending([], [])]
                 && t.sharedTaken == RememberAll(s.sharedTaken, p.retired + io.retired)
                 && t.handles == s.handles && t.queues == s.queues && t.senders == s.senders
  {
    var p := s.pending[channel];
    var all := ConnIo(p.issued + io.issued, p.retired + io.retired, NoError, false);
    RegisterThenRetire(s.shared, s.handles[channel], all);
  }

  lemma RegisterThenRetire(t: Table, key: Key, io: ConnIo)
    ensures Synced(t, Retire(Register(t, key, io.issued), key, io.retired), key, io)
  {
    var after := Retire(Register(t, key, io.issued), key, io.retired);
    forall l ensures l in after.lens <==> l in t.lens || exists c :: c in io.issued && |c| == l {
    }
  }

  /**
    What an accepted connection does with a datagram it reads: if the shared table leads to it or to
    no one, ngtcp2 works on it and the table is brought up to date; LiveRoutes.ReadReachesOwner has the rest.
   */
  lemma OwnReadIsExact(cfg: Config, t: System, channel: Channel, d: Datagram, io: ConnIo)
    requires Reachable(cfg, t) && channel in t.handles && io.error != Internal
    requires SharedOwner(t.shared, d.data, d.from) in {None, Some(t.handles[channel])}
    ensures Shaped(t)
    ensures var p, u := t.pending[channel], Step(cfg, t, AcceptedRead(channel, d, io));
            && Synced(t.shared, u.shared, t.handles[channel], ConnIo(p.issued + io.issued, p.retired + io.retired, NoError, false))
            && u.pending == t.pending[channel := Pending([], [])]
            && u.sharedTaken == RememberAll(t.sharedTaken, p.retired + io.retired)
            && u.handles == t.handles && u.queues == t.queues && u.senders == t.senders
  {
    ReachableInv(cfg, t);
    AfterIoIsExact(t, channel, io);
  }

  /** Packets to an ID an accepted connection was issued are found in the shared table after the call. */
  lemma SyncedIsFound(cfg: Config, t: System, channel: Channel, d: Datagram, io: ConnIo, c: Cid, data: seq<byte>, from: Addr)
    requires Reachable(cfg, t) && channel in t.handles && io.error != Internal
    requires SharedOwner(t.shared, d.data, d.from) in {None, Some(t.handles[channel])}
    requires Shaped(t) && c in io.issued && c !in t.pending[channel].retired + io.retired
    requires Addressed(Step(cfg, t, AcceptedRead(channel, d, io)).shared, data, c)
    ensures SharedOwner(Step(cfg, t, AcceptedRead(channel, d, io)).shared, data, from) == Some(t.handles[channel])
  {
    OwnReadIsExact(cfg, t, channel, d, io);
    AddressedIsFound(Step(cfg, t, AcceptedRead(channel, d, io)).shared, data, c, from);
  }

  /** Datagrams are handed to the connection in the order they were queued, one for each turn. */
  lemma PopTakesFirst(cfg: Config, s: System, channel: Channel, io: ConnIo)
    requires Shaped(s) && Enabled(cfg, s, AcceptedPop(channel, io))
    ensures var t := Step(cfg, s, AcceptedPop(channel, io));
            && s.queues[channel] == [s.queues[channel][0]] + t.queues[channel]
            && t.shared == AfterIo(s, channel, io).shared && t.pending == AfterIo(s, channel, io).pending
            && (forall ch :: ch in s.queues && ch != channel ==> ch in t.queues && t.queues[ch] == s.queues[ch])
  {
  }

  /** Dropping an accepted connection takes its routes, queue and pending IDs, and nothing of the others. */
  lemma DropIsExact(cfg: Config, s: System, channel: Channel, other: Key, data: seq<byte>, from: Addr)
    requires Shaped(s) && channel in s.handles && other != s.handles[channel]
    ensures var t := Step(cfg, s, AcceptedDrop(channel));
            && channel !in t.handles && s.handles[channel] !in t.senders
            && CidsOf(t.shared, s.handles[channel]) == {} && AddrsOf(t.shared, s.handles[channel]) == {}
            && CidsOf(t.shared, other) == CidsOf(s.shared, other) && AddrsOf(t.shared, other) == AddrsOf(s.shared, other)
            && (other in s.senders ==> other in t.senders && t.senders[other] == s.senders[other])
            && (forall ch :: ch in s.handles && ch != channel ==> SameHandle(s, t, ch))
            && (SharedOwner(s.shared, data, from) == Some(other) ==> SharedOwner(t.shared, data, from) == Some(other))
  {
    ForgetKeepsOwner(s.shared, s.handles[channel], other, data, from);
  }

  // ---------------------------------------------------------------- the search for a reset target

  /** A listed ID that starts the packet. */
  ghost predicate Candidate(lens: set<nat>, data: seq<byte>, c: Cid) {
    |c| in lens && 1 + |c| <= |data| && data[1..1 + |c|] == c
  }

  /**
    The target of a reset, of at most `len` bytes: a candidate that has a token and is not
    remembered, when no longer candidate has a token or is remembered.
   */
  lemma {:induction false} ResetTargetExactly(lens: set<nat>, taken: set<Cid>, tokenless: set<Cid>, data: seq<byte>, len: nat, c: Cid)
    ensures ResetTarget(lens, taken, tokenless, data, len) == Some(c)
            <==> && |c| <= len && Candidate(lens, data, c) && c !in taken && c !in tokenless
                 && forall d :: |c| < |d| <= len && Candidate(lens, data, d) ==> d !in taken && d in tokenless
  {
    if len > 0 {
      ResetTargetExactly(lens, taken, tokenless, data, len - 1, c);
    }
    if len in lens && 1 + len <= |data| {
      var d := data[1..1 + len];
      assert |d| == len && Candidate(lens, data, d);
      assert forall e :: |e| == len && Candidate(lens, data, e) ==> e == d;
    }
  }
}

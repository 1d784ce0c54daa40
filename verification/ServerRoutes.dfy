/**
  `SharedRoutes` and the routing part of `Server` (tokio-ngtcp2/src/server.rs) in the source's own
  form, objects whose methods update maps, sets and queues in place. Each method is proved to do
  what the corresponding function of the step system does.
 */
module ServerRoutes {
  import opened Octets
  import opened Resolve
  import opened RouteTable
  import opened TakenCids
  import opened HandOff
  import opened Admission
  import opened RouteSystem

  // ---------------------------------------------------------------- loops over connection IDs

  lemma RegisterOneMore(t: Table, key: Key, cids: seq<Cid>, i: nat)
    requires i < |cids|
    ensures var r := Register(t, key, cids[..i]);
            Register(t, key, cids[..i + 1]) == r.(lens := r.lens + {|cids[i]|}, cids := r.cids[cids[i] := key])
  {
    var r, more := Register(t, key, cids[..i]), Register(t, key, cids[..i + 1]);
    assert forall c :: c in cids[..i + 1] <==> c in cids[..i] || c == cids[i];
    assert more.cids == r.cids[cids[i] := key];
    assert more.lens == r.lens + {|cids[i]|};
  }

  method RegisterCids(before: Table, key: Key, cids: seq<Cid>) returns (t: Table)
    ensures t == Register(before, key, cids)
  {
    t := before;
    assert Register(before, key, cids[..0]) == before;
    for i := 0 to |cids|
      invariant t == Register(before, key, cids[..i])
    {
      RegisterOneMore(before, key, cids, i);
      t := t.(lens := t.lens + {|cids[i]|}, cids := t.cids[cids[i] := key]);
    }
    assert cids[..|cids|] == cids;
  }

  lemma RegisterOneMoreAddr(t: Table, key: Key, addrs: seq<Addr>, i: nat)
    requires i < |addrs|
    ensures RegisterAddrs(t, key, addrs[..i + 1]).addrs == RegisterAddrs(t, key, addrs[..i]).addrs[addrs[i] := key]
  {
    assert forall a :: a in addrs[..i + 1] <==> a in addrs[..i] || a == addrs[i];
  }

  method RegisterAddresses(before: Table, key: Key, addrs: seq<Addr>) returns (t: Table)
    ensures t == RegisterAddrs(before, key, addrs)
  {
    t := before;
    assert RegisterAddrs(before, key, addrs[..0]) == before;
    for i := 0 to |addrs|
      invariant t == RegisterAddrs(before, key, addrs[..i])
    {
      RegisterOneMoreAddr(before, key, addrs, i);
      t := t.(addrs := t.addrs[addrs[i] := key]);
    }
    assert addrs[..|addrs|] == addrs;
  }

  /** `retire_cids` and `remove_retired_cids`: leave the table if owned, be remembered in any case. */
  method RetireCids(before: Table, memory: Memory, key: Key, cids: seq<Cid>) returns (t: Table, m: Memory)
    ensures t == Retire(before, key, cids)
    ensures m == RememberAll(memory, cids)
  {
    t, m := before, memory;
    for i := 0 to |cids|
      invariant t == Retire(before, key, cids[..i])
      invariant m == RememberAll(memory, cids[..i])
    {
      assert forall c :: c in cids[..i + 1] <==> c in cids[..i] || c == cids[i];
      if cids[i] in t.cids && t.cids[cids[i]] == key {
        t := t.(cids := t.cids - {cids[i]});
      }
      m := RememberTakenCid(m, cids[i]);
      assert cids[..i + 1][..i] == cids[..i];
      assert t.cids == Retire(before, key, cids[..i + 1]).cids;
    }
    assert cids[..|cids|] == cids;
  }

  method RememberCids(memory: Memory, cids: seq<Cid>) returns (m: Memory)
    ensures m == RememberAll(memory, cids)
  {
    m := memory;
    for i := 0 to |cids|
      invariant m == RememberAll(memory, cids[..i])
    {
      m := RememberTakenCid(m, cids[i]);
      assert cids[..i + 1][..i] == cids[..i];
    }
    assert cids[..|cids|] == cids;
  }

  /** The registrations of `handle_new_connection`, in its order. */
  method AddConnectionRoutes(before: Table, scid: Cid, key: Key, from: Addr, originalDcid: Cid, retried: bool,
                             preferred: Option<Cid>, issued: seq<Cid>) returns (t: Table)
    ensures t == AddRoutes(before, scid, key, from, originalDcid, preferred, issued)
  {
    t := before;
    if scid != [] {
      t := t.(lens := t.lens + {|scid|});
    }
    if scid != key {
      t := t.(addrs := t.addrs[from := key]);
    } else {
      t := t.(cids := t.cids[scid := key]);
    }
    if retried {
      ghost var cids := t.cids;
      t := t.(cids := t.cids - {originalDcid});
      assert t.cids[originalDcid := key] == cids[originalDcid := key];
    }
    t := t.(cids := t.cids[originalDcid := key]);
    if scid != [] && preferred.Some? {
      t := RegisterCids(t, key, [preferred.value]);
    }
    t := RegisterCids(t, key, issued);
  }

  // ---------------------------------------------------------------- forgetting a connection

  /** `retain(|_, key| key != conn_key)`, entry by entry. */
  method RetainOthers<K(==)>(m: map<K, Key>, key: Key) returns (kept: map<K, Key>)
    ensures forall k :: k in kept <==> k in m && m[k] != key
    ensures forall k :: k in kept ==> kept[k] == m[k]
  {
    kept := m;
    var rest := m.Keys;
    while rest != {}
      invariant rest <= m.Keys
      invariant forall k :: k in kept <==> k in m && (k in rest || m[k] != key)
      invariant forall k :: k in kept ==> kept[k] == m[k]
      decreases |rest|
    {
      var k :| k in rest;
      if m[k] == key {
        kept := kept - {k};
      }
      rest := rest - {k};
    }
  }

  /** No ID and no address leads to the connection, and every other connection has the ones it had. */
  ghost predicate ForgetsOnly(before: Table, after: Table, key: Key) {
    && CidsOf(after, key) == {} && AddrsOf(after, key) == {}
    && (forall other :: other != key ==> CidsOf(after, other) == CidsOf(before, other))
    && (forall other :: other != key ==> AddrsOf(after, other) == AddrsOf(before, other))
    && after.lens == before.lens
  }

  /** Only one table does that. */
  lemma ForgetsOnlyExactly(before: Table, after: Table, key: Key)
    ensures ForgetsOnly(before, after, key) <==> after == Forget(before, key)
  {
    var forgotten := Forget(before, key);
    if ForgetsOnly(before, after, key) {
      forall c ensures c in after.cids <==> c in forgotten.cids
               ensures c in after.cids && c in forgotten.cids ==> after.cids[c] == forgotten.cids[c]
      {
        if c in after.cids {
          assert c in CidsOf(after, after.cids[c]);
          assert c in CidsOf(before, after.cids[c]);
        }
        if c in forgotten.cids {
          assert c in CidsOf(before, before.cids[c]);
          assert c in CidsOf(after, before.cids[c]);
        }
      }
      assert after.cids == forgotten.cids;
      forall a ensures a in after.addrs <==> a in forgotten.addrs
               ensures a in after.addrs && a in forgotten.addrs ==> after.addrs[a] == forgotten.addrs[a]
      {
        if a in after.addrs {
          assert a in AddrsOf(after, after.addrs[a]);
          assert a in AddrsOf(before, after.addrs[a]);
        }
        if a in forgotten.addrs {
          assert a in AddrsOf(before, before.addrs[a]);
          assert a in AddrsOf(after, before.addrs[a]);
        }
      }
      assert after.addrs == forgotten.addrs;
    }
  }

  method ForgetConnection(before: Table, key: Key) returns (t: Table)
    ensures ForgetsOnly(before, t, key) && t == Forget(before, key)
  {
    var cids := RetainOthers(before.cids, key);
    var addrs := RetainOthers(before.addrs, key);
    t := Table(cids, addrs, before.lens);
    assert cids == Forget(before, key).cids && addrs == Forget(before, key).addrs;
    ForgetsOnlyExactly(before, t, key);
  }

  // ---------------------------------------------------------------- the shared table

  /** The bounded channels of tokio: a queue per channel, open while its receiver lives. */
  class Channels {
    var queues: map<Channel, seq<Datagram>>
    var receivers: set<Channel>

    constructor ()
      ensures queues == map[] && receivers == {}
    {
      queues, receivers := map[], {};
    }

    ghost predicate Valid()
      reads this
    {
      receivers <= queues.Keys
    }

    /** `try_send`: false only if the receiver is gone; a full queue drops the datagram. */
    method TrySend(channel: Channel, d: Datagram) returns (open: bool)
      requires Valid()
      modifies this`queues
      ensures Valid() && open == (channel in receivers)
      ensures queues == if open && |old(queues)[channel]| < MAX_QUEUED_DATAGRAMS
                        then old(queues)[channel := old(queues)[channel] + [d]] else old(queues)
    {
      open := channel in receivers;
      if open && |queues[channel]| < MAX_QUEUED_DATAGRAMS {
        queues := queues[channel := queues[channel] + [d]];
      }
    }
  }

  class SharedRoutes {
    var table: Table
    var senders: map<Key, Channel>
    var taken: Memory
    const channels: Channels

    constructor ()
      ensures table == Table(map[], map[], {}) && senders == map[] && taken == EMPTY
      ensures fresh(channels) && channels.Valid()
    {
      table, senders, taken := Table(map[], map[], {}), map[], EMPTY;
      channels := new Channels();
    }

    method Owner(data: seq<byte>, from: Addr) returns (owner: Option<Key>)
      ensures owner == SharedOwner(table, data, from)
    {
      owner := FindOwner(table.cids, table.lens, data);
      if owner.None? && from in table.addrs {
        owner := Some(table.addrs[from]);
      }
    }

    method RegisterConnection(key: Key, channel: Channel, cids: seq<Cid>, addrs: seq<Addr>)
      modifies this`table, this`senders
      ensures table == SharedAfter(old(table), key, cids, addrs)
      ensures senders == old(senders)[key := channel]
    {
      table := RegisterCids(table, key, cids);
      table := RegisterAddresses(table, key, addrs);
      senders := senders[key := channel];
    }

    /** What `sync_routes` does under the lock. */
    method Sync(key: Key, issued: seq<Cid>, retired: seq<Cid>)
      modifies this`table, this`taken
      ensures table == Retire(Register(old(table), key, issued), key, retired)
      ensures taken == RememberAll(old(taken), retired)
    {
      table := RegisterCids(table, key, issued);
      table, taken := RetireCids(table, taken, key, retired);
    }

    method Deliver(key: Key, d: Datagram) returns (ok: bool)
      requires channels.Valid()
      modifies channels`queues
      ensures channels.Valid()
      ensures ok == (key in senders && senders[key] in channels.receivers)
      ensures channels.queues == if ok && |old(channels.queues)[senders[key]]| < MAX_QUEUED_DATAGRAMS
                                 then old(channels.queues)[senders[key] := old(channels.queues)[senders[key]] + [d]]
                                 else old(channels.queues)
    {
      if key !in senders {
        return false;
      }
      ok := channels.TrySend(senders[key], d);
    }

    method Remove(key: Key)
      modifies this`table, this`senders
      ensures ForgetsOnly(old(table), table, key) && table == Forget(old(table), key)
      ensures senders == old(senders) - {key}
      ensures key !in senders
      ensures forall other :: other in old(senders) && other != key ==> other in senders && senders[other] == old(senders)[other]
    {
      table := ForgetConnection(table, key);
      senders := senders - {key};
    }

    /** What `handoff_to_accepted` does under the lock: true if an accepted connection owns the datagram. */
    method HandOffDatagram(d: Datagram) returns (owned: bool)
      requires channels.Valid()
      modifies this`table, this`senders, channels`queues
      ensures channels.Valid()
      ensures owned == SharedOwner(old(table), d.data, d.from).Some?
      ensures !owned ==> table == old(table) && senders == old(senders) && channels.queues == old(channels.queues)
      ensures owned ==>
        var key := SharedOwner(old(table), d.data, d.from).value;
        if key in old(senders) && old(senders)[key] in channels.receivers
        then
          var channel := old(senders)[key];
          && table == old(table) && senders == old(senders)
          && channels.queues == if |old(channels.queues)[channel]| < MAX_QUEUED_DATAGRAMS
                                then old(channels.queues)[channel := old(channels.queues)[channel] + [d]]
                                else old(channels.queues)
        else table == Forget(old(table), key) && senders == old(senders) - {key}
             && channels.queues == old(channels.queues)
    {
      var owner := Owner(d.data, d.from);
      if owner.None? {
        return false;
      }
      var ok := Deliver(owner.value, d);
      if !ok {
        Remove(owner.value);
      }
      owned := true;
    }
  }

  // ---------------------------------------------------------------- the server

  class Server {
    var conns: set<Key>
    var table: Table
    var taken: Memory
    const routes: SharedRoutes

    constructor (scidLen: nat)
      ensures conns == {} && taken == EMPTY
      ensures table == Table(map[], map[], if scidLen > 0 then {scidLen} else {})
      ensures fresh(routes) && routes.table == Table(map[], map[], {}) && routes.taken == EMPTY
    {
      conns, taken := {}, EMPTY;
      table := Table(map[], map[], if scidLen > 0 then {scidLen} else {});
      routes := new SharedRoutes();
    }

    /** The lookup at the start of `handle_datagram`. */
    method Owner(data: seq<byte>, from: Addr) returns (owner: Option<Key>)
      ensures owner == ServerOwner(table, data, from)
    {
      owner := FindOwner(table.cids, table.lens, data);
      if owner.None? {
        var isLong := data != [] && data[0] >= 128;
        if !isLong || (|data| > 5 && LengthByte(data) == 0) {
          owner := if from in table.addrs then Some(table.addrs[from]) else None;
        }
      }
    }

    method RemoveConnection(key: Key)
      modifies this`conns, this`table
      ensures key !in conns && forall other :: other != key ==> (other in conns <==> other in old(conns))
      ensures ForgetsOnly(old(table), table, key) && table == Forget(old(table), key)
    {
      conns := conns - {key};
      table := ForgetConnection(table, key);
    }

    method SyncConnection(key: Key, issued: seq<Cid>, retired: seq<Cid>)
      modifies this`table, this`taken
      ensures table == Retire(Register(old(table), key, issued), key, retired)
      ensures taken == RememberAll(old(taken), retired)
    {
      table := RegisterCids(table, key, issued);
      table, taken := RetireCids(table, taken, key, retired);
    }

    /** The server and the shared table as a state of the step system, between two datagrams. */
    ghost function View(): System
      reads this, routes
    {
      System(conns, table, taken, Idle, routes.table, routes.senders, routes.taken, map[], map[], map[])
    }

    method HandleConnError(key: Key, error: ErrorKind, closeWritten: bool)
      modifies this`conns, this`table
      ensures View() == ConnError(old(View()), key, error, closeWritten)
    {
      match error {
        case NoError =>
        case Ignore =>
        case Terminal =>
        case SilentDrop => RemoveConnection(key);
        case Internal => RemoveConnection(key);
        case TransportClose =>
          if !closeWritten {
            RemoveConnection(key);
          }
        case ApplicationClose =>
          if !closeWritten {
            RemoveConnection(key);
          }
      }
    }

    method HandleExistingConnection(key: Key, io: ConnIo)
      modifies this`conns, this`table, this`taken
      ensures View() == Existing(old(View()), key, io)
    {
      if key !in conns {
        return;
      }
      SyncConnection(key, io.issued, io.retired);
      HandleConnError(key, io.error, io.closeWritten);
    }

    /** The turn of one connection in `handle_timers`. */
    method HandleTimer(key: Key, io: ConnIo)
      modifies this`conns, this`table, this`taken
      ensures View() == OnTimer(old(View()), key, io)
    {
      if key !in conns {
        return;
      }
      SyncConnection(key, io.issued, io.retired);
      if io.error != NoError && io.error != Ignore && io.error != Terminal {
        RemoveConnection(key);
      }
    }

    /** `handle_new_connection` for an Initial that was accepted as one. */
    method HandleNewConnection(cfg: Config, i: Initial, from: Addr, tokens: Issued, ts: nat, setup: Setup)
      modifies this`conns, this`table
      ensures View() == NewConnection(cfg, old(View()), i, from, tokens, ts, setup)
    {
      var d := Decide(cfg, tokens, i, from, ts);
      if !d.Admit? || |conns| >= MAX_CONNECTIONS {
        return;
      }
      if !d.validated && d.originalDcid in table.cids {
        return;
      }
      var serverScid := ServerScid(d, i, setup.scid);
      if serverScid.None? {
        return;
      }
      var scid := serverScid.value;
      var connKey := ConnKey(scid, setup.internalKey);
      if connKey.None? {
        return;
      }
      var key := connKey.value;
      if !setup.sessionOk || !setup.connectionOk || setup.retryRequired {
        return;
      }
      if setup.error != NoError && setup.error != Ignore {
        return;
      }
      table := AddConnectionRoutes(table, scid, key, from, d.originalDcid, d.retried, setup.preferred, setup.issued);
      conns := conns + {key};
    }

    /** `take_connection`; the order in which a map is walked is not determined. */
    method TakeConnection(key: Key, channel: Channel) returns (cids: seq<Cid>, addrs: seq<Addr>)
      requires key in conns
      modifies this, routes`table, routes`senders
      ensures Collected(old(table), key, cids, addrs)
      ensures conns == old(conns) - {key} && table == Forget(old(table), key)
      ensures taken == RememberAll(old(taken), cids)
      ensures routes.table == SharedAfter(old(routes.table), key, cids, addrs)
      ensures routes.senders == old(routes.senders)[key := channel]
    {
      conns := conns - {key};
      cids := Listed(set c | c in table.cids && table.cids[c] == key);
      addrs := Listed(set a | a in table.addrs && table.addrs[a] == key);
      routes.RegisterConnection(key, channel, cids, addrs);
      taken := RememberCids(taken, cids);
      table := ForgetConnection(table, key);
    }

    /** `send_stateless_reset`: the ID whose token is used, if any. */
    method ChooseReset(data: seq<byte>, tokenless: set<Cid>) returns (target: Option<Cid>)
      ensures target == ResetTarget(table.lens, taken.cids + routes.taken.cids, tokenless, data, MAX_CID_LEN)
    {
      ghost var all := taken.cids + routes.taken.cids;
      var rest := table.lens;
      while rest != {}
        invariant rest <= table.lens
        invariant ResetTarget(table.lens, all, tokenless, data, MAX_CID_LEN)
                  == ResetTarget(rest, all, tokenless, data, MAX_CID_LEN)
        decreases |rest|
      {
        HasGreatest(rest);
        var len :| len in rest && forall x :: x in rest ==> x <= len;
        if |data| >= 1 + len && len <= MAX_CID_LEN {
          var dcid := data[1..1 + len];
          if dcid in taken.cids || dcid in routes.taken.cids {
            GreatestDecides(rest, all, tokenless, data, len, MAX_CID_LEN);
            return None;
          }
          if dcid !in tokenless {
            GreatestDecides(rest, all, tokenless, data, len, MAX_CID_LEN);
            return Some(dcid);
          }
        }
        SkippedLength(rest, all, tokenless, data, len, MAX_CID_LEN);
        rest := rest - {len};
      }
      NoLengths(all, tokenless, data, MAX_CID_LEN);
      target := None;
    }
  }

  /** The elements of a set in some order. */
  method Listed<T(==)>(s: set<T>) returns (l: seq<T>)
    ensures forall x :: x in l <==> x in s
  {
    l := [];
    var rest := s;
    while rest != {}
      invariant rest <= s
      invariant forall x :: x in s <==> x in l || x in rest
      decreases |rest|
    {
      var x :| x in rest;
      l, rest := l + [x], rest - {x};
    }
  }
}

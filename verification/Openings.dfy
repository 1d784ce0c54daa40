/** How runs begin: a first connection is created and handed over. The failing runs build on this. */
module Openings {
  import opened Octets
  import opened Resolve
  import opened RouteTable
  import opened TakenCids
  import opened HandOff
  import opened Admission
  import opened RouteSystem
  import opened LiveRoutes

  /** A long header of version 1 that names the ID, and whatever follows. */
  function LongPacket(cid: Cid, tail: seq<byte>): seq<byte>
    requires |cid| <= MAX_CID_LEN
  {
    var length: byte := |cid|;
    [192, 0, 0, 0, 1, length] + cid + tail
  }

  lemma LongPacketNames(cid: Cid, tail: seq<byte>)
    requires |cid| <= MAX_CID_LEN
    ensures Names(LongPacket(cid, tail), cid)
  {
    var data := LongPacket(cid, tail);
    assert LengthByte(data) == |cid|;
    assert data[6..6 + |cid|] == cid;
  }

  /** Neither lookup finds a long header whose ID is not in the table. */
  lemma UnknownId(t: Table, data: seq<byte>, cid: Cid, from: Addr)
    requires Names(data, cid) && cid !in t.cids && t.addrs == map[]
    ensures ServerOwner(t, data, from).None? && SharedOwner(t, data, from).None?
  {
  }

  const QUIET: ConnIo := ConnIo([], [], NoError, false)

  /** Everything goes well, with this SCID if one is generated. */
  function Smooth(scid: Option<Cid>): Setup {
    Setup(scid, None, None, true, true, false, NoError, [])
  }

  /** The table with one connection that has its SCID as key. */
  function OneRoute(lens: set<nat>, key: Key, originalDcid: Cid): Table {
    Table(map[key := key, originalDcid := key], map[], lens + {|key|})
  }

  function Held(cfg: Config, key: Key, originalDcid: Cid): System {
    Bound(cfg).(conns := {key}, own := OneRoute(Bound(cfg).own.lens, key, originalDcid))
  }

  function Opened(cfg: Config, key: Key, originalDcid: Cid): System {
    System({}, Table(map[], map[], Bound(cfg).own.lens + {|key|}), Memory({key, originalDcid}, [key, originalDcid]), Idle,
           Table(map[key := key, originalDcid := key], map[], {|key|, |originalDcid|}), map[key := 0], EMPTY,
           map[0 := key], map[0 := []], map[0 := Pending([], [])])
  }

  lemma FirstRoutes(lens: set<nat>, key: Key, from: Addr, originalDcid: Cid)
    requires key != []
    ensures AddRoutes(Table(map[], map[], lens), key, key, from, originalDcid, None, []) == OneRoute(lens, key, originalDcid)
  {
  }

  lemma StepRead(cfg: Config, s: System, d: Datagram, cid: Cid)
    requires Shaped(s) && s.progress.Idle? && Names(d.data, cid) && cid !in s.own.cids && s.own.addrs == map[]
    ensures Steps(cfg, s, Receive(d, QUIET), s.(progress := Unrouted(d)))
  {
    UnknownId(s.own, d.data, cid, d.from);
  }

  /** An admitted Initial creates the first connection. */
  lemma StepCreate(cfg: Config, d: Datagram, e: Event, key: Key, originalDcid: Cid)
    requires e.AskShared? && e.accepted.Some? && e.setup == Smooth(e.setup.scid) && key != []
    requires var s := Bound(cfg).(progress := Unrouted(d));
             Enabled(cfg, s, e) && Names(d.data, e.accepted.value.dcid)
    requires var decision := Decide(cfg, e.tokens, e.accepted.value, d.from, e.ts);
             && decision.Admit? && decision.originalDcid == originalDcid
             && ServerScid(decision, e.accepted.value, e.setup.scid) == Some(key)
    ensures Steps(cfg, Bound(cfg).(progress := Unrouted(d)), e, Held(cfg, key, originalDcid))
  {
    var s := Bound(cfg).(progress := Unrouted(d));
    UnknownId(s.shared, d.data, e.accepted.value.dcid, d.from);
    CreatingIsNewConnection(cfg, s, e);
    FirstRoutes(s.own.lens, key, d.from, originalDcid);
  }

  lemma TakeCollects(lens: set<nat>, key: Key, originalDcid: Cid)
    ensures Collected(OneRoute(lens, key, originalDcid), key, [key, originalDcid], [])
  {
  }

  lemma TakeEmpties(lens: set<nat>, key: Key, originalDcid: Cid)
    ensures Forget(OneRoute(lens, key, originalDcid), key) == Table(map[], map[], lens + {|key|})
  {
  }

  lemma TakeRegisters(key: Key, originalDcid: Cid)
    ensures SharedAfter(Table(map[], map[], {}), key, [key, originalDcid], [])
            == Table(map[key := key, originalDcid := key], map[], {|key|, |originalDcid|})
  {
    var cids := [key, originalDcid];
    assert forall c :: c in cids <==> c == key || c == originalDcid;
    assert |key| in (set c | c in cids :: |c|) by {
      assert key in cids;
    }
    assert |originalDcid| in (set c | c in cids :: |c|) by {
      assert originalDcid in cids;
    }
  }

  lemma TakeRemembers(key: Key, originalDcid: Cid)
    requires key != originalDcid
    ensures RememberAll(EMPTY, [key, originalDcid]) == Memory({key, originalDcid}, [key, originalDcid])
  {
    assert [key, originalDcid][..1] == [key];
    assert [key][..0] == [];
    assert RememberAll(EMPTY, [key]) == Memory({key}, [key]);
  }

  lemma StepTake(cfg: Config, key: Key, originalDcid: Cid)
    requires key != originalDcid
    ensures Steps(cfg, Held(cfg, key, originalDcid), Take(key, 0, [key, originalDcid], []), Opened(cfg, key, originalDcid))
  {
    TakeCollects(Bound(cfg).own.lens, key, originalDcid);
    TakeEmpties(Bound(cfg).own.lens, key, originalDcid);
    TakeRegisters(key, originalDcid);
    TakeRemembers(key, originalDcid);
  }

  lemma BoundReachable(cfg: Config)
    ensures Reachable(cfg, Bound(cfg))
  {
    assert Reaches(cfg, Bound(cfg), [], Bound(cfg));
  }
}

/**
  All send streams of a connection and the environment that drives them: the application writes,
  ngtcp2 takes any prefix of each write, reports acknowledgements in order, closes streams and
  discards every stream when 0-RTT is rejected (ngtcp2/src/conn.rs).
 */
module SendStreams {
  import opened Octets
  import opened InFlight

  type StreamId = int

  datatype State<Id> = State(entries: map<StreamId, Entry<Id>>, streams: map<StreamId, Stream<Id>>)

  datatype Event<Id> =
    /** `emptyId` and `newId` identify the `Vec::new()` of a new entry and the allocation a write may make. */
    | Write(sid: StreamId, bytes: seq<byte>, datalen: Option<nat>, emptyId: Id, newId: Id, spare: nat)
    | Ack(sid: StreamId, offset: nat, len: nat)
    | Close(sid: StreamId)
    | EarlyDataRejected

  ghost function Init<Id>(): State<Id> {
    State(map[], map[])
  }

  ghost predicate UnusedIn<Id>(s: State<Id>, id: Id) {
    forall sid :: sid in s.entries ==> s.entries[sid].Unused(id)
  }

  ghost function EntryFor<Id>(s: State<Id>, sid: StreamId, emptyId: Id): Entry<Id> {
    if sid in s.entries then s.entries[sid] else NewEntry(emptyId)
  }

  /** The bytes do not fit in the allocation the entry has. */
  ghost predicate Allocates<Id>(s: State<Id>, ev: Event<Id>)
    requires ev.Write?
  {
    var e := EntryFor(s, ev.sid, ev.emptyId);
    |e.data.bytes| + |ev.bytes| > e.data.capacity
  }

  /** What the allocator and ngtcp2 may do in a state (contract of `ngtcp2_conn_writev_stream`). */
  ghost predicate Enabled<Id>(s: State<Id>, ev: Event<Id>) {
    match ev
    case Write(sid, bytes, datalen, emptyId, newId, _) =>
      && Accepted(datalen) <= |bytes|
      && (sid !in s.entries ==> UnusedIn(s, emptyId))
      && (Allocates(s, ev) ==> UnusedIn(s, newId) && EntryFor(s, sid, emptyId).Unused(newId))
    case Ack(sid, offset, len) =>
      sid in s.streams && offset == s.streams[sid].acked && offset + len <= |s.streams[sid].sent|
      && offset + len <= U64_MAX
    case Close(_) => true
    case EarlyDataRejected => true
  }

  ghost function StreamFor<Id>(s: State<Id>, sid: StreamId): Stream<Id> {
    if sid in s.streams then s.streams[sid] else Stream([], 0, [])
  }

  ghost predicate Shaped<Id>(s: State<Id>) {
    forall sid :: sid in s.entries ==> s.entries[sid].start <= |s.entries[sid].data.bytes|
  }

  ghost function Step<Id>(s: State<Id>, ev: Event<Id>): State<Id>
    requires Shaped(s) && Enabled(s, ev)
  {
    match ev
    case Write(sid, bytes, datalen, emptyId, newId, spare) =>
      var e := EntryFor(s, sid, emptyId);
      var f := WriteEntry(e, bytes, datalen, newId, spare);
      // ngtcp2 reports -1 when it wrote no STREAM frame, or has no such stream
      var streams := if datalen.None? then s.streams
                     else s.streams[sid := Taken(StreamFor(s, sid), bytes, datalen.value, f.data.id,
                                                 AppendedAt(e, |bytes|, newId, spare))];
      State(s.entries[sid := f], streams)
    case Ack(sid, offset, len) =>
      var entries := if sid in s.entries
                     then s.entries[sid := AckUntil(s.entries[sid], SaturatingAdd(offset, len))]
                     else s.entries;
      State(entries, s.streams[sid := s.streams[sid].(acked := offset + len)])
    case Close(sid) => State(s.entries - {sid}, s.streams - {sid})
    case EarlyDataRejected => State(s.entries, map[])
  }

  // ---------------------------------------------------------------- invariant

  ghost predicate Apart<Id>(e: Entry<Id>, f: Entry<Id>) {
    forall i :: 0 <= i <= |f.retired| ==> e.Unused(f.Held(i).id)
  }

  ghost predicate AllWellFormed<Id>(entries: map<StreamId, Entry<Id>>) {
    forall sid :: sid in entries ==> WellFormed(entries[sid])
  }

  ghost predicate AllApart<Id>(entries: map<StreamId, Entry<Id>>) {
    forall a, b :: a in entries && b in entries && a != b ==> Apart(entries[a], entries[b])
  }

  ghost predicate AllTracked<Id>(s: State<Id>) {
    forall sid :: sid in s.streams ==> sid in s.entries && Tracks(s.entries[sid], s.streams[sid])
  }

  ghost predicate Inv<Id>(s: State<Id>) {
    AllWellFormed(s.entries) && AllApart(s.entries) && AllTracked(s)
  }

  /** Replacing one entry by one that stays apart from the others keeps all apart. */
  lemma ReplacedStaysApart<Id>(entries: map<StreamId, Entry<Id>>, sid: StreamId, f: Entry<Id>)
    requires AllApart(entries)
    requires forall b :: b in entries && b != sid ==> Apart(f, entries[b]) && Apart(entries[b], f)
    ensures AllApart(entries[sid := f])
  {
  }

  lemma NothingTaken<Id>(s: Stream<Id>, bytes: seq<byte>, id: Id, at: nat)
    ensures Taken(s, bytes, 0, id, at) == s
  {
    assert s.sent + bytes[..0] == s.sent;
  }

  lemma WriteKeepsApart<Id>(e: Entry<Id>, g: Entry<Id>, bytes: seq<byte>, datalen: Option<nat>, newId: Id, spare: nat)
    requires WellFormed(e) && Accepted(datalen) <= |bytes|
    requires Apart(e, g) && e.Available(newId, |bytes|)
    requires |e.data.bytes| + |bytes| > e.data.capacity ==> g.Unused(newId)
    ensures Apart(WriteEntry(e, bytes, datalen, newId, spare), g)
    ensures Apart(g, WriteEntry(e, bytes, datalen, newId, spare))
  {
    var f := WriteEntry(e, bytes, datalen, newId, spare);
    forall i | 0 <= i <= |g.retired| ensures f.Unused(g.Held(i).id) {
      WriteKeepsUnused(e, bytes, datalen, newId, spare, g.Held(i).id);
    }
    ApartSymmetric(f, g);
  }

  lemma ApartSymmetric<Id>(e: Entry<Id>, g: Entry<Id>)
    requires Apart(e, g)
    ensures Apart(g, e)
  {
    forall i | 0 <= i <= |e.retired| ensures g.Unused(e.Held(i).id) {
      forall j | 0 <= j <= |g.retired| ensures g.Held(j).id != e.Held(i).id {
        assert e.Unused(g.Held(j).id);
      }
    }
  }

  lemma NewEntryApart<Id>(s: State<Id>, sid: StreamId, emptyId: Id)
    requires AllApart(s.entries) && (sid !in s.entries ==> UnusedIn(s, emptyId))
    ensures forall b :: b in s.entries && b != sid ==> Apart(EntryFor(s, sid, emptyId), s.entries[b])
  {
    forall b | b in s.entries && b != sid ensures Apart(EntryFor(s, sid, emptyId), s.entries[b]) {
      assert sid !in s.entries ==> s.entries[b].Unused(emptyId);
    }
  }

  lemma WriteKeepsTracked<Id>(s: State<Id>, ev: Event<Id>)
    requires Inv(s) && ev.Write? && Enabled(s, ev)
    ensures AllTracked(Step(s, ev))
  {
    var Write(sid, bytes, datalen, emptyId, newId, spare) := ev;
    var e := EntryFor(s, sid, emptyId);
    if sid in s.streams || datalen.Some? {
      WriteKeepsTracks(e, StreamFor(s, sid), bytes, datalen, newId, spare);
      var f := WriteEntry(e, bytes, datalen, newId, spare);
      NothingTaken(StreamFor(s, sid), bytes, f.data.id, AppendedAt(e, |bytes|, newId, spare));
    }
  }

  lemma WriteKeepsInv<Id>(s: State<Id>, ev: Event<Id>)
    requires Inv(s) && ev.Write? && Enabled(s, ev)
    ensures Inv(Step(s, ev))
  {
    var Write(sid, bytes, datalen, emptyId, newId, spare) := ev;
    var e := EntryFor(s, sid, emptyId);
    var f := WriteEntry(e, bytes, datalen, newId, spare);
    WriteKeepsWellFormed(e, bytes, datalen, newId, spare);
    NewEntryApart(s, sid, emptyId);
    forall b | b in s.entries && b != sid ensures Apart(f, s.entries[b]) && Apart(s.entries[b], f) {
      WriteKeepsApart(e, s.entries[b], bytes, datalen, newId, spare);
    }
    ReplacedStaysApart(s.entries, sid, f);
    WriteKeepsTracked(s, ev);
  }

  lemma AckKeepsApart<Id>(e: Entry<Id>, g: Entry<Id>, offset: nat)
    requires WellFormed(e) && Apart(e, g)
    ensures Apart(AckUntil(e, offset), g) && Apart(g, AckUntil(e, offset))
  {
    forall i | 0 <= i <= |g.retired| ensures AckUntil(e, offset).Unused(g.Held(i).id) {
      AckKeepsUnused(e, offset, g.Held(i).id);
    }
    ApartSymmetric(AckUntil(e, offset), g);
  }

  lemma AckKeepsTracked<Id>(s: State<Id>, sid: StreamId, n: nat)
    requires Inv(s) && sid in s.streams && s.streams[sid].acked <= n <= |s.streams[sid].sent|
    ensures sid in s.entries
    ensures AllTracked(State(s.entries[sid := AckUntil(s.entries[sid], n)], s.streams[sid := s.streams[sid].(acked := n)]))
  {
    AckKeepsTracks(s.entries[sid], s.streams[sid], n);
  }

  lemma AckKeepsInv<Id>(s: State<Id>, ev: Event<Id>)
    requires Inv(s) && ev.Ack? && Enabled(s, ev)
    ensures Inv(Step(s, ev))
  {
    var Ack(sid, offset, len) := ev;
    var n := offset + len;
    assert Tracks(s.entries[sid], s.streams[sid]);
    var f := AckUntil(s.entries[sid], n);
    AckKeepsWellFormed(s.entries[sid], n);
    AckKeepsTracked(s, sid, n);
    forall b | b in s.entries && b != sid ensures Apart(f, s.entries[b]) && Apart(s.entries[b], f) {
      AckKeepsApart(s.entries[sid], s.entries[b], n);
    }
    ReplacedStaysApart(s.entries, sid, f);
  }

  lemma StepKeepsInv<Id>(s: State<Id>, ev: Event<Id>)
    requires Inv(s) && Enabled(s, ev)
    ensures Inv(Step(s, ev))
  {
    match ev
    case Write(_, _, _, _, _, _) => WriteKeepsInv(s, ev);
    case Ack(_, _, _) => AckKeepsInv(s, ev);
    case Close(_) =>
    case EarlyDataRejected =>
  }

  // ---------------------------------------------------------------- whole runs

  /** `t` is reached from `s` by the events, each possible when it happens. */
  ghost predicate Reaches<Id>(s: State<Id>, evs: seq<Event<Id>>, t: State<Id>)
    decreases |evs|
  {
    if evs == [] then t == s
    else Shaped(s) && Enabled(s, evs[0]) && Reaches(Step(s, evs[0]), evs[1..], t)
  }

  lemma {:induction false} RunsKeepInv<Id>(s: State<Id>, evs: seq<Event<Id>>, t: State<Id>)
    requires Inv(s) && Reaches(s, evs, t)
    ensures Inv(t)
    decreases |evs|
  {
    if evs != [] {
      StepKeepsInv(s, evs[0]);
      RunsKeepInv(Step(s, evs[0]), evs[1..], t);
    }
  }

  /** The invariant gives every outstanding byte a pointer that reads it. */
  lemma OutstandingReads<Id>(t: State<Id>, sid: StreamId, o: nat)
    requires Inv(t)
    requires sid in t.streams && t.streams[sid].acked <= o < |t.streams[sid].sent|
    ensures sid in t.entries && o < |t.streams[sid].ptrs|
    ensures Reads(t.entries[sid], t.streams[sid].ptrs[o], t.streams[sid].sent[o])
  {
    var e, s := t.entries[sid], t.streams[sid];
    assert Current(e, s, o);
    if PointsCurrent(e, s, o) {
      assert Points(e.Held(0), s.ptrs[o], s.sent[o]);
    } else {
      var i :| 0 <= i < |e.retired| && Base(e, s) + o < e.retired[i].end
               && Points(e.retired[i].buffer, s.ptrs[o], s.sent[o]);
      assert e.Held(i + 1) == e.retired[i].buffer;
    }
  }

  /**
    Pointer stability: in every reachable state, each byte ngtcp2 accepted and has not reported
    acknowledged is still in an allocation the stream holds, at the index it was handed out at,
    and reads what was sent.
   */
  lemma PointerStability<Id>(evs: seq<Event<Id>>, t: State<Id>, sid: StreamId, o: nat)
    requires Reaches(Init(), evs, t)
    requires sid in t.streams && t.streams[sid].acked <= o < |t.streams[sid].sent|
    ensures sid in t.entries && o < |t.streams[sid].ptrs|
    ensures Reads(t.entries[sid], t.streams[sid].ptrs[o], t.streams[sid].sent[o])
  {
    RunsKeepInv(Init(), evs, t);
    OutstandingReads(t, sid, o);
  }

  /** No allocation is held twice, within a stream or by two streams. */
  lemma NoSharedAllocation<Id>(evs: seq<Event<Id>>, t: State<Id>, a: StreamId, i: nat, b: StreamId, j: nat)
    requires Reaches(Init(), evs, t)
    requires a in t.entries && i <= |t.entries[a].retired|
    requires b in t.entries && j <= |t.entries[b].retired|
    requires t.entries[a].Held(i).id == t.entries[b].Held(j).id
    ensures a == b && i == j
  {
    RunsKeepInv(Init(), evs, t);
    assert a != b ==> Apart(t.entries[a], t.entries[b]);
  }

  /** Retention bound and order of the retired buffers, in every reachable state. */
  lemma RetentionBound<Id>(evs: seq<Event<Id>>, t: State<Id>, sid: StreamId)
    requires Reaches(Init(), evs, t) && sid in t.entries
    ensures var e := t.entries[sid];
            && Capacities(e.retired) <= e.data.capacity
            && Ordered(e.retired)
            && forall i :: 0 <= i < |e.retired| ==> e.retired[i].end > e.offset
  {
    RunsKeepInv(Init(), evs, t);
  }

  /**
    The queue the buffer stands for. Whatever happened to the stream ID before, the last bytes held
    are the ones sent and not acknowledged; nothing else is held, and offsets are the stream's
    own, exactly when the entry carries no bytes of an earlier use of the stream ID.
   */
  lemma QueueRefinement<Id>(evs: seq<Event<Id>>, t: State<Id>, sid: StreamId)
    requires Reaches(Init(), evs, t) && sid in t.streams
    ensures sid in t.entries && t.entries[sid].start <= |t.entries[sid].data.bytes|
    ensures var e, s := t.entries[sid], t.streams[sid];
            && s.acked <= |s.sent|
            && |s.sent| - s.acked <= |e.Unacked()|
            && e.Unacked()[|e.Unacked()| - (|s.sent| - s.acked)..] == s.sent[s.acked..]
            && (e.Unacked() == s.sent[s.acked..] && e.offset == s.acked <==> Base(e, s) == 0)
  {
    RunsKeepInv(Init(), evs, t);
    HeldSuffix(t.entries[sid], t.streams[sid]);
    HeldExactly(t.entries[sid], t.streams[sid]);
  }

  lemma HeldSuffix<Id>(e: Entry<Id>, s: Stream<Id>)
    requires Tracks(e, s)
    ensures |s.sent| - s.acked <= |e.Unacked()|
    ensures e.Unacked()[|e.Unacked()| - (|s.sent| - s.acked)..] == s.sent[s.acked..]
  {
    var d := |e.Unacked()| - (|s.sent| - s.acked);
    forall k | 0 <= k < |s.sent| - s.acked ensures e.Unacked()[d..][k] == s.sent[s.acked..][k] {
      assert Current(e, s, s.acked + k);
    }
  }

  lemma HeldExactly<Id>(e: Entry<Id>, s: Stream<Id>)
    requires Tracks(e, s)
    ensures e.Unacked() == s.sent[s.acked..] && e.offset == s.acked <==> Base(e, s) == 0
  {
    HeldSuffix(e, s);
    if Base(e, s) == 0 {
      assert e.Unacked()[0..] == e.Unacked();
    }
  }

  /** Without a 0-RTT rejection no entry carries such bytes, so the refinement is exact. */
  lemma {:induction false} NoRejectionNoStaleBytes<Id>(s: State<Id>, evs: seq<Event<Id>>, t: State<Id>)
    requires Inv(s) && Reaches(s, evs, t)
    requires forall i :: 0 <= i < |evs| ==> !evs[i].EarlyDataRejected?
    requires Fresh(s)
    ensures Fresh(t)
    decreases |evs|
  {
    if evs != [] {
      StepKeepsInv(s, evs[0]);
      StepKeepsFresh(s, evs[0]);
      NoRejectionNoStaleBytes(Step(s, evs[0]), evs[1..], t);
    }
  }

  /** Every entry counts exactly the bytes ngtcp2 took for the open stream, or nothing at all. */
  ghost predicate Fresh<Id>(s: State<Id>) {
    forall sid :: sid in s.entries ==>
      s.entries[sid].start <= |s.entries[sid].data.bytes| && Base(s.entries[sid], StreamFor(s, sid)) == 0
  }

  /** Growing an entry and its stream by the same amount keeps the state fresh. */
  lemma GrowthKeepsFresh<Id>(s: State<Id>, t: State<Id>, sid: StreamId, e: Entry<Id>, n: nat)
    requires Fresh(s) && sid in t.entries && t.entries == s.entries[sid := t.entries[sid]]
    requires forall b :: b != sid ==> StreamFor(t, b) == StreamFor(s, b)
    requires e.start <= |e.data.bytes| && Base(e, StreamFor(s, sid)) == 0
    requires t.entries[sid].start <= |t.entries[sid].data.bytes| && t.entries[sid].End() == e.End() + n
    requires |StreamFor(t, sid).sent| == |StreamFor(s, sid).sent| + n
    ensures Fresh(t)
  {
  }

  lemma WriteKeepsFresh<Id>(s: State<Id>, ev: Event<Id>)
    requires Inv(s) && ev.Write? && Enabled(s, ev) && Fresh(s)
    ensures Fresh(Step(s, ev))
  {
    var Write(sid, bytes, datalen, emptyId, newId, spare) := ev;
    WriteKeepsWellFormed(EntryFor(s, sid, emptyId), bytes, datalen, newId, spare);
    GrowthKeepsFresh(s, Step(s, ev), sid, EntryFor(s, sid, emptyId), Accepted(datalen));
  }

  lemma StepKeepsFresh<Id>(s: State<Id>, ev: Event<Id>)
    requires Inv(s) && Enabled(s, ev) && Fresh(s) && !ev.EarlyDataRejected?
    ensures Fresh(Step(s, ev))
  {
    match ev
    case Write(_, _, _, _, _, _) => WriteKeepsFresh(s, ev);
    case Ack(sid, offset, len) => AckKeepsWellFormed(s.entries[sid], offset + len);
    case Close(_) =>
  }

  /**
    The application's retry rule: each write offers a slice of the message that starts where
    ngtcp2 stopped taking.
   */
  ghost predicate Offers<Id>(s: State<Id>, evs: seq<Event<Id>>, sid: StreamId, message: seq<byte>)
    decreases |evs|
  {
    evs != [] ==>
      && Shaped(s) && Enabled(s, evs[0]) && OffersNext(s, evs[0], sid, message)
      && Offers(Step(s, evs[0]), evs[1..], sid, message)
  }

  /** The part of `Offers` about one event. */
  ghost predicate OffersNext<Id>(s: State<Id>, ev: Event<Id>, sid: StreamId, message: seq<byte>) {
    && !ev.EarlyDataRejected? && ev != Close(sid)
    && (ev.Write? && ev.sid == sid ==>
          |StreamFor(s, sid).sent| <= |message| && ev.bytes <= message[|StreamFor(s, sid).sent|..])
  }

  lemma PrefixExtends(sent: seq<byte>, message: seq<byte>, bytes: seq<byte>, n: nat)
    requires sent <= message && bytes <= message[|sent|..] && n <= |bytes|
    ensures sent + bytes[..n] <= message
  {
    assert message == sent + message[|sent|..];
  }

  lemma StepKeepsPrefix<Id>(s: State<Id>, ev: Event<Id>, sid: StreamId, message: seq<byte>)
    requires Shaped(s) && Enabled(s, ev) && OffersNext(s, ev, sid, message)
    requires StreamFor(s, sid).sent <= message
    ensures StreamFor(Step(s, ev), sid).sent <= message
  {
    if ev.Write? && ev.sid == sid && ev.datalen.Some? {
      PrefixExtends(StreamFor(s, sid).sent, message, ev.bytes, ev.datalen.value);
      assert StreamFor(Step(s, ev), sid).sent == StreamFor(s, sid).sent + ev.bytes[..ev.datalen.value];
    } else {
      assert StreamFor(Step(s, ev), sid).sent == StreamFor(s, sid).sent;
    }
  }

  lemma {:induction false} ReofferedTailFrom<Id>(s: State<Id>, evs: seq<Event<Id>>, t: State<Id>, sid: StreamId, message: seq<byte>)
    requires Reaches(s, evs, t) && Offers(s, evs, sid, message)
    requires StreamFor(s, sid).sent <= message
    ensures StreamFor(t, sid).sent <= message
    decreases |evs|
  {
    if evs != [] {
      StepKeepsPrefix(s, evs[0], sid, message);
      ReofferedTailFrom(Step(s, evs[0]), evs[1..], t, sid, message);
    }
  }

  /**
    A tail ngtcp2 did not take is neither lost nor sent twice: whatever prefixes it takes, the
    stream is a prefix of the message and the buffer holds exactly the part not acknowledged.
   */
  lemma ReofferedTail<Id>(evs: seq<Event<Id>>, t: State<Id>, sid: StreamId, message: seq<byte>)
    requires Reaches(Init(), evs, t) && Offers(Init(), evs, sid, message)
    requires sid in t.streams
    ensures sid in t.entries && t.entries[sid].start <= |t.entries[sid].data.bytes|
    ensures t.streams[sid].acked <= |t.streams[sid].sent| <= |message|
    ensures t.streams[sid].sent == message[..|t.streams[sid].sent|]
    ensures t.entries[sid].Unacked() == message[t.streams[sid].acked..|t.streams[sid].sent|]
  {
    NoRejectionWhileOffering(Init(), evs, sid, message);
    ReofferedTailFrom(Init(), evs, t, sid, message);
    NoRejectionNoStaleBytes(Init(), evs, t);
    QueueRefinement(evs, t, sid);
    var s := t.streams[sid];
    assert s.sent[s.acked..] == message[s.acked..|s.sent|];
  }

  lemma {:induction false} NoRejectionWhileOffering<Id>(s: State<Id>, evs: seq<Event<Id>>, sid: StreamId, message: seq<byte>)
    requires Offers(s, evs, sid, message)
    ensures forall i :: 0 <= i < |evs| ==> !evs[i].EarlyDataRejected?
    decreases |evs|
  {
    if evs != [] {
      NoRejectionWhileOffering(Step(s, evs[0]), evs[1..], sid, message);
      forall i | 0 <= i < |evs| ensures !evs[i].EarlyDataRejected? {
        if i > 0 {
          assert evs[i] == evs[1..][i - 1];
        }
      }
    }
  }
}

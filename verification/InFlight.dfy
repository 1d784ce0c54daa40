/**
  The send buffer kept for one stream (`InFlightStreamData` in ngtcp2/src/conn.rs), as a value.

  `Id` identifies a heap allocation. A buffer keeps its `Id` for as long as it is not reallocated,
  so a raw pointer handed to ngtcp2 is a pair of an `Id` and an index.
 */
module InFlight {
  import opened Octets

  datatype Buffer<Id> = Buffer(id: Id, capacity: nat, bytes: seq<byte>)

  /** An old allocation kept alive after a swap; `end` is the exclusive stream offset of its data. */
  datatype Retired<Id> = Retired(buffer: Buffer<Id>, end: nat)

  datatype Entry<Id> = Entry(offset: nat, data: Buffer<Id>, start: nat, retired: seq<Retired<Id>>) {

    /** Bytes written and not yet acknowledged. */
    ghost function Unacked(): seq<byte>
      requires start <= |data.bytes|
    {
      data.bytes[start..]
    }

    /** The stream offset just after the last byte held. */
    ghost function End(): nat
      requires start <= |data.bytes|
    {
      offset + |data.bytes| - start
    }

    /** The allocations held: the current buffer, then the retired ones. */
    ghost function Held(i: nat): Buffer<Id>
      requires i <= |retired|
    {
      if i == 0 then data else retired[i - 1].buffer
    }

    ghost predicate Unused(id: Id) {
      forall i :: 0 <= i <= |retired| ==> Held(i).id != id
    }

    /** The identity is that of a new allocation, if adding so many bytes takes one. */
    ghost predicate Available(id: Id, added: nat) {
      |data.bytes| + added <= data.capacity || Unused(id)
    }
  }

  // ---------------------------------------------------------------- operations

  /** `Vec::retain` on the retired buffers. */
  function Release<Id>(retired: seq<Retired<Id>>, offset: nat): seq<Retired<Id>> {
    if retired == [] then []
    else if retired[0].end > offset then [retired[0]] + Release(retired[1..], offset)
    else Release(retired[1..], offset)
  }

  function AckUntil<Id>(e: Entry<Id>, offset: nat): Entry<Id>
    requires e.start <= |e.data.bytes|
  {
    if offset <= e.offset then e
    else
      var acked := Min(offset - e.offset, |e.data.bytes| - e.start);
      var start := e.start + acked;
      var retired := Release(e.retired, e.offset + acked);
      if start == |e.data.bytes| then
        Entry(e.offset + acked, e.data.(bytes := []), 0, retired)
      else
        Entry(e.offset + acked, e.data, start, retired)
  }

  /** The capacity asked of the allocator when the bytes do not fit. */
  function Grown<Id>(b: Buffer<Id>, added: nat): nat {
    Max(|b.bytes| + added, 2 * b.capacity)
  }

  /**
    The buffer swap of `append`. `newId` is the new allocation and `spare` the capacity the
    allocator grants beyond the request.
   */
  function Reserve<Id>(e: Entry<Id>, added: nat, newId: Id, spare: nat): Entry<Id>
    requires e.start <= |e.data.bytes|
  {
    if |e.data.bytes| + added <= e.data.capacity then e
    else
      var capacity := Grown(e.data, added) + spare;
      if e.data.bytes == [] then e.(data := Buffer(newId, capacity, []))
      else
        Swap(e, newId, capacity)
  }

  /** Copy the unacknowledged bytes to a new allocation and retire the old one. */
  function Swap<Id>(e: Entry<Id>, newId: Id, capacity: nat): Entry<Id>
    requires e.start <= |e.data.bytes|
  {
    var end := e.offset + |e.data.bytes| - e.start;
    Entry(e.offset, Buffer(newId, capacity, e.data.bytes[e.start..]), 0,
          e.retired + [Retired(e.data, end)])
  }

  function Append<Id>(e: Entry<Id>, bytes: seq<byte>, newId: Id, spare: nat): Entry<Id>
    requires e.start <= |e.data.bytes|
  {
    var r := Reserve(e, |bytes|, newId, spare);
    r.(data := r.data.(bytes := r.data.bytes + bytes))
  }

  /** Where `append` put the bytes: the start of the range it returns. */
  function AppendedAt<Id>(e: Entry<Id>, added: nat, newId: Id, spare: nat): nat
    requires e.start <= |e.data.bytes|
  {
    |Reserve(e, added, newId, spare).data.bytes|
  }

  function TruncateUnwritten<Id>(e: Entry<Id>, len: nat): Entry<Id> {
    if e.start + len < |e.data.bytes| then
      e.(data := e.data.(bytes := e.data.bytes[..e.start + len]))
    else e
  }

  /** The number of bytes ngtcp2 reports to have taken; it reports -1 as `None`. */
  function Accepted(datalen: Option<nat>): nat {
    if datalen.Some? then datalen.value else 0
  }

  /**
    The buffering discipline of `write_stream_with_flags`: append, let ngtcp2 take a prefix, drop
    the tail it did not take. `datalen` is what ngtcp2 reported.
   */
  function WriteEntry<Id>(e: Entry<Id>, bytes: seq<byte>, datalen: Option<nat>, newId: Id, spare: nat): Entry<Id>
    requires e.start <= |e.data.bytes|
  {
    var at := AppendedAt(e, |bytes|, newId, spare);
    var appended := Append(e, bytes, newId, spare);
    TruncateUnwritten(appended, Max(at - appended.start, 0) + Accepted(datalen))
  }

  // ---------------------------------------------------------------- invariant of one entry

  function Capacities<Id>(retired: seq<Retired<Id>>): nat {
    if retired == [] then 0 else Capacities(retired[..|retired| - 1]) + retired[|retired| - 1].buffer.capacity
  }

  ghost predicate DistinctIds<Id>(e: Entry<Id>) {
    forall i, j :: 0 <= i < j <= |e.retired| ==> e.Held(i).id != e.Held(j).id
  }

  ghost predicate Sized<Id>(e: Entry<Id>) {
    (e.start < |e.data.bytes| || e.start == |e.data.bytes| == 0) && |e.data.bytes| <= e.data.capacity
  }

  ghost predicate Ordered<Id>(retired: seq<Retired<Id>>) {
    forall i, j :: 0 <= i < j < |retired| ==> retired[i].end <= retired[j].end
  }

  /** A buffer is retired exactly while the data it holds is not fully acknowledged. */
  ghost predicate EndsWithin<Id>(retired: seq<Retired<Id>>, offset: nat, end: nat) {
    forall i :: 0 <= i < |retired| ==> offset < retired[i].end <= end
  }

  ghost predicate WellFormed<Id>(e: Entry<Id>) {
    && Sized(e)
    && DistinctIds(e)
    && Ordered(e.retired)
    && EndsWithin(e.retired, e.offset, e.End())
    // retention bound: everything retired fits in the current buffer's capacity
    && Capacities(e.retired) <= e.data.capacity
  }

  /** A new entry: `Vec::new()` has no capacity, so no pointer into it is ever handed out. */
  function NewEntry<Id>(id: Id): (e: Entry<Id>)
    ensures WellFormed(e) && e.Unacked() == [] && e.offset == 0
  {
    Entry(0, Buffer(id, 0, []), 0, [])
  }

  // ---------------------------------------------------------------- pointers held by ngtcp2

  datatype Pointer<Id> = Pointer(id: Id, index: nat)

  ghost predicate Points<Id>(b: Buffer<Id>, p: Pointer<Id>, x: byte) {
    p.id == b.id && p.index < |b.bytes| && b.bytes[p.index] == x
  }

  /** The pointer is into an allocation that is still held, and reads `x` there. */
  ghost predicate Reads<Id>(e: Entry<Id>, p: Pointer<Id>, x: byte) {
    exists i :: 0 <= i <= |e.retired| && Points(e.Held(i), p, x)
  }

  /**
    ngtcp2's side of a stream: what it accepted, how much of it was acknowledged, and the pointer
    it keeps for each accepted byte. It holds no copy of the bytes; `sent` is what they were.
   */
  datatype Stream<Id> = Stream(sent: seq<byte>, acked: nat, ptrs: seq<Pointer<Id>>)

  /**
    Stream offsets and entry offsets differ by the bytes of an earlier use of the same stream ID,
    which ngtcp2 discarded when 0-RTT was rejected and the entry still counts.
   */
  ghost function Base<Id>(e: Entry<Id>, s: Stream<Id>): int
    requires e.start <= |e.data.bytes|
  {
    e.End() - |s.sent|
  }

  /** Byte `o` of the stream is in the current buffer, at its place in the unacknowledged bytes. */
  ghost predicate Current<Id>(e: Entry<Id>, s: Stream<Id>, o: nat)
    requires e.start <= |e.data.bytes| && o < |s.sent|
  {
    var i := e.start + Base(e, s) + o - e.offset;
    0 <= i < |e.data.bytes| && e.data.bytes[i] == s.sent[o]
  }

  ghost predicate PointsCurrent<Id>(e: Entry<Id>, s: Stream<Id>, o: nat)
    requires e.start <= |e.data.bytes| && o < |s.sent| == |s.ptrs|
  {
    s.ptrs[o].id == e.data.id && s.ptrs[o].index == e.start + Base(e, s) + o - e.offset
  }

  ghost predicate PointsRetired<Id>(e: Entry<Id>, s: Stream<Id>, o: nat)
    requires e.start <= |e.data.bytes| && o < |s.sent| == |s.ptrs|
  {
    exists i :: 0 <= i < |e.retired| && Base(e, s) + o < e.retired[i].end
                && Points(e.retired[i].buffer, s.ptrs[o], s.sent[o])
  }

  ghost predicate Tracks<Id>(e: Entry<Id>, s: Stream<Id>) {
    && e.start <= |e.data.bytes|
    && |s.ptrs| == |s.sent|
    && s.acked <= |s.sent|
    && 0 <= Base(e, s)
    && e.offset <= Base(e, s) + s.acked
    && (Base(e, s) == 0 ==> e.offset == s.acked)
    && forall o :: s.acked <= o < |s.sent| ==>
         Current(e, s, o) && (PointsCurrent(e, s, o) || PointsRetired(e, s, o))
  }

  // ---------------------------------------------------------------- acknowledgements

  /** A retired buffer is released exactly when the acknowledged offset reaches its end. */
  lemma {:induction false} ReleaseDropsPrefix<Id>(retired: seq<Retired<Id>>, offset: nat) returns (k: nat)
    requires Ordered(retired)
    ensures k <= |retired| && Release(retired, offset) == retired[k..]
    ensures forall i :: 0 <= i < |retired| ==> (retired[i].end <= offset <==> i < k)
  {
    if retired == [] {
      k := 0;
    } else if retired[0].end > offset {
      NothingReleased(retired, offset);
      k := 0;
    } else {
      k := ReleaseDropsPrefix(retired[1..], offset);
      assert forall i :: 0 < i < |retired| ==> retired[i] == retired[1..][i - 1];
      k := k + 1;
    }
  }

  lemma {:induction false} NothingReleased<Id>(retired: seq<Retired<Id>>, offset: nat)
    requires forall i :: 0 <= i < |retired| ==> retired[i].end > offset
    ensures Release(retired, offset) == retired
  {
    if retired != [] {
      NothingReleased(retired[1..], offset);
    }
  }

  lemma {:induction false} CapacitiesOfSuffix<Id>(retired: seq<Retired<Id>>, k: nat)
    requires k <= |retired|
    ensures Capacities(retired[k..]) <= Capacities(retired)
    decreases |retired|
  {
    if k < |retired| {
      var n := |retired| - 1;
      CapacitiesOfSuffix(retired[..n], k);
      assert retired[k..][..n - k] == retired[..n][k..];
    }
  }

  /** `f` holds the current allocation of `e` and all but the first `k` retired ones. */
  ghost predicate DropsRetired<Id>(f: Entry<Id>, e: Entry<Id>, k: nat) {
    k <= |e.retired| && f.data.id == e.data.id && f.retired == e.retired[k..]
  }

  lemma DropMovesHeld<Id>(f: Entry<Id>, e: Entry<Id>, k: nat, i: nat)
    requires DropsRetired(f, e, k) && i <= |f.retired|
    ensures f.Held(i).id == e.Held(if i == 0 then 0 else k + i).id
  {
  }

  lemma DropKeepsDistinct<Id>(f: Entry<Id>, e: Entry<Id>, k: nat)
    requires DropsRetired(f, e, k) && DistinctIds(e)
    ensures DistinctIds(f)
  {
    forall i, j | 0 <= i < j <= |f.retired| ensures f.Held(i).id != f.Held(j).id {
      DropMovesHeld(f, e, k, i);
      DropMovesHeld(f, e, k, j);
    }
  }

  lemma DropKeepsUnused<Id>(f: Entry<Id>, e: Entry<Id>, k: nat, id: Id)
    requires DropsRetired(f, e, k) && e.Unused(id)
    ensures f.Unused(id)
  {
    forall i | 0 <= i <= |f.retired| ensures f.Held(i).id != id {
      DropMovesHeld(f, e, k, i);
    }
  }

  lemma AckDropsRetired<Id>(e: Entry<Id>, offset: nat) returns (k: nat)
    requires e.start <= |e.data.bytes| && Ordered(e.retired) && offset > e.offset
    ensures DropsRetired(AckUntil(e, offset), e, k)
    ensures forall i :: 0 <= i < |e.retired| ==> (e.retired[i].end <= AckUntil(e, offset).offset <==> i < k)
  {
    k := ReleaseDropsPrefix(e.retired, AckUntil(e, offset).offset);
  }

  lemma AckKeepsSized<Id>(e: Entry<Id>, offset: nat)
    requires Sized(e)
    ensures Sized(AckUntil(e, offset)) && AckUntil(e, offset).End() == e.End()
    ensures AckUntil(e, offset).data.capacity == e.data.capacity
  {
  }

  lemma SuffixKeepsOrder<Id>(retired: seq<Retired<Id>>, k: nat, low: nat, offset: nat, end: nat)
    requires k <= |retired| && Ordered(retired) && EndsWithin(retired, low, end)
    requires forall i :: 0 <= i < |retired| ==> (retired[i].end <= offset <==> i < k)
    ensures Ordered(retired[k..]) && EndsWithin(retired[k..], offset, end)
  {
    var rest := retired[k..];
    forall i | 0 <= i < |rest| ensures offset < rest[i].end <= end {
      assert rest[i] == retired[k + i];
    }
  }

  lemma AckKeepsWellFormed<Id>(e: Entry<Id>, offset: nat)
    requires WellFormed(e)
    ensures WellFormed(AckUntil(e, offset))
    ensures AckUntil(e, offset).End() == e.End()
  {
    AckKeepsSized(e, offset);
    if offset > e.offset {
      var f := AckUntil(e, offset);
      var k := AckDropsRetired(e, offset);
      CapacitiesOfSuffix(e.retired, k);
      DropKeepsDistinct(f, e, k);
      SuffixKeepsOrder(e.retired, k, e.offset, f.offset, e.End());
    }
  }

  lemma AckKeepsUnused<Id>(e: Entry<Id>, offset: nat, id: Id)
    requires WellFormed(e) && e.Unused(id)
    ensures AckUntil(e, offset).Unused(id)
  {
    if offset > e.offset {
      var k := AckDropsRetired(e, offset);
      DropKeepsUnused(AckUntil(e, offset), e, k, id);
    }
  }

  /** As long as a byte is outstanding an acknowledgement only moves the start of the data. */
  lemma AckMovesStart<Id>(e: Entry<Id>, s: Stream<Id>, n: nat, o: nat)
    requires WellFormed(e) && Tracks(e, s)
    requires s.acked <= n <= o < |s.sent| && e.offset < n
    ensures var f := AckUntil(e, n);
            f.data == e.data && f.start - e.start == f.offset - e.offset && f.offset <= Base(e, s) + o
  {
    assert |e.data.bytes| - e.start == Base(e, s) + |s.sent| - e.offset;
  }

  lemma ReleaseKeepsPointer<Id>(e: Entry<Id>, f: Entry<Id>, s: Stream<Id>, t: Stream<Id>, o: nat)
    requires e.start <= |e.data.bytes| && f.start <= |f.data.bytes| && o < |s.sent| == |s.ptrs|
    requires Ordered(e.retired) && f.retired == Release(e.retired, f.offset)
    requires t.sent == s.sent && t.ptrs == s.ptrs && Base(f, t) == Base(e, s)
    requires f.offset <= Base(e, s) + o && PointsRetired(e, s, o)
    ensures PointsRetired(f, t, o)
  {
    var i :| 0 <= i < |e.retired| && Base(e, s) + o < e.retired[i].end
             && Points(e.retired[i].buffer, s.ptrs[o], s.sent[o]);
    var k := ReleaseDropsPrefix(e.retired, f.offset);
    assert f.retired[i - k] == e.retired[i];
  }

  lemma AckKeepsPointer<Id>(e: Entry<Id>, s: Stream<Id>, n: nat, o: nat)
    requires WellFormed(e) && Tracks(e, s)
    requires s.acked <= n <= o < |s.sent| && e.offset < n
    ensures var f, t := AckUntil(e, n), s.(acked := n);
            f.start <= |f.data.bytes| && Current(f, t, o) && (PointsCurrent(f, t, o) || PointsRetired(f, t, o))
  {
    AckMovesStart(e, s, n, o);
    var f, t := AckUntil(e, n), s.(acked := n);
    assert Current(e, s, o) && (PointsCurrent(e, s, o) || PointsRetired(e, s, o));
    assert Base(f, t) == Base(e, s);
    if !PointsCurrent(e, s, o) {
      ReleaseKeepsPointer(e, f, s, t, o);
    }
  }

  lemma AckKeepsTracks<Id>(e: Entry<Id>, s: Stream<Id>, n: nat)
    requires WellFormed(e) && Tracks(e, s)
    requires s.acked <= n <= |s.sent|
    ensures Tracks(AckUntil(e, n), s.(acked := n))
  {
    AckKeepsWellFormed(e, n);
    var f, t := AckUntil(e, n), s.(acked := n);
    assert Base(f, t) == Base(e, s);
    forall o | n <= o < |s.sent|
      ensures Current(f, t, o) && (PointsCurrent(f, t, o) || PointsRetired(f, t, o))
    {
      if e.offset < n {
        AckKeepsPointer(e, s, n, o);
      } else {
        SameEntryKeepsPointer(e, s, n, o);
      }
    }
  }

  lemma SameEntryKeepsPointer<Id>(e: Entry<Id>, s: Stream<Id>, n: nat, o: nat)
    requires Tracks(e, s) && s.acked <= n <= o < |s.sent|
    ensures var t := s.(acked := n);
            Current(e, t, o) && (PointsCurrent(e, t, o) || PointsRetired(e, t, o))
  {
    assert Current(e, s, o) && (PointsCurrent(e, s, o) || PointsRetired(e, s, o));
  }

  // ---------------------------------------------------------------- writes

  lemma SwapKeepsDistinct<Id>(e: Entry<Id>, newId: Id, capacity: nat)
    requires e.start <= |e.data.bytes| && DistinctIds(e) && e.Unused(newId)
    ensures DistinctIds(Swap(e, newId, capacity))
  {
    var f := Swap(e, newId, capacity);
    forall i, j | 0 <= i < j <= |f.retired| ensures f.Held(i).id != f.Held(j).id {
      SwapMovesHeld(e, newId, capacity, j);
      if i > 0 {
        SwapMovesHeld(e, newId, capacity, i);
      }
    }
  }

  lemma PushKeepsOrder<Id>(retired: seq<Retired<Id>>, r: Retired<Id>, offset: nat)
    requires Ordered(retired) && EndsWithin(retired, offset, r.end) && offset < r.end
    ensures Ordered(retired + [r]) && EndsWithin(retired + [r], offset, r.end)
  {
  }

  lemma PushCapacity<Id>(retired: seq<Retired<Id>>, r: Retired<Id>)
    ensures Capacities(retired + [r]) == Capacities(retired) + r.buffer.capacity
  {
    assert (retired + [r])[..|retired|] == retired;
  }

  lemma SwapKeepsSized<Id>(e: Entry<Id>, newId: Id, capacity: nat)
    requires Sized(e) && e.data.bytes != [] && capacity >= |e.data.bytes|
    ensures Sized(Swap(e, newId, capacity))
    ensures Swap(e, newId, capacity).End() == e.End()
    ensures Swap(e, newId, capacity).Unacked() == e.Unacked()
  {
  }

  lemma SwapKeepsRetired<Id>(e: Entry<Id>, newId: Id, capacity: nat)
    requires e.start < |e.data.bytes| && Ordered(e.retired) && EndsWithin(e.retired, e.offset, e.End())
    requires Capacities(e.retired) <= e.data.capacity && capacity >= 2 * e.data.capacity
    ensures var f := Swap(e, newId, capacity);
            Ordered(f.retired) && EndsWithin(f.retired, f.offset, e.End()) && Capacities(f.retired) <= capacity
  {
    PushKeepsOrder(e.retired, Retired(e.data, e.End()), e.offset);
    PushCapacity(e.retired, Retired(e.data, e.End()));
  }

  lemma SwapKeepsWellFormed<Id>(e: Entry<Id>, newId: Id, capacity: nat)
    requires WellFormed(e) && e.Unused(newId) && e.data.bytes != []
    requires capacity >= |e.data.bytes| && capacity >= 2 * e.data.capacity
    ensures WellFormed(Swap(e, newId, capacity))
  {
    SwapKeepsSized(e, newId, capacity);
    SwapKeepsDistinct(e, newId, capacity);
    SwapKeepsRetired(e, newId, capacity);
  }

  lemma SwapMovesHeld<Id>(e: Entry<Id>, newId: Id, capacity: nat, i: nat)
    requires e.start <= |e.data.bytes|
    requires 0 < i <= |e.retired| + 1
    ensures Swap(e, newId, capacity).Held(i) == e.Held(if i <= |e.retired| then i else 0)
  {
  }

  lemma SwapKeepsTracks<Id>(e: Entry<Id>, s: Stream<Id>, newId: Id, capacity: nat)
    requires WellFormed(e) && Tracks(e, s) && e.data.bytes != []
    ensures Tracks(Swap(e, newId, capacity), s)
  {
    var f := Swap(e, newId, capacity);
    var m := |e.retired|;
    assert Base(f, s) == Base(e, s);
    forall o | s.acked <= o < |s.sent| ensures Current(f, s, o) && PointsRetired(f, s, o) {
      assert Current(e, s, o);
      if PointsCurrent(e, s, o) {
        assert f.retired[m] == Retired(e.data, e.End());
      } else {
        var i :| 0 <= i < m && Base(e, s) + o < e.retired[i].end
                 && Points(e.retired[i].buffer, s.ptrs[o], s.sent[o]);
        assert f.retired[i] == e.retired[i];
      }
    }
  }

  /** An entry with no data has nothing retired, so replacing its buffer frees nothing in use. */
  lemma EmptyHasNoRetired<Id>(e: Entry<Id>)
    requires WellFormed(e) && e.data.bytes == []
    ensures e.retired == []
  {
  }

  lemma ReserveKeepsWellFormed<Id>(e: Entry<Id>, added: nat, newId: Id, spare: nat)
    requires WellFormed(e) && e.Available(newId, added)
    ensures WellFormed(Reserve(e, added, newId, spare))
    ensures Reserve(e, added, newId, spare).End() == e.End()
    ensures Reserve(e, added, newId, spare).Unacked() == e.Unacked()
    ensures |Reserve(e, added, newId, spare).data.bytes| + added <= Reserve(e, added, newId, spare).data.capacity
  {
    if e.data.bytes == [] {
      EmptyHasNoRetired(e);
    } else if |e.data.bytes| + added > e.data.capacity {
      SwapKeepsSized(e, newId, Grown(e.data, added) + spare);
      SwapKeepsWellFormed(e, newId, Grown(e.data, added) + spare);
    }
  }

  lemma ReserveKeepsTracks<Id>(e: Entry<Id>, s: Stream<Id>, added: nat, newId: Id, spare: nat)
    requires WellFormed(e) && Tracks(e, s)
    ensures Tracks(Reserve(e, added, newId, spare), s)
  {
    if e.data.bytes == [] {
      EmptyHasNoRetired(e);
      assert Base(Reserve(e, added, newId, spare), s) == Base(e, s);
    } else {
      SwapKeepsTracks(e, s, newId, Grown(e.data, added) + spare);
    }
  }

  /** What ngtcp2 remembers after taking the first `n` of the bytes offered at `at`. */
  ghost function Taken<Id>(s: Stream<Id>, bytes: seq<byte>, n: nat, id: Id, at: nat): Stream<Id>
    requires n <= |bytes|
  {
    Stream(s.sent + bytes[..n], s.acked, s.ptrs + seq(n, i requires 0 <= i < n => Pointer(id, at + i)))
  }

  function Extend<Id>(e: Entry<Id>, bytes: seq<byte>): Entry<Id> {
    e.(data := e.data.(bytes := e.data.bytes + bytes))
  }

  /** A write is a swap if the bytes do not fit, and then an in-place append of what was accepted. */
  lemma WriteIsReserveThenExtend<Id>(e: Entry<Id>, bytes: seq<byte>, datalen: Option<nat>, newId: Id, spare: nat)
    requires WellFormed(e) && e.Available(newId, |bytes|)
    requires Accepted(datalen) <= |bytes|
    ensures WriteEntry(e, bytes, datalen, newId, spare)
            == Extend(Reserve(e, |bytes|, newId, spare), bytes[..Accepted(datalen)])
  {
    var r := Reserve(e, |bytes|, newId, spare);
    ReserveKeepsWellFormed(e, |bytes|, newId, spare);
    var n := Accepted(datalen);
    assert (r.data.bytes + bytes)[..|r.data.bytes| + n] == r.data.bytes + bytes[..n];
    if n == |bytes| {
      assert bytes[..n] == bytes;
    }
  }

  lemma WriteKeepsWellFormed<Id>(e: Entry<Id>, bytes: seq<byte>, datalen: Option<nat>, newId: Id, spare: nat)
    requires WellFormed(e) && e.Available(newId, |bytes|)
    requires Accepted(datalen) <= |bytes|
    ensures WellFormed(WriteEntry(e, bytes, datalen, newId, spare))
    ensures WriteEntry(e, bytes, datalen, newId, spare).Unacked() == e.Unacked() + bytes[..Accepted(datalen)]
    ensures WriteEntry(e, bytes, datalen, newId, spare).End() == e.End() + Accepted(datalen)
  {
    ReserveKeepsWellFormed(e, |bytes|, newId, spare);
    WriteIsReserveThenExtend(e, bytes, datalen, newId, spare);
    ExtendKeepsWellFormed(Reserve(e, |bytes|, newId, spare), bytes[..Accepted(datalen)]);
  }

  lemma ExtendKeepsWellFormed<Id>(e: Entry<Id>, bytes: seq<byte>)
    requires WellFormed(e) && |e.data.bytes| + |bytes| <= e.data.capacity
    ensures WellFormed(Extend(e, bytes))
    ensures Extend(e, bytes).Unacked() == e.Unacked() + bytes
  {
    var f := Extend(e, bytes);
    assert forall i :: 0 <= i <= |f.retired| ==> f.Held(i).id == e.Held(i).id;
  }

  lemma WriteKeepsUnused<Id>(e: Entry<Id>, bytes: seq<byte>, datalen: Option<nat>, newId: Id, spare: nat, id: Id)
    requires WellFormed(e) && e.Available(newId, |bytes|) && e.Unused(id)
    requires |e.data.bytes| + |bytes| > e.data.capacity ==> id != newId
    requires Accepted(datalen) <= |bytes|
    ensures WriteEntry(e, bytes, datalen, newId, spare).Unused(id)
  {
    WriteIsReserveThenExtend(e, bytes, datalen, newId, spare);
    var r := Reserve(e, |bytes|, newId, spare);
    var f := WriteEntry(e, bytes, datalen, newId, spare);
    forall i | 0 <= i <= |f.retired| ensures f.Held(i).id != id {
      assert f.Held(i).id == r.Held(i).id;
      if i > 0 && r != e && e.data.bytes != [] {
        SwapMovesHeld(e, newId, Grown(e.data, |bytes|) + spare, i);
      } else if i > 0 {
        assert f.Held(i).id == e.Held(i).id;
      }
      assert e.Held(0).id != id;
    }
  }

  lemma WriteKeepsTracks<Id>(e: Entry<Id>, s: Stream<Id>, bytes: seq<byte>, datalen: Option<nat>, newId: Id, spare: nat)
    requires WellFormed(e) && e.Available(newId, |bytes|) && Tracks(e, s)
    requires Accepted(datalen) <= |bytes|
    ensures var f := WriteEntry(e, bytes, datalen, newId, spare);
            Tracks(f, Taken(s, bytes, Accepted(datalen), f.data.id, AppendedAt(e, |bytes|, newId, spare)))
  {
    ReserveKeepsWellFormed(e, |bytes|, newId, spare);
    ReserveKeepsTracks(e, s, |bytes|, newId, spare);
    WriteIsReserveThenExtend(e, bytes, datalen, newId, spare);
    ExtendKeepsTracks(Reserve(e, |bytes|, newId, spare), s, bytes, Accepted(datalen));
  }

  lemma ExtendKeepsTracks<Id>(e: Entry<Id>, s: Stream<Id>, bytes: seq<byte>, n: nat)
    requires WellFormed(e) && Tracks(e, s) && n <= |bytes|
    ensures Tracks(Extend(e, bytes[..n]), Taken(s, bytes, n, e.data.id, |e.data.bytes|))
  {
    var f := Extend(e, bytes[..n]);
    var t := Taken(s, bytes, n, e.data.id, |e.data.bytes|);
    assert Base(f, t) == Base(e, s);
    forall o | t.acked <= o < |t.sent|
      ensures Current(f, t, o) && (PointsCurrent(f, t, o) || PointsRetired(f, t, o))
    {
      if o < |s.sent| {
        assert Current(e, s, o);
        if PointsRetired(e, s, o) {
          var i :| 0 <= i < |e.retired| && Base(e, s) + o < e.retired[i].end
                   && Points(e.retired[i].buffer, s.ptrs[o], s.sent[o]);
          assert f.retired[i] == e.retired[i];
        }
      }
    }
  }
}

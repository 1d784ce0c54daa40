/**
  `InFlightStreamData` of ngtcp2/src/conn.rs as the source has it: fields updated in place over
  heap-allocated byte arrays. The allocation identity of the `InFlight` model is the array itself.
 */
module SendBuffer {
  import opened Octets
  import opened InFlight
  import SendStreams

  /** An allocation with its length in use, kept until `end` is acknowledged. */
  datatype RetiredBuffer = RetiredBuffer(data: array<byte>, len: nat, end: nat)

  ghost predicate Sound(rs: seq<RetiredBuffer>) {
    forall i :: 0 <= i < |rs| ==> rs[i].len <= rs[i].data.Length
  }

  ghost function ArraysOf(rs: seq<RetiredBuffer>): set<array<byte>> {
    set i | 0 <= i < |rs| :: rs[i].data
  }

  ghost function ViewOf(rs: seq<RetiredBuffer>): (vs: seq<Retired<array<byte>>>)
    requires Sound(rs)
    reads ArraysOf(rs)
    ensures |vs| == |rs|
    ensures forall i :: 0 <= i < |rs| ==>
      vs[i] == Retired(Buffer(rs[i].data, rs[i].data.Length, rs[i].data[..rs[i].len]), rs[i].end)
  {
    seq(|rs|, i requires 0 <= i < |rs| && Sound(rs) reads ArraysOf(rs) =>
      Retired(Buffer(rs[i].data, rs[i].data.Length, rs[i].data[..rs[i].len]), rs[i].end))
  }

  /** `AckUntil` in the two steps of the source: the start moves, then covered buffers go. */
  lemma AdvanceThenRelease<Id>(e: Entry<Id>, f: Entry<Id>, target: nat, acked: nat)
    requires e.start <= |e.data.bytes| && target > e.offset
    requires acked == Min(target - e.offset, |e.data.bytes| - e.start)
    requires f == if e.start + acked == |e.data.bytes|
                  then Entry(e.offset + acked, e.data.(bytes := []), 0, e.retired)
                  else Entry(e.offset + acked, e.data, e.start + acked, e.retired)
    ensures InFlight.AckUntil(e, target) == f.(retired := Release(f.retired, f.offset))
  {
  }

  class InFlightStreamData {
    var offset: nat
    // `Vec<u8>`: the array is the allocation, its length the capacity, `len` the length in use
    var data: array<byte>
    var len: nat
    var start: nat
    var retired: seq<RetiredBuffer>

    /** The arrays the entry has ever held; the ones it holds now are among them. */
    ghost var repr: set<array<byte>>

    ghost predicate Valid()
      reads this
    {
      && start <= len <= data.Length
      && Sound(retired) && data !in ArraysOf(retired)
      && data in repr && ArraysOf(retired) <= repr
    }

    ghost function View(): Entry<array<byte>>
      requires Valid()
      reads this, repr
    {
      Entry(offset, Buffer(data, data.Length, data[..len]), start, ViewOf(retired))
    }

    /** An entry that was not written is the entry it was. */
    twostate lemma Same()
      requires old(Valid()) && unchanged(this) && unchanged(repr)
      ensures Valid() && View() == old(View())
    {
      assert ViewOf(retired) == old(ViewOf(retired));
    }

    constructor ()
      ensures Valid() && fresh(repr)
      ensures View() == NewEntry(data)
    {
      offset, start, len, retired := 0, 0, 0, [];
      data := new byte[0];
      repr := {data};
    }

    method AckUntil(target: nat)
      requires Valid()
      modifies this`offset, this`start, this`len, this`retired
      ensures Valid()
      ensures View() == InFlight.AckUntil(old(View()), target)
    {
      if target <= offset {
        return;
      }
      ghost var before := View();
      var acked := Min(target - offset, len - start);
      Advance(acked);
      ghost var advanced := View();
      ReleaseAcked();
      AdvanceThenRelease(before, advanced, target, acked);
    }

    method ReleaseAcked()
      requires Valid()
      modifies this`retired
      ensures Valid()
      ensures View() == old(View()).(retired := Release(old(View()).retired, offset))
    {
      retired := Retain(retired, offset);
    }

    /** Moves the start of the data; the bytes are not moved, and are dropped once all are passed. */
    method Advance(acked: nat)
      requires Valid() && start + acked <= len
      modifies this`offset, this`start, this`len
      ensures Valid() && offset == old(offset) + acked
      ensures View() == if old(start) + acked == old(len)
                        then Entry(old(offset) + acked, old(View()).data.(bytes := []), 0, old(View()).retired)
                        else Entry(old(offset) + acked, old(View()).data, old(start) + acked, old(View()).retired)
    {
      offset := offset + acked;
      start := start + acked;
      if start == len {
        len, start := 0, 0;
      }
    }

    /** `Vec::retain` with the source's condition. */
    static method Retain(rs: seq<RetiredBuffer>, offset: nat) returns (kept: seq<RetiredBuffer>)
      requires Sound(rs)
      ensures Sound(kept) && ArraysOf(kept) <= ArraysOf(rs)
      ensures ViewOf(kept) == Release(ViewOf(rs), offset)
    {
      kept := [];
      var i := |rs|;
      while i > 0
        invariant 0 <= i <= |rs| && Sound(kept) && ArraysOf(kept) <= ArraysOf(rs)
        invariant ViewOf(kept) == Release(ViewOf(rs)[i..], offset)
      {
        i := i - 1;
        assert ViewOf(rs)[i..] == [ViewOf(rs)[i]] + ViewOf(rs)[i + 1..];
        if rs[i].end > offset {
          ghost var before := ViewOf(kept);
          kept := [rs[i]] + kept;
          assert ViewOf(kept) == [ViewOf(rs)[i]] + before;
        }
      }
      assert ViewOf(rs)[0..] == ViewOf(rs);
    }

    /** Appends the bytes and returns where they start. */
    method Append(bytes: seq<byte>, spare: nat) returns (at: nat)
      requires Valid()
      modifies this, data
      ensures Valid() && repr == old(repr) + {data} && fresh(repr - old(repr))
      ensures if old(len) + |bytes| <= old(data).Length then data == old(data) else fresh(data)
      ensures View() == InFlight.Append(old(View()), bytes, data, spare)
      ensures at == AppendedAt(old(View()), |bytes|, data, spare)
    {
      ghost var before := View();
      if len + |bytes| > data.Length {
        Swap(Max(len + |bytes|, 2 * data.Length) + spare);
      }
      ghost var reserved := View();
      assert reserved == Reserve(before, |bytes|, data, spare);
      at := len;
      CopyIn(bytes);
    }

    /** Replaces the allocation; the old one is retired if it holds data. */
    method Swap(capacity: nat)
      requires Valid() && capacity >= len
      modifies this
      ensures Valid() && fresh(data) && data.Length == capacity && len <= old(len)
      ensures View() == if old(View()).data.bytes == [] then old(View()).(data := Buffer(data, capacity, []))
                        else InFlight.Swap(old(View()), data, capacity)
      ensures repr == old(repr) + {data}
    {
      var newData := CopyOut(capacity);
      if len == 0 {
        data := newData;
        repr := repr + {newData};
      } else {
        Install(newData);
      }
    }

    /** Retires the current allocation and goes on with the one its unacknowledged bytes were copied to. */
    method Install(newData: array<byte>)
      requires Valid() && len > 0 && newData !in repr
      requires len - start <= newData.Length && newData[..len - start] == data[start..len]
      modifies this
      ensures Valid() && data == newData && len <= old(len) && repr == old(repr) + {newData}
      ensures View() == InFlight.Swap(old(View()), newData, newData.Length)
    {
      ghost var before := View();
      var rest := len - start;
      Retire();
      repr := repr + {newData};
      data, len, start := newData, rest, 0;
      assert data[..len] == before.data.bytes[before.start..];
    }

    method CopyOut(capacity: nat) returns (newData: array<byte>)
      requires Valid() && capacity >= len
      ensures fresh(newData) && newData.Length == capacity
      ensures newData[..len - start] == data[start..len]
    {
      newData := new byte[capacity];
      forall i | 0 <= i < len - start {
        newData[i] := data[start + i];
      }
    }

    /** Moves the current allocation to the retired ones; the caller installs the new one. */
    method Retire()
      requires Valid()
      modifies this`retired
      ensures Sound(retired) && ArraysOf(retired) == ArraysOf(old(retired)) + {data}
      ensures ViewOf(retired)
              == old(View()).retired + [Retired(old(View()).data, offset + len - start)]
    {
      ghost var before := View();
      retired := retired + [RetiredBuffer(data, len, offset + len - start)];
      assert ViewOf(retired) == before.retired + [Retired(before.data, offset + len - start)];
      assert retired[|retired| - 1].data == data;
      forall a | a in ArraysOf(old(retired)) ensures a in ArraysOf(retired) {
        var i :| 0 <= i < |old(retired)| && old(retired)[i].data == a;
        assert retired[i].data == a;
      }
    }

    /** `extend_from_slice` within the capacity: the bytes before stay where they are. */
    method CopyIn(bytes: seq<byte>)
      requires Valid() && len + |bytes| <= data.Length
      modifies this`len, data
      ensures Valid()
      ensures View() == Extend(old(View()), bytes)
    {
      ghost var before := View();
      forall i | 0 <= i < |bytes| {
        data[len + i] := bytes[i];
      }
      len := len + |bytes|;
      assert data[..len] == before.data.bytes + bytes;
      assert ViewOf(retired) == before.retired;
    }

    method TruncateUnwritten(keep: nat)
      requires Valid()
      modifies this`len
      ensures Valid()
      ensures View() == InFlight.TruncateUnwritten(old(View()), keep)
    {
      if start + keep < len {
        len := start + keep;
      }
    }

    /**
      The buffering part of `write_stream_with_flags`. `datalen` is what ngtcp2 reports for the
      bytes offered at index `at` of the current allocation.
     */
    method Write(bytes: seq<byte>, datalen: Option<nat>, spare: nat) returns (at: nat)
      requires Valid()
      modifies this, data
      ensures Valid() && repr == old(repr) + {data} && fresh(repr - old(repr))
      ensures if old(len) + |bytes| <= old(data).Length then data == old(data) else fresh(data)
      ensures View() == WriteEntry(old(View()), bytes, datalen, data, spare)
      ensures at == AppendedAt(old(View()), |bytes|, data, spare)
    {
      at := Append(bytes, spare);
      var written := if datalen.Some? then datalen.value else 0;
      TruncateUnwritten(Max(at - start, 0) + written);
    }
  }

  lemma OneChanged<K, V>(before: map<K, V>, after: map<K, V>, k: K)
    requires k in after && after.Keys == before.Keys + {k}
    requires forall b :: b in before && b != k ==> after[b] == before[b]
    ensures after == before[k := after[k]]
  {
  }

  ghost predicate HeldWithin(s: SendStreams.State<array<byte>>, arrays: set<array<byte>>) {
    forall sid, i :: sid in s.entries && 0 <= i <= |s.entries[sid].retired| ==> s.entries[sid].Held(i).id in arrays
  }

  /** What ngtcp2 has after a write: the prefix it took, and where it lies. */
  ghost function StreamsAfter(s: SendStreams.State<array<byte>>, ev: SendStreams.Event<array<byte>>, id: array<byte>, at: nat)
      : map<int, Stream<array<byte>>>
    requires ev.Write? && Accepted(ev.datalen) <= |ev.bytes|
  {
    if ev.datalen.None? then s.streams
    else s.streams[ev.sid := Taken(SendStreams.StreamFor(s, ev.sid), ev.bytes, ev.datalen.value, id, at)]
  }

  lemma WriteEnabled(s: SendStreams.State<array<byte>>, ev: SendStreams.Event<array<byte>>, arrays: set<array<byte>>)
    requires ev.Write? && SendStreams.Inv(s) && HeldWithin(s, arrays) && Accepted(ev.datalen) <= |ev.bytes|
    requires ev.sid !in s.entries ==> ev.emptyId !in arrays
    requires SendStreams.Allocates(s, ev) ==> ev.newId !in arrays && (ev.sid !in s.entries ==> ev.newId != ev.emptyId)
    ensures SendStreams.Shaped(s) && SendStreams.Enabled(s, ev)
  {
  }

  /** A write is a step of the value model if what it allocates is new. */
  lemma WriteIsStep(s: SendStreams.State<array<byte>>, ev: SendStreams.Event<array<byte>>, before: Entry<array<byte>>,
                    arrays: set<array<byte>>, view: map<int, Entry<array<byte>>>, id: array<byte>, at: nat)
      returns (t: SendStreams.State<array<byte>>)
    requires ev.Write? && SendStreams.Inv(s) && HeldWithin(s, arrays) && Accepted(ev.datalen) <= |ev.bytes|
    requires before == SendStreams.EntryFor(s, ev.sid, ev.emptyId) && before.start <= |before.data.bytes|
    requires ev.sid !in s.entries ==> ev.emptyId !in arrays
    requires |before.data.bytes| + |ev.bytes| > before.data.capacity ==>
      ev.newId !in arrays && (ev.sid !in s.entries ==> ev.newId != ev.emptyId)
    requires id == WriteEntry(before, ev.bytes, ev.datalen, ev.newId, ev.spare).data.id
    requires at == AppendedAt(before, |ev.bytes|, ev.newId, ev.spare)
    requires view == s.entries[ev.sid := WriteEntry(before, ev.bytes, ev.datalen, ev.newId, ev.spare)]
    ensures SendStreams.Shaped(s) && SendStreams.Enabled(s, ev)
    ensures t == SendStreams.State(view, StreamsAfter(s, ev, id, at))
    ensures t == SendStreams.Step(s, ev) && SendStreams.Inv(t)
  {
    WriteEnabled(s, ev, arrays);
    SendStreams.StepKeepsInv(s, ev);
    t := SendStreams.State(view, StreamsAfter(s, ev, id, at));
  }

  lemma AckStep(s: SendStreams.State<array<byte>>, sid: int, offset: nat, len: nat)
    requires SendStreams.Inv(s) && SendStreams.Enabled(s, SendStreams.Ack(sid, offset, len))
    ensures SendStreams.Shaped(s) && sid in s.entries && sid in s.streams
    ensures var t := SendStreams.State(s.entries[sid := InFlight.AckUntil(s.entries[sid], SaturatingAdd(offset, len))],
                                       s.streams[sid := s.streams[sid].(acked := offset + len)]);
            t == SendStreams.Step(s, SendStreams.Ack(sid, offset, len)) && SendStreams.Inv(t)
  {
    SendStreams.StepKeepsInv(s, SendStreams.Ack(sid, offset, len));
  }

  lemma CloseStep(s: SendStreams.State<array<byte>>, sid: int)
    requires SendStreams.Inv(s)
    ensures SendStreams.Shaped(s)
    ensures var t := SendStreams.State(s.entries - {sid}, s.streams - {sid});
            t == SendStreams.Step(s, SendStreams.Close(sid)) && SendStreams.Inv(t)
  {
    SendStreams.StepKeepsInv(s, SendStreams.Close(sid));
  }

  lemma RejectStep(s: SendStreams.State<array<byte>>)
    requires SendStreams.Inv(s)
    ensures SendStreams.Shaped(s)
    ensures var t := SendStreams.State(s.entries, map[]);
            t == SendStreams.Step(s, SendStreams.EarlyDataRejected) && SendStreams.Inv(t)
  {
    SendStreams.StepKeepsInv(s, SendStreams.EarlyDataRejected);
  }

  /** The part of `ConnectionUserData` that owns the send buffers. */
  class ConnectionUserData {
    var inFlight: map<int, InFlightStreamData>

    /** ngtcp2's side of the open streams: what it took, and the pointers it keeps instead of copies. */
    ghost var streams: map<int, Stream<array<byte>>>

    ghost predicate Valid()
      reads this`inFlight, inFlight.Values
    {
      && (forall sid :: sid in inFlight ==> inFlight[sid].Valid())
      && (forall a, b :: a in inFlight && b in inFlight && a != b ==>
            inFlight[a] != inFlight[b] && inFlight[a].repr !! inFlight[b].repr)
    }

    /** The other streams' buffers are the same objects with the same contents as before. */
    twostate predicate OthersKept(sid: int)
      requires old(Valid())
      reads *
    {
      forall b :: b in old(inFlight) && b != sid ==>
        b in inFlight && inFlight[b] == old(inFlight[b])
        && unchanged(inFlight[b]) && unchanged(inFlight[b].repr)
    }

    constructor ()
      ensures Tracked() && Model() == SendStreams.Init()
    {
      inFlight, streams := map[], map[];
    }

    /** Every array an entry holds or has held. */
    ghost function Arrays(): set<array<byte>>
      reads this`inFlight, inFlight.Values
    {
      set sid, a | sid in inFlight && a in inFlight[sid].repr :: a
    }

    /** The buffers as the value model has them; the identity of an allocation is its array. */
    ghost function View(): map<int, Entry<array<byte>>>
      requires Valid()
      reads this`inFlight, inFlight.Values, Arrays()
    {
      map sid | sid in inFlight :: inFlight[sid].View()
    }

    ghost function Model(): SendStreams.State<array<byte>>
      requires Valid()
      reads this, inFlight.Values, Arrays()
    {
      SendStreams.State(View(), streams)
    }

    /** What every sequence of calls keeps. */
    ghost predicate Tracked()
      reads this, inFlight.Values, Arrays()
    {
      Valid() && SendStreams.Inv(Model())
    }

    twostate lemma ViewAfter(sid: int)
      requires old(Valid()) && Valid() && OthersKept(sid) && inFlight.Keys == old(inFlight.Keys) + {sid}
      ensures View() == old(View())[sid := inFlight[sid].View()]
    {
      var before, after := old(View()), View();
      forall b | b in before && b != sid ensures b in after && after[b] == before[b] {
        inFlight[b].Same();
      }
      OneChanged(before, after, sid);
    }

    /** The model holds no other allocations. */
    lemma HeldInArrays()
      requires Valid()
      ensures HeldWithin(Model(), Arrays())
    {
      forall sid, i | sid in View() && 0 <= i <= |View()[sid].retired| ensures View()[sid].Held(i).id in Arrays() {
        if i > 0 {
          assert inFlight[sid].retired[i - 1].data in ArraysOf(inFlight[sid].retired);
        }
      }
    }

    method AckedStreamData(sid: int, offset: nat, datalen: nat)
      requires Valid()
      modifies if sid in inFlight then {inFlight[sid]} else {}
      ensures Valid() && inFlight == old(inFlight) && OthersKept(sid)
      ensures sid in inFlight ==>
        inFlight[sid].View() == InFlight.AckUntil(old(inFlight[sid].View()), SaturatingAdd(offset, datalen))
    {
      if sid in inFlight {
        inFlight[sid].AckUntil(SaturatingAdd(offset, datalen));
      }
    }

    method ClosedStream(sid: int)
      requires Valid()
      modifies this`inFlight
      ensures Valid() && inFlight == old(inFlight) - {sid} && OthersKept(sid)
    {
      inFlight := inFlight - {sid};
    }

    /** `entry(stream_id).or_insert_with(..)` */
    method EntryFor(sid: int) returns (entry: InFlightStreamData)
      requires Valid()
      modifies this`inFlight
      ensures Valid() && OthersKept(sid)
      ensures inFlight.Keys == old(inFlight.Keys) + {sid} && inFlight[sid] == entry
      ensures sid in old(inFlight) ==> inFlight == old(inFlight) && unchanged(entry) && unchanged(entry.repr)
      ensures sid !in old(inFlight) ==> fresh(entry) && fresh(entry.repr) && entry.View() == NewEntry(entry.data)
    {
      if sid in inFlight {
        entry := inFlight[sid];
      } else {
        entry := InsertNew(sid);
      }
    }

    method InsertNew(sid: int) returns (entry: InFlightStreamData)
      requires Valid() && sid !in inFlight
      modifies this`inFlight
      ensures Valid() && OthersKept(sid) && inFlight == old(inFlight)[sid := entry]
      ensures fresh(entry) && fresh(entry.repr) && entry.Valid() && entry.View() == NewEntry(entry.data)
    {
      entry := new InFlightStreamData();
      inFlight := inFlight[sid := entry];
    }

    method WriteEntryOf(sid: int, bytes: seq<byte>, datalen: Option<nat>, spare: nat) returns (at: nat)
      requires Valid() && sid in inFlight
      modifies inFlight[sid], inFlight[sid].data
      ensures Valid() && inFlight == old(inFlight) && OthersKept(sid)
      ensures inFlight[sid].View() == WriteEntry(old(inFlight[sid].View()), bytes, datalen, inFlight[sid].data, spare)
      ensures at == AppendedAt(old(inFlight[sid].View()), |bytes|, inFlight[sid].data, spare)
      ensures old(inFlight[sid].len) + |bytes| > old(inFlight[sid].data.Length) ==> fresh(inFlight[sid].data)
    {
      at := inFlight[sid].Write(bytes, datalen, spare);
      forall b | b in inFlight && b != sid
        ensures inFlight[b].Valid() && inFlight[b].repr !! inFlight[sid].repr
      {
        assert inFlight[b].repr !! old(inFlight[sid].repr);
      }
    }

    /** A write on one stream; the other streams' buffers are neither moved nor changed. */
    method WriteStream(sid: int, bytes: seq<byte>, datalen: Option<nat>, spare: nat)
        returns (at: nat, ghost before: Entry<array<byte>>)
      requires Valid()
      modifies this`inFlight
      modifies if sid in inFlight then {inFlight[sid]} else {}
      modifies if sid in inFlight then {inFlight[sid].data} else {}
      ensures Valid() && OthersKept(sid) && inFlight.Keys == old(inFlight.Keys) + {sid}
      ensures if sid in old(inFlight) then before == old(inFlight[sid].View())
              else before == NewEntry(before.data.id) && fresh(before.data.id)
      ensures inFlight[sid].View() == WriteEntry(before, bytes, datalen, inFlight[sid].data, spare)
      ensures at == AppendedAt(before, |bytes|, inFlight[sid].data, spare)
      ensures |before.data.bytes| + |bytes| > before.data.capacity ==>
        fresh(inFlight[sid].data) && (sid !in old(inFlight) ==> inFlight[sid].data != before.data.id)
    {
      var entry := EntryFor(sid);
      before := entry.View();
      at := WriteEntryOf(sid, bytes, datalen, spare);
    }

    // ------------------------------------------------------------ calls as steps of the whole connection

    /** ngtcp2's side changes; the buffers do not. */
    ghost method Record(now: map<int, Stream<array<byte>>>)
      requires Valid()
      modifies this`streams
      ensures Valid() && View() == old(View()) && streams == now
    {
      streams := now;
    }

    /** A write as the value model sees it: one entry changes, and what it allocates is new. */
    method WriteView(sid: int, bytes: seq<byte>, datalen: Option<nat>, spare: nat)
        returns (at: nat, ghost before: Entry<array<byte>>)
      requires Valid()
      modifies this`inFlight
      modifies if sid in inFlight then {inFlight[sid]} else {}
      modifies if sid in inFlight then {inFlight[sid].data} else {}
      ensures Valid() && sid in inFlight
      ensures before == SendStreams.EntryFor(old(Model()), sid, before.data.id) && before.start <= |before.data.bytes|
      ensures View() == old(View())[sid := WriteEntry(before, bytes, datalen, inFlight[sid].data, spare)]
      ensures View()[sid].data.id == inFlight[sid].data
      ensures at == AppendedAt(before, |bytes|, inFlight[sid].data, spare)
      ensures sid !in old(inFlight) ==> before.data.id !in old(Arrays())
      ensures |before.data.bytes| + |bytes| > before.data.capacity ==>
        inFlight[sid].data !in old(Arrays()) && (sid !in old(inFlight) ==> inFlight[sid].data != before.data.id)
    {
      at, before := WriteStream(sid, bytes, datalen, spare);
      ViewAfter(sid);
    }

    /** `write_stream_with_flags`, and what ngtcp2 does in it: it takes the prefix it reports and keeps pointers. */
    method Write(sid: int, bytes: seq<byte>, datalen: Option<nat>, spare: nat)
        returns (ghost ev: SendStreams.Event<array<byte>>)
      requires Tracked() && Accepted(datalen) <= |bytes|
      modifies this
      modifies if sid in inFlight then {inFlight[sid]} else {}
      modifies if sid in inFlight then {inFlight[sid].data} else {}
      ensures ev.Write? && ev.sid == sid && ev.bytes == bytes && ev.datalen == datalen
      ensures var s := old(Model());
              SendStreams.Shaped(s) && SendStreams.Enabled(s, ev) && Valid() && Model() == SendStreams.Step(s, ev)
      ensures Tracked()
    {
      ghost var s, arrays := Model(), Arrays();
      HeldInArrays();
      var at;
      ghost var before;
      at, before := WriteView(sid, bytes, datalen, spare);
      ev := SendStreams.Write(sid, bytes, datalen, before.data.id, inFlight[sid].data, spare);
      ghost var t := WriteIsStep(s, ev, before, arrays, View(), inFlight[sid].data, at);
      Record(t.streams);
    }

    /** ngtcp2 reports an acknowledgement. */
    method Ack(sid: int, offset: nat, datalen: nat)
      requires Tracked() && SendStreams.Enabled(Model(), SendStreams.Ack(sid, offset, datalen))
      modifies this`streams
      modifies if sid in inFlight then {inFlight[sid]} else {}
      ensures SendStreams.Shaped(old(Model())) && Valid()
      ensures Model() == SendStreams.Step(old(Model()), SendStreams.Ack(sid, offset, datalen))
      ensures Tracked()
    {
      ghost var s := Model();
      AckStep(s, sid, offset, datalen);
      AckedStreamData(sid, offset, datalen);
      ViewAfter(sid);
      Record(s.streams[sid := s.streams[sid].(acked := offset + datalen)]);
    }

    method CloseView(sid: int)
      requires Valid()
      modifies this`inFlight
      ensures Valid() && View() == old(View()) - {sid}
    {
      ClosedStream(sid);
      forall b | b in inFlight ensures inFlight[b].View() == old(inFlight[b].View()) {
        assert b in old(inFlight);
      }
    }

    /** ngtcp2 closes a stream. */
    method Close(sid: int)
      requires Tracked()
      modifies this
      ensures SendStreams.Shaped(old(Model())) && Valid()
      ensures Model() == SendStreams.Step(old(Model()), SendStreams.Close(sid))
      ensures Tracked()
    {
      ghost var s := Model();
      CloseStep(s, sid);
      CloseView(sid);
      Record(s.streams - {sid});
    }

    /** ngtcp2 discards all streams when 0-RTT is rejected; the buffers stay. */
    method RejectEarlyData()
      requires Tracked()
      modifies this`streams
      ensures SendStreams.Shaped(old(Model())) && Valid()
      ensures Model() == SendStreams.Step(old(Model()), SendStreams.EarlyDataRejected)
      ensures Tracked()
    {
      RejectStep(Model());
      Record(map[]);
    }
  }

  /**
    Pointer stability on the heap. After any sequence of these calls, every byte that ngtcp2 took and
    has not reported acknowledged is in the array cell its pointer leads to.
   */
  lemma OutstandingCells(user: ConnectionUserData, sid: int, o: nat)
    requires user.Tracked()
    requires sid in user.streams && user.streams[sid].acked <= o < |user.streams[sid].sent|
    ensures o < |user.streams[sid].ptrs|
    ensures var p := user.streams[sid].ptrs[o];
            p.id in user.Arrays() && p.index < p.id.Length && p.id[p.index] == user.streams[sid].sent[o]
  {
    SendStreams.OutstandingReads(user.Model(), sid, o);
    ReadsArrayCell(user.inFlight[sid], user.streams[sid].ptrs[o], user.streams[sid].sent[o]);
  }

  /**
    What pointer stability means for the heap: a pointer that reads a byte in the model is into an
    array the entry owns, within bounds, and that array cell holds the byte.
   */
  lemma ReadsArrayCell(entry: InFlightStreamData, p: Pointer<array<byte>>, x: byte)
    requires entry.Valid() && Reads(entry.View(), p, x)
    ensures p.id in entry.repr && p.index < p.id.Length && p.id[p.index] == x
  {
    var v := entry.View();
    var i :| 0 <= i <= |v.retired| && Points(v.Held(i), p, x);
    if i > 0 {
      assert entry.retired[i - 1].data in ArraysOf(entry.retired);
    }
  }
}

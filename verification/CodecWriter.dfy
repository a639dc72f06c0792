/**
  `daq::codec::Writer` (fdlib/middleware/DAQCodec.h, lines 61-260), first as functions
  on `WriterView`, then as the class, each method proved to perform its function.

  Nothing is assumed about room: a full mark queue drops the mark, a full stream is
  overwritten, exactly as the unchecked pushes of the source do.
*/
module CodecWriter {
  import opened Words
  import opened DodCode
  import opened Ring

  const CONTROL_RESERVE := 16

  datatype ControlMark = ControlMark(idx: u16, size: byte)

  function Residuals(ccs: seq<ChannelState>, frame: Frame): (r: seq<i16>)
    requires |frame| == |ccs|
    ensures |r| == |ccs|
  {
    seq(|ccs|, i requires 0 <= i < |ccs| => Residual(ccs[i], frame[i]))
  }

  function AdvanceAll(ccs: seq<ChannelState>, frame: Frame): (r: seq<ChannelState>)
    requires |frame| == |ccs|
    ensures |r| == |ccs|
  {
    seq(|ccs|, i requires 0 <= i < |ccs| => Advance(ccs[i], frame[i]))
  }

  function StateBytes(ccs: seq<ChannelState>): (b: seq<byte>)
    ensures |b| == 4 * |ccs|
  {
    if ccs == [] then []
    else
      var last := ccs[|ccs| - 1];
      StateBytes(ccs[..|ccs| - 1]) + [Hi(last.sample), Lo(last.sample), Hi(last.delta), Lo(last.delta)]
  }

  /** The record internal_resync writes. */
  function ResyncRecord(counter: u32, ccs: seq<ChannelState>): (b: seq<byte>)
    ensures |b| == 5 + 4 * |ccs|
  {
    [RESYNCDOD] + BigEndian32(counter) + StateBytes(ccs)
  }

  /** Its size as stored in the `uint8_t` of a mark. */
  function RecordSize(channels: nat): byte {
    (4 + 2 * 2 * channels + 1) % 0x100
  }

  /** What one call of readNext returns: the type it sets, the count it returns, and the bytes it copied. */
  datatype Segment = Segment(kind: StreamType, count: nat, bytes: seq<byte>)

  datatype WriterView = WriterView(
    ccs: seq<ChannelState>, stream: Fifo<byte>, marks: Fifo<ControlMark>,
    tillSync: byte, period: byte, backpressure: bool)
  {
    predicate WellFormed() {
      stream.WellFormed() && marks.WellFormed()
    }

    /** Stored in a `uint8_t`. */
    function Reserve(): byte {
      CONTROL_RESERVE * |ccs| % 0x100
    }

    /** Queue a mark for a record about to start at the head of the stream; a full queue loses it. */
    function PushMark(size: byte): (w: WriterView)
      requires WellFormed()
      ensures w.WellFormed()
    {
      this.(marks := marks.Push(ControlMark(stream.Head(), size)).0)
    }

    function PushBytes(bytes: seq<byte>): (w: WriterView)
      requires WellFormed()
      ensures w.WellFormed()
    {
      this.(stream := stream.PushAll(bytes))
    }

    function InternalResync(counter: u32): (w: WriterView)
      requires WellFormed()
      ensures w.WellFormed()
    {
      PushMark(RecordSize(|ccs|)).PushBytes(ResyncRecord(counter, ccs)).(tillSync := period)
    }

    /** The predictor follows a frame; its codes are written only when asked for. */
    function EncodeFrame(frame: Frame, write: bool): (w: WriterView)
      requires WellFormed() && |frame| == |ccs|
      ensures w.WellFormed()
    {
      var advanced := this.(ccs := AdvanceAll(ccs, frame));
      if write then advanced.PushBytes(Codes(Residuals(ccs, frame))) else advanced
    }

    /**
      The two tests at the start of pushSample: what they do to the flags, then whether to
      write codes, whether to write a record, and the result.
    */
    function Decide(): (r: (WriterView, bool, bool, bool))
      requires WellFormed()
      ensures r.0 == this.(backpressure := r.0.backpressure, tillSync := r.0.tillSync) && (r.1 ==> r.0.tillSync > 0)
        && !(r.1 && r.2)
    {
      if backpressure then (this, false, false, false)
      else if stream.Free() <= Reserve() then (this.(backpressure := true, tillSync := 0), false, false, false)
      else (this, tillSync != 0, tillSync == 0, true)
    }

    /** The end of pushSample: the record, or one sample fewer until the next. */
    function Finish(write: bool, sync: bool, counter: u32): WriterView
      requires WellFormed() && (write ==> tillSync > 0)
    {
      if sync then InternalResync(counter) else if write then this.(tillSync := tillSync - 1) else this
    }

    predicate Refuses()
      requires WellFormed()
    {
      backpressure || stream.Free() <= Reserve()
    }

    /** pushSample: the predictor follows every sample, even one that is refused. */
    function PushSample(frame: Frame, counter: u32): (r: (WriterView, bool))
      requires WellFormed() && |frame| == |ccs|
      ensures r.0.WellFormed()
    {
      var advanced := this.(ccs := AdvanceAll(ccs, frame));
      if backpressure then
        (advanced, false)
      else if stream.Free() <= Reserve() then
        (advanced.(backpressure := true, tillSync := 0), false)
      else if tillSync == 0 then
        (advanced.InternalResync(counter), true)
      else
        (advanced.PushBytes(Codes(Residuals(ccs, frame))).(tillSync := tillSync - 1), true)
    }

    function Flush(): (r: (WriterView, bool))
      requires WellFormed()
      ensures r.0.WellFormed()
    {
      if stream.Free() <= CONTROL_RESERVE then (this, false)
      else
        (PushMark(1).PushBytes([FLUSH]).(tillSync := 0), true)
    }

    /** distanceFromTail succeeds on the front mark; otherwise readNext would go on with an uninitialised distance. */
    predicate ReadDefined()
      requires WellFormed()
    {
      marks.items == [] || (marks.items[0].idx < stream.cap && stream.Distance(marks.items[0].idx) < |stream.items|)
    }

    /** The kind of the next segment and how many bytes of it there are. */
    function Upcoming(): (StreamType, nat)
      requires WellFormed() && ReadDefined()
    {
      if marks.items == [] then (Samples, |stream.items|)
      else
        var distance := stream.Distance(marks.items[0].idx);
        if distance > 0 then (Samples, distance) else (Control, marks.items[0].size as nat)
    }

    /** readNext into a buffer of `room` bytes. */
    function ReadNext(room: nat): (r: (WriterView, Segment))
      requires WellFormed() && ReadDefined()
      ensures r.0.WellFormed()
    {
      var (kind, want) := Upcoming();
      var n := Min(want, room);
      if kind == Control && (want > room || want == 0) then (this, Segment(kind, 0, [])) else HandOut(kind, n)
    }

    /** The copy and the commit of readNext; nothing on an empty stream. */
    function HandOut(kind: StreamType, n: nat): (r: (WriterView, Segment))
      requires WellFormed() && (kind == Control ==> marks.items != [])
      ensures r.0.WellFormed()
    {
      if stream.items == [] then (this, Segment(kind, 0, []))
      else
        var copied := Min(n, |stream.items|);
        (Consumed(copied, kind), Segment(kind, n, stream.items[..copied]))
    }

    /** read_commit, the front mark popped after a control record, and backpressure lifted once nothing is left. */
    function Consumed(copied: nat, kind: StreamType): (w: WriterView)
      requires WellFormed() && copied <= |stream.items| && (kind == Control ==> marks.items != [])
      ensures w.WellFormed()
    {
      this.(stream := stream.Drop(copied),
            marks := if kind == Control then marks.Drop(1) else marks,
            backpressure := backpressure && copied < |stream.items|)
    }
  }

  /** A buffer after the bytes were copied to its start. */
  predicate CopiedInto(now: seq<byte>, before: seq<byte>, bytes: seq<byte>) {
    |now| == |before| && |bytes| <= |now| && now[..|bytes|] == bytes && now[|bytes|..] == before[|bytes|..]
  }

  /** The `uint32_t &sample_counter` the caller owns. */
  class SampleCounter {
    var value: u32

    constructor ()
      ensures value == 0
    {
      value := 0;
    }
  }

  class Writer {
    const ccs: array<ChannelState>
    const sampleCounter: SampleCounter
    const stream: RingFast<byte>
    const marks: RingFast<ControlMark>
    var samplesTillSync: byte
    const syncPeriod: byte
    const reserve: byte
    var backpressure: bool

    ghost const Repr: set<object> := {this, ccs, sampleCounter, stream, stream.buffer, marks, marks.buffer}

    ghost predicate Valid()
      reads Repr
    {
      && stream.Valid() && marks.Valid()
      && ccs as object != stream.buffer && ccs as object != marks.buffer && stream.buffer as object != marks.buffer
      && stream as object != marks
      && reserve == CONTROL_RESERVE * ccs.Length % 0x100
    }

    ghost function View(): (w: WriterView)
      requires Valid()
      reads Repr
      ensures w.WellFormed()
    {
      WriterView(ccs[..], stream.View(), marks.View(), samplesTillSync, syncPeriod, backpressure)
    }

    constructor (streamBuf: array<byte>, markBuf: array<ControlMark>, ccs: array<ChannelState>,
                 sampleCounter: SampleCounter, syncPeriod: byte)
      requires 0 < streamBuf.Length <= 0x8000 && 0 < markBuf.Length <= 0x8000
      requires ccs as object != streamBuf && ccs as object != markBuf && streamBuf as object != markBuf
      modifies sampleCounter
      ensures Valid() && sampleCounter.value == 0
      ensures this.ccs == ccs && this.sampleCounter == sampleCounter
      ensures stream.buffer == streamBuf && marks.buffer == markBuf && fresh(stream) && fresh(marks)
      ensures View() == WriterView(ccs[..], Fifo(streamBuf.Length, 0, []), Fifo(markBuf.Length, 0, []), 0,
        syncPeriod, false)
    {
      this.ccs, this.sampleCounter, this.syncPeriod := ccs, sampleCounter, syncPeriod;
      stream := new RingFast(streamBuf);
      marks := new RingFast(markBuf);
      reserve := CONTROL_RESERVE * ccs.Length % 0x100;
      samplesTillSync, backpressure := 0, false;
      new;
      Reset();
    }

    /** The marks are left in place. */
    method Reset()
      requires Valid()
      modifies this, stream, sampleCounter
      ensures Valid() && sampleCounter.value == 0
      ensures View() == old(View()).(stream := Fifo(stream.capacity, 0, []), tillSync := 0, backpressure := false)
    {
      stream.Clear();
      samplesTillSync := 0;
      sampleCounter.value := 0;
      backpressure := false;
    }

    method DodEncode(channel: nat, sample: i16) returns (dod: i16)
      requires channel < ccs.Length
      modifies ccs
      ensures ccs[channel] == Advance(old(ccs[channel]), sample)
      ensures forall j :: 0 <= j < ccs.Length && j != channel ==> ccs[j] == old(ccs[j])
      ensures dod == Residual(old(ccs[channel]), sample)
    {
      var cs := ccs[channel];
      var delta := ToI16(sample - cs.sample);
      dod := ToI16(delta - cs.delta);
      assert ChannelState(sample, delta) == Advance(cs, sample);
      ccs[channel] := ChannelState(sample, delta);
    }

    method PushCode(dod: i16)
      requires stream.Valid()
      modifies stream, stream.buffer
      ensures stream.Valid()
      ensures stream.View() == old(stream.View()).PushAll(Code(dod))
    {
      var mag := Magnitude(dod);
      var zz := Zigzag(dod);
      if mag < VIRTUAL_BITS_START / 2 {
        assert Code(dod) == [zz];
        PushAllOne(stream.View(), [zz]);
        stream.PushFast(zz);
      } else {
        var highBits := zz / 0x100;
        if highBits < 8 {
          assert Code(dod) == [VIRTUAL_BITS_START + highBits, zz % 0x100];
          PushTwo(VIRTUAL_BITS_START + highBits, zz % 0x100);
        } else {
          assert Code(dod) == [LARGE16_ESCAPE, zz / 0x100, zz % 0x100];
          PushThree(LARGE16_ESCAPE, zz / 0x100, zz % 0x100);
        }
      }
    }

    method PushTwo(a: byte, b: byte)
      requires stream.Valid()
      modifies stream, stream.buffer
      ensures stream.Valid()
      ensures stream.View() == old(stream.View()).PushAll([a, b])
    {
      PushAllTwo(stream.View(), a, b);
      stream.PushFast(a);
      stream.PushFast(b);
    }

    method PushThree(a: byte, b: byte, c: byte)
      requires stream.Valid()
      modifies stream, stream.buffer
      ensures stream.Valid()
      ensures stream.View() == old(stream.View()).PushAll([a, b, c])
    {
      PushAllThree(stream.View(), a, b, c);
      stream.PushFast(a);
      stream.PushFast(b);
      stream.PushFast(c);
    }

    /** Four bytes at a time: the counter, and the state of one channel. */
    method PushFour(a: byte, b: byte, c: byte, d: byte)
      requires stream.Valid()
      modifies stream, stream.buffer
      ensures stream.Valid()
      ensures stream.View() == old(stream.View()).PushAll([a, b, c, d])
    {
      PushAllFour(stream.View(), a, b, c, d);
      stream.PushFast(a);
      stream.PushFast(b);
      stream.PushFast(c);
      stream.PushFast(d);
    }

    /** The loop of internal_resync. */
    method PushStates()
      requires Valid()
      modifies stream, stream.buffer
      ensures Valid()
      ensures stream.View() == old(stream.View()).PushAll(StateBytes(ccs[..]))
    {
      ghost var start := stream.View();
      var i := 0;
      while i < ccs.Length
        invariant 0 <= i <= ccs.Length && stream.Valid()
        invariant stream.View() == start.PushAll(StateBytes(ccs[..i]))
      {
        var cs := ccs[i];
        assert ccs[..i + 1][..i] == ccs[..i];
        PushAllConcat(start, StateBytes(ccs[..i]), [Hi(cs.sample), Lo(cs.sample), Hi(cs.delta), Lo(cs.delta)]);
        PushFour(Hi(cs.sample), Lo(cs.sample), Hi(cs.delta), Lo(cs.delta));
        i := i + 1;
      }
      assert ccs[..i] == ccs[..];
    }

    method InternalResync()
      requires Valid()
      modifies this`samplesTillSync, stream, stream.buffer, marks, marks.buffer
      ensures Valid()
      ensures View() == old(View()).InternalResync(sampleCounter.value)
    {
      ghost var w := View();
      assert |w.ccs| == ccs.Length;
      PushMark(RecordSize(ccs.Length));
      PushRecord();
      samplesTillSync := syncPeriod;
    }

    method PushMark(size: byte)
      requires Valid()
      modifies marks, marks.buffer
      ensures Valid()
      ensures View() == old(View()).PushMark(size)
    {
      stream.HeadOfView();
      var _ := marks.Push(ControlMark(stream.head, size));
    }

    method PushRecord()
      requires Valid()
      modifies stream, stream.buffer
      ensures Valid()
      ensures View() == var w := old(View()); w.PushBytes(ResyncRecord(sampleCounter.value, w.ccs))
    {
      ghost var start := stream.View();
      var counter := BigEndian32(sampleCounter.value);
      PushAllOne(start, [RESYNCDOD]);
      stream.PushFast(RESYNCDOD);
      PushFour(counter[0], counter[1], counter[2], counter[3]);
      assert counter == [counter[0], counter[1], counter[2], counter[3]];
      PushAllConcat(start, [RESYNCDOD], counter);
      PushStates();
      PushAllConcat(start, [RESYNCDOD] + counter, StateBytes(ccs[..]));
    }

    method EncodeChannel(i: nat, sample: i16, write: bool)
      requires Valid() && i < ccs.Length
      modifies ccs, stream, stream.buffer
      ensures Valid()
      ensures ccs[i] == Advance(old(ccs[i]), sample)
      ensures forall j :: 0 <= j < ccs.Length && j != i ==> ccs[j] == old(ccs[j])
      ensures stream.View() ==
        if write then old(stream.View()).PushAll(Code(Residual(old(ccs[i]), sample))) else old(stream.View())
    {
      var dod := DodEncode(i, sample);
      if write {
        PushCode(dod);
      }
    }

    /** The loop of pushSample: the predictor always advances, the codes go out only when `write` is set. */
    method EncodeChannels(samples: Frame, write: bool)
      requires Valid() && |samples| == ccs.Length
      modifies ccs, stream, stream.buffer
      ensures Valid()
      ensures ccs[..] == AdvanceAll(old(ccs[..]), samples)
      ensures stream.View() == if write then old(stream.View()).PushAll(Codes(Residuals(old(ccs[..]), samples)))
                               else old(stream.View())
    {
      ghost var before, start := ccs[..], stream.View();
      ghost var dods := Residuals(before, samples);
      EncodedAll(start, dods, write);
      var i := 0;
      while i < ccs.Length
        invariant 0 <= i <= ccs.Length && stream.Valid()
        invariant forall j :: 0 <= j < i ==> ccs[j] == Advance(before[j], samples[j])
        invariant forall j :: i <= j < ccs.Length ==> ccs[j] == before[j]
        invariant stream.View() == Encoded(start, dods, i, write)
      {
        EncodedNext(start, dods, i, write);
        EncodeChannel(i, samples[i], write);
        i := i + 1;
      }
      assert ccs[..] == AdvanceAll(before, samples);
    }

    method EncodeFrame(samples: Frame, write: bool)
      requires Valid() && |samples| == ccs.Length
      modifies ccs, stream, stream.buffer
      ensures Valid()
      ensures View() == old(View()).EncodeFrame(samples, write)
    {
      EncodeChannels(samples, write);
    }

    /** The two tests that may refuse a sample. */
    method Decide() returns (write: bool, sync: bool, success: bool)
      requires Valid()
      modifies this`backpressure, this`samplesTillSync
      ensures Valid() && (View(), write, sync, success) == old(View()).Decide()
    {
      write, sync := true, false;
      success := true;
      if backpressure {
        write, success := false, false;
      }
      if success && stream.Free() <= reserve {
        backpressure := true;
        samplesTillSync := 0;
        success, write := false, false;
      }
      if success && samplesTillSync == 0 {
        write, sync := false, true;
      }
    }

    method PushSample(samples: Frame) returns (success: bool)
      requires Valid() && |samples| == ccs.Length
      modifies Repr - {sampleCounter}
      ensures Valid()
      ensures (View(), success) == old(View()).PushSample(samples, sampleCounter.value)
    {
      PushSampleInParts(View(), samples, sampleCounter.value);
      var write, sync;
      write, sync, success := Decide();
      EncodeFrame(samples, write);
      Finish(write, sync);
    }

    method Finish(write: bool, sync: bool)
      requires Valid() && !(write && sync) && (write ==> samplesTillSync > 0)
      modifies Repr - {sampleCounter}
      ensures Valid() && View() == old(View()).Finish(write, sync, sampleCounter.value)
    {
      if sync {
        InternalResync();
      }
      if write {
        samplesTillSync := samplesTillSync - 1;
      }
    }

    method Flush() returns (ok: bool)
      requires Valid()
      modifies this`samplesTillSync, stream, stream.buffer, marks, marks.buffer
      ensures Valid()
      ensures (View(), ok) == old(View()).Flush()
    {
      var free := stream.Free();
      if free <= CONTROL_RESERVE { return false; }
      PushMark(1);
      PushAllOne(stream.View(), [FLUSH]);
      stream.PushFast(FLUSH);
      samplesTillSync := 0;
      ok := true;
    }

    /** The copy out of the two contiguous runs; None when the ring is empty. */
    method CopyOut(buf: array<byte>, want: nat) returns (copied: Option<nat>)
      requires Valid() && want <= buf.Length && buf != stream.buffer
      modifies buf
      ensures stream.View().items == [] ==> copied == None && buf[..] == old(buf[..])
      ensures stream.View().items != [] ==>
        copied == Some(Min(want, |stream.View().items|))
          && CopiedInto(buf[..], old(buf[..]), stream.View().items[..copied.value])
    {
      var ok, r1, c1, r2, c2 := stream.ReadReserve();
      if !ok { return None; }
      var n := CopyRuns(buf, want, r1, c1, r2, c2);
      copied := Some(n);
    }

    method CopyRuns(buf: array<byte>, want: nat, r1: nat, c1: nat, r2: nat, c2: nat) returns (copied: nat)
      requires want <= buf.Length && buf != stream.buffer
      requires r1 + c1 <= stream.buffer.Length && r2 + c2 <= stream.buffer.Length
      modifies buf
      ensures copied == Min(want, c1 + c2)
      ensures forall i :: 0 <= i < copied ==> buf[i] == stream.buffer[if i < c1 then r1 + i else r2 + (i - c1)]
      ensures forall i :: copied <= i < buf.Length ==> buf[i] == old(buf[i])
    {
      copied := if c1 < want then c1 else want;
      MemCpy(buf, 0, stream.buffer, r1, copied);
      if copied < want && c2 > 0 {
        var rem := want - copied;
        var n2 := if c2 < rem then c2 else rem;
        MemCpy(buf, copied, stream.buffer, r2, n2);
        copied := copied + n2;
      }
    }

    method Plan() returns (kind: StreamType, want: nat)
      requires Valid() && View().ReadDefined()
      ensures (kind, want) == View().Upcoming()
    {
      var nextMark := marks.Peek();
      if nextMark == None {
        return Samples, stream.Size();
      }
      var distance := stream.DistanceFromTail(nextMark.value.idx);
      if distance.value > 0 {
        return Samples, distance.value;
      }
      return Control, nextMark.value.size;
    }

    method ReadNext(buf: array<byte>) returns (n: nat, kind: StreamType)
      requires Valid() && View().ReadDefined() && buf as object !in Repr
      modifies this`backpressure, stream, marks, buf
      ensures Valid()
      ensures var (w, seg) := old(View()).ReadNext(buf.Length);
              View() == w && kind == seg.kind && n == seg.count && CopiedInto(buf[..], old(buf[..]), seg.bytes)
    {
      var bytesToRead;
      kind, bytesToRead := Plan();
      if kind == Control && (bytesToRead > buf.Length || bytesToRead == 0) { return 0, kind; }
      if bytesToRead > buf.Length {
        bytesToRead := buf.Length;
      }
      n := HandOut(buf, bytesToRead, kind);
    }

    method HandOut(buf: array<byte>, want: nat, kind: StreamType) returns (n: nat)
      requires Valid() && want <= buf.Length && buf as object !in Repr && (kind == Control ==> View().marks.items != [])
      modifies this`backpressure, stream, marks, buf
      ensures Valid()
      ensures View() == old(View()).HandOut(kind, want).0
      ensures n == old(View()).HandOut(kind, want).1.count
      ensures CopiedInto(buf[..], old(buf[..]), old(View()).HandOut(kind, want).1.bytes)
    {
      var copied := CopyOut(buf, want);
      if copied == None { return 0; }
      Consume(copied.value, kind);
      n := want;
    }

    method Consume(copied: nat, kind: StreamType)
      requires Valid() && copied <= |stream.View().items|
      requires kind == Control ==> marks.View().items != []
      modifies this`backpressure, stream, marks
      ensures Valid()
      ensures View() == old(View()).Consumed(copied, kind)
    {
      CommitRead(copied);
      if kind == Control {
        DropMark();
      }
      if stream.Size() == 0 {
        backpressure := false;
      }
    }

    method CommitRead(copied: nat)
      requires Valid() && copied <= |View().stream.items|
      modifies stream
      ensures Valid() && View() == var w := old(View()); w.(stream := w.stream.Drop(copied))
    {
      stream.ReadCommit(copied);
    }

    method DropMark()
      requires Valid() && View().marks.items != []
      modifies marks
      ensures Valid() && View() == var w := old(View()); w.(marks := w.marks.Drop(1))
    {
      var _ := marks.Pop();
    }
  }

  method MemCpy(dst: array<byte>, to: nat, src: array<byte>, from: nat, n: nat)
    requires dst != src && to + n <= dst.Length && from + n <= src.Length
    modifies dst
    ensures forall i :: 0 <= i < dst.Length ==> dst[i] == if to <= i < to + n then src[from + (i - to)] else old(dst[i])
  {
    forall i | 0 <= i < n { dst[to + i] := src[from + i]; }
  }

  /** pushSample is its three parts one after another. */
  lemma PushSampleInParts(w: WriterView, frame: Frame, counter: u32)
    requires w.WellFormed() && |frame| == |w.ccs|
    ensures var (v, write, sync, ok) := w.Decide();
      w.PushSample(frame, counter) == (v.EncodeFrame(frame, write).Finish(write, sync, counter), ok)
  {
  }

  lemma PushAllOne<T>(f: Fifo<T>, xs: seq<T>)
    requires f.WellFormed() && |xs| == 1
    ensures f.PushAll(xs) == f.PushFast(xs[0])
  {
    assert xs[1..] == [];
  }

  lemma PushAllTwo<T>(f: Fifo<T>, a: T, b: T)
    requires f.WellFormed()
    ensures f.PushAll([a, b]) == f.PushFast(a).PushFast(b)
  {
    PushAllOne(f.PushFast(a), [b]);
    assert [a, b][1..] == [b];
  }

  lemma PushAllThree<T>(f: Fifo<T>, a: T, b: T, c: T)
    requires f.WellFormed()
    ensures f.PushAll([a, b, c]) == f.PushFast(a).PushFast(b).PushFast(c)
  {
    PushAllTwo(f.PushFast(a), b, c);
    assert [a, b, c][1..] == [b, c];
  }

  lemma PushAllFour<T>(f: Fifo<T>, a: T, b: T, c: T, d: T)
    requires f.WellFormed()
    ensures f.PushAll([a, b, c, d]) == f.PushFast(a).PushFast(b).PushFast(c).PushFast(d)
  {
    PushAllThree(f.PushFast(a), b, c, d);
    assert [a, b, c, d][1..] == [b, c, d];
  }

  /** The stream after the codes of the first i residuals, if they are written at all. */
  ghost function Encoded(start: Fifo<byte>, dods: seq<i16>, i: nat, write: bool): Fifo<byte>
    requires start.WellFormed() && i <= |dods|
  {
    if write then start.PushAll(Codes(dods[..i])) else start
  }

  lemma EncodedNext(start: Fifo<byte>, dods: seq<i16>, i: nat, write: bool)
    requires start.WellFormed() && i < |dods|
    ensures Encoded(start, dods, i, write).WellFormed()
    ensures Encoded(start, dods, i + 1, write) ==
      if write then Encoded(start, dods, i, write).PushAll(Code(dods[i])) else Encoded(start, dods, i, write)
  {
    if write {
      ExtendCodes(start, dods, i);
    }
  }

  lemma EncodedAll(start: Fifo<byte>, dods: seq<i16>, write: bool)
    requires start.WellFormed()
    ensures Encoded(start, dods, 0, write) == start
    ensures Encoded(start, dods, |dods|, write) == if write then start.PushAll(Codes(dods)) else start
  {
    assert dods[..0] == [] && dods[..|dods|] == dods;
  }

  lemma ExtendCodes(start: Fifo<byte>, dods: seq<i16>, i: nat)
    requires start.WellFormed() && i < |dods|
    ensures start.PushAll(Codes(dods[..i + 1])) == start.PushAll(Codes(dods[..i])).PushAll(Code(dods[i]))
  {
    assert dods[..i + 1] == dods[..i] + [dods[i]];
    CodesConcat(dods[..i], [dods[i]]);
    assert [dods[i]][1..] == [];
    assert Codes([dods[i]]) == Code(dods[i]);
    PushAllConcat(start, Codes(dods[..i]), Code(dods[i]));
  }
}

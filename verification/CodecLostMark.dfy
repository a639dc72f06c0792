/**
  What a full mark queue does to the codec.

  The writer queues a mark for every control record and ignores the result of the push
  (fdlib/middleware/DAQCodec.h, lines 81 and 196). With the queue full the record
  is written all the same. `ResyncNeedsMark` and `FlushNeedsMark` say that this is exactly
  when the invariant of the link is lost; that from then on, in every run, there are more
  control records in the ring than marks, so it never comes back; and that the record
  without a mark is handed out at the end of a segment of samples.
*/
module CodecLostMark {
  import opened Words
  import opened DodCode
  import opened Ring
  import opened CodecWriter
  import opened CodecReader
  import opened CodecEpoch
  import opened CodecWire
  import opened CodecFollow
  import opened CodecRefinement

  // ---------- for good ----------

  /** Control records in the ring without a mark. */
  function Unmarked(l: Link): int {
    |l.log| - l.read - |l.w.marks.items|
  }

  lemma InvMarked(l: Link)
    requires Inv(l)
    ensures Unmarked(l) == 0
  {
    var pre :| InvWith(l, pre);
  }

  lemma ReadUnmarked(w: WriterView, room: nat)
    requires w.WellFormed() && w.ReadDefined()
    ensures |w.ReadNext(room).0.marks.items| == |w.marks.items| - ControlsIn(w.ReadNext(room).1)
  {
  }

  lemma PushUnmarked(l: Link, frame: Frame, counter: u32)
    requires l.w.WellFormed() && l.r.WellFormed() && |frame| == |l.w.ccs|
    ensures Unmarked(Step(l, Push(frame, counter)).value) >= Unmarked(l)
  {
  }

  /** No step whatever gives a record its mark later. */
  lemma StepUnmarked(l: Link, op: Op)
    requires l.w.WellFormed() && l.r.WellFormed() && (op.Push? ==> |op.frame| == |l.w.ccs|) && Step(l, op).Some?
    ensures Unmarked(Step(l, op).value) >= Unmarked(l)
  {
    match op {
      case Push(frame, counter) => PushUnmarked(l, frame, counter);
      case Flush =>
      case Deliver(room, _) => ReadUnmarked(l.w, room);
      case Miss(room) => ReadUnmarked(l.w, room);
      case Take =>
    }
  }

  lemma {:induction false} RunUnmarked(l: Link, ops: seq<Op>)
    requires l.w.WellFormed() && l.r.WellFormed() && Run(l, ops).Some?
    ensures Unmarked(Run(l, ops).value) >= Unmarked(l)
    decreases |ops|
  {
    if ops != [] {
      StepUnmarked(l, ops[0]);
      RunUnmarked(Step(l, ops[0]).value, ops[1..]);
    }
  }

  /** A record without a mark is never made good. */
  ghost predicate NeverAgain(l: Link)
    requires l.w.WellFormed() && l.r.WellFormed()
  {
    forall ops :: Run(l, ops).Some? ==> !Inv(Run(l, ops).value)
  }

  lemma UnmarkedForGood(l: Link)
    requires l.w.WellFormed() && l.r.WellFormed() && Unmarked(l) > 0
    ensures NeverAgain(l)
  {
    forall ops | Run(l, ops).Some?
      ensures !Inv(Run(l, ops).value)
    {
      RunUnmarked(l, ops);
      if Inv(Run(l, ops).value) {
        InvMarked(Run(l, ops).value);
      }
    }
  }

  // ---------- handed out as samples ----------

  /** The ring as `Wire` describes it, followed by bytes no mark leads to. */
  ghost predicate Trails(w: WriterView, queued: seq<Group>, pre: seq<byte>, tail: seq<byte>) {
    && w.WellFormed() && w.stream.items == pre + LogBytes(queued) + tail
    && Wire(w.stream.(items := pre + LogBytes(queued)), w.marks.items, queued, pre)
  }

  /** n calls of readNext into a buffer of `room` bytes. */
  function Reads(w: WriterView, room: nat, n: nat): (v: Option<WriterView>)
    requires w.WellFormed()
    ensures v.Some? ==> v.value.WellFormed()
    decreases n
  {
    if n == 0 then Some(w)
    else if !w.ReadDefined() then None
    else Reads(w.ReadNext(room).0, room, n - 1)
  }

  /** After n reads the next hands out samples that end in `tail`. */
  ghost predicate TailRead(w: WriterView, room: nat, n: nat, before: seq<byte>, tail: seq<byte>)
    requires w.WellFormed()
  {
    && Reads(w, room, n).Some? && Reads(w, room, n).value.ReadDefined()
    && Reads(w, room, n).value.ReadNext(room).1 == Segment(Samples, |before + tail|, before + tail)
  }

  lemma DropFront<T>(a: seq<T>, b: seq<T>, c: seq<T>)
    ensures (a + b + c)[|a|..] == b + c && (a + b + c)[..|a|] == a && (a + b)[|a|..] == b
  {
  }

  /** What readNext does with the front mark `want` bytes ahead, in a buffer with room for all of them. */
  lemma ReadPiece(w: WriterView, want: nat, room: nat)
    requires w.WellFormed() && w.marks.items != [] && w.marks.items[0].idx < w.stream.cap
    requires w.stream.Distance(w.marks.items[0].idx) == want && 0 < want < |w.stream.items| && want <= room
    ensures w.ReadDefined() && w.ReadNext(room).0.stream == w.stream.Drop(want) && w.ReadNext(room).0.marks == w.marks
  {
  }

  /** And with the front mark at the tail. */
  lemma ReadRecord(w: WriterView, room: nat)
    requires w.WellFormed() && w.marks.items != [] && w.marks.items[0].idx < w.stream.cap
    requires w.stream.Distance(w.marks.items[0].idx) == 0 && 0 < w.marks.items[0].size <= |w.stream.items|
      && w.marks.items[0].size <= room
    ensures w.ReadDefined() && w.ReadNext(room).0.stream == w.stream.Drop(w.marks.items[0].size)
    ensures w.ReadNext(room).0.marks.items == w.marks.items[1..]
  {
  }

  /** Dropping from the ring with the trailing bytes is dropping from the ring without. */
  lemma DropTrails(f: Fifo<byte>, kept: seq<byte>, dropped: seq<byte>, tail: seq<byte>)
    requires f.WellFormed() && f.items == dropped + kept + tail
    ensures f.Drop(|dropped|).items == kept + tail
    ensures f.(items := dropped + kept).Drop(|dropped|) == f.Drop(|dropped|).(items := kept)
  {
    DropFront(dropped, kept, tail);
  }

  /** The sample bytes ahead of a queued record are handed out. */
  lemma TrailPiece(w: WriterView, queued: seq<Group>, pre: seq<byte>, tail: seq<byte>, room: nat)
    requires Trails(w, queued, pre, tail) && queued != [] && pre != [] && w.stream.cap <= room
    ensures w.ReadDefined() && Trails(w.ReadNext(room).0, queued, [], tail)
  {
    var base := w.stream.(items := pre + LogBytes(queued));
    FrontMark(base, w.marks.items, queued, pre);
    ReadPiece(w, |pre|, room);
    WireDrop(base, w.marks.items, queued, pre, |pre|);
    DropTrails(w.stream, LogBytes(queued), pre, tail);
    StillTrails(w.ReadNext(room).0, queued, pre[|pre|..], tail);
  }

  lemma StillTrails(w: WriterView, queued: seq<Group>, pre: seq<byte>, tail: seq<byte>)
    requires w.WellFormed() && pre == [] && w.stream.items == LogBytes(queued) + tail
    requires Wire(w.stream.(items := LogBytes(queued)), w.marks.items, queued, pre)
    ensures Trails(w, queued, [], tail)
  {
    assert [] + LogBytes(queued) == LogBytes(queued);
  }

  /** The queued record is handed out and its samples come to the front. */
  lemma TrailRecord(w: WriterView, queued: seq<Group>, tail: seq<byte>, room: nat)
    requires Trails(w, queued, [], tail) && queued != [] && w.stream.cap <= room
    ensures w.ReadDefined() && Trails(w.ReadNext(room).0, queued[1..], SampleBytes(queued[0]), tail)
  {
    var base, bytes := w.stream.(items := [] + LogBytes(queued)), CtlBytes(queued[0].ctl);
    FrontMark(base, w.marks.items, queued, []);
    WirePop(base, w.marks.items, queued);
    LogBytesHead(queued);
    ReadRecord(w, room);
    DropTrails(w.stream, SampleBytes(queued[0]) + LogBytes(queued[1..]), bytes, tail);
  }

  /** With nothing queued the trailing bytes go out with the samples before them. */
  lemma TrailLast(w: WriterView, pre: seq<byte>, tail: seq<byte>, room: nat)
    requires Trails(w, [], pre, tail) && tail != [] && w.stream.cap <= room
    ensures TailRead(w, room, 0, pre, tail)
  {
    assert pre + LogBytes([]) == pre;
    assert w.stream.items == pre + tail;
  }

  lemma OneMoreRead(w: WriterView, room: nat, n: nat, before: seq<byte>, tail: seq<byte>)
    requires w.WellFormed() && w.ReadDefined() && TailRead(w.ReadNext(room).0, room, n, before, tail)
    ensures TailRead(w, room, n + 1, before, tail)
  {
  }

  lemma {:induction false} TrailingIsRead(w: WriterView, queued: seq<Group>, pre: seq<byte>, tail: seq<byte>, room: nat)
    returns (n: nat, before: seq<byte>)
    requires Trails(w, queued, pre, tail) && tail != [] && w.stream.cap <= room
    ensures TailRead(w, room, n, before, tail)
    decreases |queued|, |pre|
  {
    if queued == [] {
      n, before := 0, pre;
      TrailLast(w, pre, tail, room);
    } else {
      if pre != [] {
        TrailPiece(w, queued, pre, tail, room);
        n, before := TrailingIsRead(w.ReadNext(room).0, queued, [], tail, room);
      } else {
        TrailRecord(w, queued, tail, room);
        n, before := TrailingIsRead(w.ReadNext(room).0, queued[1..], SampleBytes(queued[0]), tail, room);
      }
      OneMoreRead(w, room, n, before, tail);
      n := n + 1;
    }
  }

  lemma UnmarkedTrails(l: Link, w: WriterView, tail: seq<byte>) returns (pre: seq<byte>)
    requires Inv(l) && l.w.WellFormed() && |tail| <= l.w.stream.Free()
    requires w == l.w.(ccs := w.ccs, tillSync := w.tillSync, stream := l.w.stream.PushAll(tail))
    ensures l.read <= |l.log| && Trails(w, l.log[l.read..], pre, tail)
  {
    pre :| InvWith(l, pre);
    PushAllFits(l.w.stream, tail);
    assert l.w.stream.(items := pre + LogBytes(l.log[l.read..])) == l.w.stream;
    MarksElsewhere(l.w.stream, w.stream.(items := pre + LogBytes(l.log[l.read..])), l.w.marks.items,
      l.log[l.read..], |pre|);
  }

  ghost predicate EventuallyRead(w: WriterView, room: nat, tail: seq<byte>)
    requires w.WellFormed()
  {
    exists n: nat, before: seq<byte> :: TailRead(w, room, n, before, tail)
  }

  /** Some time later, with any buffer that takes a whole ring, the bytes are handed out as samples. */
  ghost predicate ReadAsSamples(w: WriterView, tail: seq<byte>)
    requires w.WellFormed()
  {
    forall room: nat :: w.stream.cap <= room ==> EventuallyRead(w, room, tail)
  }

  lemma UnmarkedIsSamples(l: Link, w: WriterView, tail: seq<byte>)
    requires Inv(l) && l.w.WellFormed() && tail != [] && |tail| <= l.w.stream.Free()
    requires w == l.w.(ccs := w.ccs, tillSync := w.tillSync, stream := l.w.stream.PushAll(tail))
    ensures ReadAsSamples(w, tail)
  {
    var pre := UnmarkedTrails(l, w, tail);
    forall room: nat | w.stream.cap <= room
      ensures EventuallyRead(w, room, tail)
    {
      var n, before := TrailingIsRead(w, l.log[l.read..], pre, tail, room);
    }
  }

  // ---------- the two control records ----------

  /**
    Admissible is exact for a resync: without room for its mark the record is read as
    samples and the link broken for good.
  */
  lemma ResyncNeedsMark(l: Link, frame: Frame, counter: u32)
    requires Inv(l) && l.w.WellFormed() && l.r.WellFormed() && |frame| == |l.w.ccs| && !l.w.Refuses()
      && l.w.tillSync == 0
    ensures var m := Step(l, Push(frame, counter)).value;
      && (Inv(m) <==> l.w.marks.Free() > 0)
      && (l.w.marks.Free() == 0 ==>
        NeverAgain(m) && ReadAsSamples(m.w, ResyncRecord(counter, AdvanceAll(l.w.ccs, frame))))
  {
    var m := Step(l, Push(frame, counter)).value;
    if l.w.marks.Free() > 0 {
      StepKeeps(l, Push(frame, counter));
    } else {
      InvMarked(l);
      UnmarkedForGood(m);
      assert Run(m, []) == Some(m);
      ChannelsOf(l);
      FewChannels(|l.w.ccs|);
      ReserveSuffices(l.w, frame, counter);
      UnmarkedIsSamples(l, m.w, ResyncRecord(counter, AdvanceAll(l.w.ccs, frame)));
    }
  }

  lemma ChannelsOf(l: Link)
    requires Inv(l)
    ensures 1 <= |l.w.ccs| <= 14
  {
    var pre :| InvWith(l, pre);
  }

  /** And for a flush that is written at all. */
  lemma FlushNeedsMark(l: Link)
    requires Inv(l) && l.w.WellFormed() && l.r.WellFormed() && l.w.stream.Free() > CONTROL_RESERVE
    ensures var m := Step(l, Op.Flush).value;
      && (Inv(m) <==> l.w.marks.Free() > 0)
      && (l.w.marks.Free() == 0 ==> NeverAgain(m) && ReadAsSamples(m.w, [FLUSH]))
  {
    var m := Step(l, Op.Flush).value;
    if l.w.marks.Free() > 0 {
      StepKeeps(l, Op.Flush);
    } else {
      InvMarked(l);
      UnmarkedForGood(m);
      assert Run(m, []) == Some(m);
      UnmarkedIsSamples(l, m.w, [FLUSH]);
    }
  }

  // ---------- the queue does fill up ----------

  function Flushes(n: nat): (ops: seq<Op>)
    ensures |ops| == n && forall i :: 0 <= i < n ==> ops[i] == Op.Flush
  {
    seq(n, i => Op.Flush)
  }

  /** Everything a lost mark needs but the full queue, with n bytes and n marks to spare. */
  ghost predicate Spare(l: Link, n: nat) {
    && l.w.WellFormed() && l.r.WellFormed() && Inv(l) && l.w.tillSync == 0 && !l.w.backpressure
    && n <= l.w.marks.Free() && Max(CONTROL_RESERVE, l.w.Reserve()) + n < l.w.stream.Free()
  }

  lemma FlushSpends(l: Link, n: nat)
    requires Spare(l, n) && 0 < n
    ensures Admissible(l, Op.Flush) && Step(l, Op.Flush).Some?
    ensures var m := Step(l, Op.Flush).value; Spare(m, n - 1) && m.w.marks.Free() == l.w.marks.Free() - 1
  {
    StepKeeps(l, Op.Flush);
    PushAllFits(l.w.stream, [FLUSH]);
  }

  lemma RunFirst(l: Link, n: nat)
    requires l.w.WellFormed() && l.r.WellFormed() && 0 < n && Admissible(l, Op.Flush) && Step(l, Op.Flush).Some?
    ensures var m := Step(l, Op.Flush).value;
      && Run(l, Flushes(n)) == Run(m, Flushes(n - 1))
      && (AdmissibleRun(l, Flushes(n)) <==> AdmissibleRun(m, Flushes(n - 1)))
  {
    assert Flushes(n)[1..] == Flushes(n - 1);
  }

  /** n flushes with no read in between take n marks. */
  lemma {:induction false} FlushesSpend(l: Link, n: nat)
    requires Spare(l, n)
    ensures AdmissibleRun(l, Flushes(n)) && Run(l, Flushes(n)).Some?
    ensures var m := Run(l, Flushes(n)).value; Spare(m, 0) && m.w.marks.Free() == l.w.marks.Free() - n
    decreases n
  {
    if n > 0 {
      FlushSpends(l, n);
      FlushesSpend(Step(l, Op.Flush).value, n - 1);
      RunFirst(l, n);
    }
  }

  /**
    Every link whose ring is long enough gets there: as many flushes as the queue has room
    for, and both a resync and a flush find it full.
  */
  lemma QueueFills(start: Link)
    requires Start(start) && start.w.marks.Free() + Max(CONTROL_RESERVE, start.w.Reserve()) < start.w.stream.Free()
    ensures var ops := Flushes(start.w.marks.Free());
      AdmissibleRun(start, ops) && Run(start, ops).Some? &&
      var l := Run(start, ops).value;
      Inv(l) && l.w.marks.Free() == 0 && !l.w.Refuses() && l.w.tillSync == 0 && l.w.stream.Free() > CONTROL_RESERVE
  {
    StartInv(start);
    FlushesSpend(start, start.w.marks.Free());
  }

  /** And there are such links: one channel, a ring of 256 bytes, 16 marks, a period of 64 and a block of 65 samples. */
  lemma SuchALink() returns (start: Link)
    ensures Start(start) && start.w.marks.Free() + Max(CONTROL_RESERVE, start.w.Reserve()) < start.w.stream.Free()
  {
    var zero := ChannelState(0, 0);
    var w := WriterView([zero], Fifo(0x100, 0, []), Fifo(16, 0, []), 0, 64, false);
    var r := ReaderView(Parser(DOD, 0, seq(64, _ => 0)), Assembler([0], [zero], 0, [], 65), false, false, 0);
    start := Link(w, r, [], 0);
  }
}

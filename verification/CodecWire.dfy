/**
  What lies between writer and reader: the unread bytes of the ring and the queue of
  control marks, described by the groups of records still to be read.

  A group is one control record with the frames accepted after it. `Wire` says that the
  ring holds the sample bytes `pre` ahead of the next control record and then every
  queued group, and that the queued marks name, in order, the slot and the length of
  every control record there.
*/
module CodecWire {
  import opened Words
  import opened DodCode
  import opened Ring
  import opened CodecWriter
  import opened CodecEpoch

  datatype Ctl = Resync(counter: u32, base: seq<ChannelState>) | Flushed

  datatype Group = Group(ctl: Ctl, frames: seq<Frame>)

  function CtlBytes(c: Ctl): (b: seq<byte>)
    ensures b != []
  {
    match c
    case Resync(counter, base) => ResyncRecord(counter, base)
    case Flushed => [FLUSH]
  }

  /** The sample bytes between a control record and the next. */
  ghost function SampleBytes(g: Group): seq<byte> {
    if g.ctl.Resync? && Fits(g.frames, |g.ctl.base|) then Codes(Chain(g.ctl.base, g.frames)) else []
  }

  ghost function GroupBytes(g: Group): seq<byte> {
    CtlBytes(g.ctl) + SampleBytes(g)
  }

  lemma NewGroupBytes(g: Group)
    requires g.frames == []
    ensures SampleBytes(g) == [] && GroupBytes(g) == CtlBytes(g.ctl)
  {
    assert CtlBytes(g.ctl) + [] == CtlBytes(g.ctl);
  }

  /** The concatenation of what `f` makes of each element. */
  ghost function Join<A>(xs: seq<A>, f: A -> seq<byte>): seq<byte> {
    if xs == [] then [] else Join(xs[..|xs| - 1], f) + f(xs[|xs| - 1])
  }

  lemma {:induction false} JoinHead<A>(x: A, rest: seq<A>, f: A -> seq<byte>)
    ensures Join([x] + rest, f) == f(x) + Join(rest, f)
  {
    if rest == [] {
      assert [x] + rest == [x] && [x][..0] == [];
      assert Join([x], f) == [] + f(x);
    } else {
      var init, last := rest[..|rest| - 1], rest[|rest| - 1];
      assert ([x] + rest)[..|rest|] == [x] + init;
      JoinHead(x, init, f);
      assert f(x) + Join(init, f) + f(last) == f(x) + (Join(init, f) + f(last));
    }
  }

  lemma JoinSnoc<A>(xs: seq<A>, x: A, f: A -> seq<byte>)
    ensures Join(xs + [x], f) == Join(xs, f) + f(x)
  {
    assert (xs + [x])[..|xs|] == xs;
  }

  ghost function LogBytes(log: seq<Group>): seq<byte> {
    Join(log, GroupBytes)
  }

  ghost function Slot(f: Fifo<byte>, offset: int): nat
    requires f.WellFormed() && 0 <= offset < f.cap
  {
    And(f.tail + offset, f.cap)
  }

  ghost predicate MarkIs(stream: Fifo<byte>, mark: ControlMark, offset: nat, ctl: Ctl)
    requires stream.WellFormed()
  {
    offset < stream.cap && mark.idx == Slot(stream, offset) && mark.size == |CtlBytes(ctl)|
  }

  ghost predicate MarksAre(stream: Fifo<byte>, marks: seq<ControlMark>, queued: seq<Group>, ahead: nat)
    requires stream.WellFormed()
  {
    && |marks| == |queued|
    && forall i :: 0 <= i < |queued| ==> MarkIs(stream, marks[i], ahead + |LogBytes(queued[..i])|, queued[i].ctl)
  }

  ghost predicate Wire(stream: Fifo<byte>, marks: seq<ControlMark>, queued: seq<Group>, pre: seq<byte>) {
    && stream.WellFormed()
    && stream.items == pre + LogBytes(queued)
    && MarksAre(stream, marks, queued, |pre|)
  }

  /** A control record and its mark are queued. */
  lemma WireControl(stream: Fifo<byte>, marks: seq<ControlMark>, queued: seq<Group>, pre: seq<byte>, ctl: Ctl)
    requires Wire(stream, marks, queued, pre)
    requires |CtlBytes(ctl)| <= stream.Free() && |CtlBytes(ctl)| < 0x100
    ensures Wire(stream.PushAll(CtlBytes(ctl)), marks + [ControlMark(stream.Head(), |CtlBytes(ctl)|)],
      queued + [Group(ctl, [])], pre)
  {
    var g, bytes := Group(ctl, []), CtlBytes(ctl);
    PushAllFits(stream, bytes);
    LogBytesSnoc(queued, g, pre);
    MarksSnoc(stream, marks, queued, |pre|, g);
    MarksElsewhere(stream, stream.PushAll(bytes), marks + [ControlMark(stream.Head(), |bytes|)], queued + [g], |pre|);
  }

  lemma LogBytesSnoc(queued: seq<Group>, g: Group, pre: seq<byte>)
    requires g.frames == []
    ensures pre + LogBytes(queued) + CtlBytes(g.ctl) == pre + LogBytes(queued + [g])
  {
    JoinSnoc(queued, g, GroupBytes);
    NewGroupBytes(g);
    Associate(pre, LogBytes(queued), CtlBytes(g.ctl));
  }

  lemma LogBytesGrow(init: seq<Group>, g: Group, h: Group, pre: seq<byte>, code: seq<byte>)
    requires GroupBytes(h) == GroupBytes(g) + code
    ensures pre + LogBytes(init + [g]) + code == pre + LogBytes(init + [h])
  {
    JoinSnoc(init, g, GroupBytes);
    JoinSnoc(init, h, GroupBytes);
    Associate(LogBytes(init), GroupBytes(g), code);
    Associate(pre, LogBytes(init + [g]), code);
  }

  lemma MarksSnoc(stream: Fifo<byte>, marks: seq<ControlMark>, queued: seq<Group>, ahead: nat, g: Group)
    requires stream.WellFormed() && MarksAre(stream, marks, queued, ahead)
    requires |stream.items| == ahead + |LogBytes(queued)| && |CtlBytes(g.ctl)| < 0x100
    ensures MarksAre(stream, marks + [ControlMark(stream.Head(), |CtlBytes(g.ctl)|)], queued + [g], ahead)
  {
    var more, mark := queued + [g], ControlMark(stream.Head(), |CtlBytes(g.ctl)|);
    forall i | 0 <= i < |more|
      ensures MarkIs(stream, (marks + [mark])[i], ahead + |LogBytes(more[..i])|, more[i].ctl)
    {
      PrefixOfSnoc(queued, g, i);
      PrefixOfSnoc(marks, mark, i);
      if i < |queued| {
        assert MarkIs(stream, marks[i], ahead + |LogBytes(queued[..i])|, queued[i].ctl);
      } else {
        assert queued[..i] == queued;
      }
    }
  }

  /** Marks depend on where the ring starts, not on what it holds. */
  lemma MarksElsewhere(stream: Fifo<byte>, other: Fifo<byte>, marks: seq<ControlMark>, queued: seq<Group>, ahead: nat)
    requires stream.WellFormed() && other.WellFormed() && MarksAre(stream, marks, queued, ahead)
    requires other.tail == stream.tail && other.cap == stream.cap
    ensures MarksAre(other, marks, queued, ahead)
  {
    forall i | 0 <= i < |queued|
      ensures MarkIs(other, marks[i], ahead + |LogBytes(queued[..i])|, queued[i].ctl)
    {
      assert MarkIs(stream, marks[i], ahead + |LogBytes(queued[..i])|, queued[i].ctl);
    }
  }

  /** Marks do not depend on what follows the last control record. */
  lemma MarksSameControls(stream: Fifo<byte>, marks: seq<ControlMark>, init: seq<Group>, g: Group, h: Group, ahead: nat)
    requires stream.WellFormed() && MarksAre(stream, marks, init + [g], ahead) && h.ctl == g.ctl
    ensures MarksAre(stream, marks, init + [h], ahead)
  {
    forall i | 0 <= i < |init + [h]|
      ensures MarkIs(stream, marks[i], ahead + |LogBytes((init + [h])[..i])|, (init + [h])[i].ctl)
    {
      PrefixOfSnoc(init, g, i);
      PrefixOfSnoc(init, h, i);
      assert MarkIs(stream, marks[i], ahead + |LogBytes((init + [g])[..i])|, (init + [g])[i].ctl);
    }
  }

  lemma PrefixOfSnoc<T>(xs: seq<T>, x: T, i: nat)
    requires i <= |xs|
    ensures (xs + [x])[..i] == xs[..i]
    ensures (xs + [x])[i] == if i < |xs| then xs[i] else x
  {
  }

  /** The last queued group grows by the codes of a frame. */
  lemma WireGrows(stream: Fifo<byte>, marks: seq<ControlMark>, init: seq<Group>, g: Group, h: Group, pre: seq<byte>,
    code: seq<byte>)
    requires Wire(stream, marks, init + [g], pre) && |code| <= stream.Free()
    requires h.ctl == g.ctl && GroupBytes(h) == GroupBytes(g) + code
    ensures Wire(stream.(items := stream.items + code), marks, init + [h], pre)
  {
    LogBytesGrow(init, g, h, pre, code);
    MarksSameControls(stream, marks, init, g, h, |pre|);
    MarksElsewhere(stream, stream.(items := stream.items + code), marks, init + [h], |pre|);
  }

  /** With nothing queued, the codes of a frame join the bytes ahead. */
  lemma WireGrowsAhead(stream: Fifo<byte>, marks: seq<ControlMark>, pre: seq<byte>, code: seq<byte>)
    requires Wire(stream, marks, [], pre) && |code| <= stream.Free()
    ensures Wire(stream.(items := stream.items + code), marks, [], pre + code)
  {
    assert pre + [] == pre && (pre + code) + [] == pre + code;
  }

  /** Reading part of the sample bytes: queued records keep their slots while the tail moves towards them. */
  lemma WireDrop(stream: Fifo<byte>, marks: seq<ControlMark>, queued: seq<Group>, pre: seq<byte>, n: nat)
    requires Wire(stream, marks, queued, pre) && n <= |pre|
    ensures n <= |stream.items| && stream.items[..n] == pre[..n]
    ensures Wire(stream.Drop(n), marks, queued, pre[n..])
  {
    assert (pre + LogBytes(queued))[n..] == pre[n..] + LogBytes(queued);
    MarksDrop(stream, marks, queued, |pre|, n);
  }

  lemma MarksDrop(stream: Fifo<byte>, marks: seq<ControlMark>, queued: seq<Group>, ahead: nat, n: nat)
    requires stream.WellFormed() && MarksAre(stream, marks, queued, ahead)
    requires n <= ahead && n <= |stream.items|
    ensures MarksAre(stream.Drop(n), marks, queued, ahead - n)
  {
    forall i | 0 <= i < |queued|
      ensures MarkIs(stream.Drop(n), marks[i], ahead - n + |LogBytes(queued[..i])|, queued[i].ctl)
    {
      assert MarkIs(stream, marks[i], ahead + |LogBytes(queued[..i])|, queued[i].ctl);
      SlotAfterDrop(stream, n, ahead - n + |LogBytes(queued[..i])|);
    }
  }

  lemma SlotAfterDrop(f: Fifo<byte>, n: nat, offset: nat)
    requires f.WellFormed() && n <= |f.items| && n + offset < f.cap
    ensures Slot(f.Drop(n), offset) == Slot(f, n + offset)
  {
  }

  /** Reading the next control record brings its sample bytes to the front. */
  lemma WirePop(stream: Fifo<byte>, marks: seq<ControlMark>, queued: seq<Group>)
    requires Wire(stream, marks, queued, []) && queued != []
    ensures var bytes := CtlBytes(queued[0].ctl);
            && |bytes| <= |stream.items| && stream.items[..|bytes|] == bytes
            && Wire(stream.Drop(|bytes|), marks[1..], queued[1..], SampleBytes(queued[0]))
  {
    LogBytesHead(queued);
    MarksPop(stream, marks, queued);
    SplitFront(stream.items, CtlBytes(queued[0].ctl), SampleBytes(queued[0]) + LogBytes(queued[1..]));
  }

  lemma LogBytesHead(queued: seq<Group>)
    requires queued != []
    ensures [] + LogBytes(queued) == CtlBytes(queued[0].ctl) + (SampleBytes(queued[0]) + LogBytes(queued[1..]))
  {
    assert queued == [queued[0]] + queued[1..];
    JoinHead(queued[0], queued[1..], GroupBytes);
  }

  lemma SplitFront<T>(xs: seq<T>, a: seq<T>, b: seq<T>)
    requires xs == a + b
    ensures xs[..|a|] == a && xs[|a|..] == b
  {
  }

  lemma MarksPop(stream: Fifo<byte>, marks: seq<ControlMark>, queued: seq<Group>)
    requires stream.WellFormed() && MarksAre(stream, marks, queued, 0) && queued != []
    requires |CtlBytes(queued[0].ctl)| <= |stream.items|
    ensures |marks[1..]| == |queued[1..]|
    ensures MarksAre(stream.Drop(|CtlBytes(queued[0].ctl)|), marks[1..], queued[1..], |SampleBytes(queued[0])|)
  {
    var bytes, after := CtlBytes(queued[0].ctl), SampleBytes(queued[0]);
    forall i | 0 <= i < |queued[1..]|
      ensures MarkIs(stream.Drop(|bytes|), marks[1..][i], |after| + |LogBytes(queued[1..][..i])|, queued[1..][i].ctl)
    {
      OffsetAfterFirst(queued, i);
      assert MarkIs(stream, marks[i + 1], 0 + |LogBytes(queued[..i + 1])|, queued[i + 1].ctl);
      SlotAfterDrop(stream, |bytes|, |after| + |LogBytes(queued[1..][..i])|);
    }
  }

  lemma OffsetAfterFirst(queued: seq<Group>, i: nat)
    requires i < |queued| - 1
    ensures |LogBytes(queued[..i + 1])| ==
      |CtlBytes(queued[0].ctl)| + |SampleBytes(queued[0])| + |LogBytes(queued[1..][..i])|
  {
    assert queued[..i + 1] == [queued[0]] + queued[1..][..i];
    JoinHead(queued[0], queued[1..][..i], GroupBytes);
  }

  /** The front mark: distanceFromTail finds it exactly `pre` ahead. */
  lemma FrontMark(stream: Fifo<byte>, marks: seq<ControlMark>, queued: seq<Group>, pre: seq<byte>)
    requires Wire(stream, marks, queued, pre) && queued != []
    ensures marks != [] && marks[0].idx < stream.cap && marks[0].size == |CtlBytes(queued[0].ctl)|
    ensures stream.Distance(marks[0].idx) == |pre| < |stream.items|
  {
    assert queued[..0] == [] && LogBytes([]) == [];
    assert MarkIs(stream, marks[0], |pre| + |LogBytes(queued[..0])|, queued[0].ctl);
    assert queued == [queued[0]] + queued[1..];
    JoinHead(queued[0], queued[1..], GroupBytes);
  }

  /** What a read leaves alone. */
  predicate OnlyRead(w: WriterView, v: WriterView) {
    v == w.(stream := v.stream, marks := v.marks, backpressure := v.backpressure) && (v.backpressure ==> w.backpressure)
  }

  /** n of the sample bytes ahead of the next control record are handed out. */
  predicate PieceOut(w: WriterView, pre: seq<byte>, n: nat, v: WriterView, seg: Segment)
    requires w.WellFormed() && n <= |pre|
  {
    n <= |w.stream.items| && seg == Segment(Samples, n, pre[..n]) && v.stream == w.stream.Drop(n) && v.marks == w.marks
  }

  /** A whole control record is handed out and its mark dropped. */
  predicate RecordOut(w: WriterView, bytes: seq<byte>, v: WriterView, seg: Segment)
    requires w.WellFormed()
  {
    && |bytes| <= |w.stream.items| && seg == Segment(Control, |bytes|, bytes)
    && v.stream == w.stream.Drop(|bytes|) && w.marks.items != [] && v.marks.items == w.marks.items[1..]
  }

  lemma NextPiece(w: WriterView, queued: seq<Group>, pre: seq<byte>, room: nat)
    requires w.WellFormed() && Wire(w.stream, w.marks.items, queued, pre) && (pre != [] || queued == [])
    ensures w.ReadDefined()
    ensures var (v, seg) := w.ReadNext(room); OnlyRead(w, v) && PieceOut(w, pre, Min(|pre|, room), v, seg)
  {
    WireDrop(w.stream, w.marks.items, queued, pre, Min(|pre|, room));
    if queued == [] {
      EmptyRight(pre);
    } else {
      FrontMark(w.stream, w.marks.items, queued, pre);
    }
  }

  lemma NextRecord(w: WriterView, queued: seq<Group>, room: nat)
    requires w.WellFormed() && Wire(w.stream, w.marks.items, queued, []) && queued != []
    ensures w.ReadDefined()
    ensures var (v, seg) := w.ReadNext(room); var bytes := CtlBytes(queued[0].ctl);
      OnlyRead(w, v) && if |bytes| > room then seg == Segment(Control, 0, []) && v == w else RecordOut(w, bytes, v, seg)
  {
    FrontMark(w.stream, w.marks.items, queued, []);
    WirePop(w.stream, w.marks.items, queued);
  }

  /**
    What readNext returns next: a piece of the sample bytes while there are any, then a
    whole control record or nothing.
  */
  lemma NextSegment(w: WriterView, queued: seq<Group>, pre: seq<byte>, room: nat)
    requires w.WellFormed() && Wire(w.stream, w.marks.items, queued, pre)
    ensures w.ReadDefined()
    ensures var (v, seg) := w.ReadNext(room);
      && OnlyRead(w, v)
      && if pre != [] || queued == [] then PieceOut(w, pre, Min(|pre|, room), v, seg)
         else
           var bytes := CtlBytes(queued[0].ctl);
           if |bytes| > room then seg == Segment(Control, 0, []) && v == w else RecordOut(w, bytes, v, seg)
  {
    if pre != [] || queued == [] {
      NextPiece(w, queued, pre, room);
    } else {
      NextRecord(w, queued, room);
    }
  }
}

/**
  Writer, ring, mark queue and reader together, over whole runs.

  `Link` is the pair of a writer and a reader with a log of what the writer accepted:
  one `Group` per control record, holding the frames accepted after it. A run is any
  sequence of pushSample, flush, readNext with any buffer size followed by decode of
  what it returned, and getSamples; a reader that is not yet in sync may also miss
  segments. `RunKeeps` carries the invariant over every run and `ControlShowsEpoch`
  is the end-to-end law: a control segment decoded by a reader in sync finds the block
  holding exactly the samples accepted since and including the last resync sample.
*/
module CodecRefinement {
  import opened Words
  import opened DodCode
  import opened Ring
  import opened CodecWriter
  import opened CodecReader
  import opened CodecEpoch
  import opened CodecWire
  import opened CodecFollow

  /** `read` counts the control records that have left the ring. */
  datatype Link = Link(w: WriterView, r: ReaderView, log: seq<Group>, read: nat)

  datatype Op =
    | Push(frame: Frame, counter: u32)
    | Flush
    | Deliver(room: nat, past: byte)
    | Miss(room: nat)
    | Take

  /** An accepted frame that is not a resync sample joins the last group. */
  function LogFrame(log: seq<Group>, frame: Frame): seq<Group> {
    if log == [] then []
    else
      var last := log[|log| - 1];
      log[..|log| - 1] + [last.(frames := last.frames + [frame])]
  }

  function ControlsIn(seg: Segment): nat {
    if seg.kind == Control && seg.bytes != [] then 1 else 0
  }

  /** None is a step the source gives no meaning: see ReadDefined and ReaderView. */
  function Step(l: Link, op: Op): (m: Option<Link>)
    requires l.w.WellFormed() && l.r.WellFormed()
    requires op.Push? ==> |op.frame| == |l.w.ccs|
    ensures m.Some? ==> m.value.w.WellFormed() && m.value.r.WellFormed()
  {
    match op
    case Push(frame, counter) =>
      var (w, accepted) := l.w.PushSample(frame, counter);
      var log := if !accepted then l.log
                 else if l.w.tillSync == 0 then l.log + [Group(Resync(counter, w.ccs), [])]
                 else LogFrame(l.log, frame);
      Some(l.(w := w, log := log))
    case Flush =>
      var (w, done) := l.w.Flush();
      Some(l.(w := w, log := if done then l.log + [Group(Flushed, [])] else l.log))
    case Deliver(room, past) =>
      if !l.w.ReadDefined() then None
      else
        var (w, seg) := l.w.ReadNext(room);
        if seg.count != |seg.bytes| then None
        else
          var decoded := l.r.Decode(seg.bytes, seg.kind, past);
          if decoded == None then None else Some(Link(w, decoded.value.0, l.log, l.read + ControlsIn(seg)))
    case Miss(room) =>
      if !l.w.ReadDefined() then None
      else
        var (w, seg) := l.w.ReadNext(room);
        Some(l.(w := w, read := l.read + ControlsIn(seg)))
    case Take =>
      Some(l.(r := l.r.(ready := false)))
  }

  /**
    What a caller must see to: a full frame, room for a mark, codable residuals, no segment
    withheld from a reader in sync.
  */
  predicate Admissible(l: Link, op: Op)
    requires l.w.WellFormed()
  {
    match op
    case Push(frame, _) =>
      && |frame| == |l.w.ccs|
      && (!l.w.Refuses() ==>
            if l.w.tillSync == 0 then l.w.marks.Free() > 0 else AllCodable(Residuals(l.w.ccs, frame)))
    case Flush => l.w.stream.Free() > CONTROL_RESERVE ==> l.w.marks.Free() > 0
    case Miss(_) => !l.r.inSync
    case Deliver(_, _) => true
    case Take => true
  }

  // ---------- the invariant ----------

  /** The last resync group of a log, with the frames accepted in it. */
  function LastEpoch(log: seq<Group>): Option<Group> {
    if log == [] then None
    else if log[|log| - 1].ctl.Resync? then Some(log[|log| - 1])
    else LastEpoch(log[..|log| - 1])
  }

  lemma LastEpochSnoc(log: seq<Group>, g: Group)
    ensures LastEpoch(log + [g]) == if g.ctl.Resync? then Some(g) else LastEpoch(log)
  {
    assert (log + [g])[..|log|] == log;
  }

  ghost predicate LogOk(log: seq<Group>, channels: nat, period: nat) {
    forall i :: 0 <= i < |log| ==> GroupOk(log[i], channels, period)
  }

  lemma LogOkSnoc(log: seq<Group>, g: Group, channels: nat, period: nat)
    ensures LogOk(log + [g], channels, period) <==> LogOk(log, channels, period) && GroupOk(g, channels, period)
  {
    var more := log + [g];
    if LogOk(more, channels, period) {
      forall i | 0 <= i < |log|
        ensures GroupOk(log[i], channels, period)
      {
        assert more[i] == log[i];
      }
      assert more[|log|] == g;
    }
  }

  /** Refusing samples with nothing left to read, so that no read can ever clear the flag. */
  predicate Stuck(w: WriterView) {
    w.stream.items == [] && w.stream.cap > w.Reserve() + 1
  }

  /** Between resyncs the writer's predictor is the one a reader of the log would have. */
  ghost predicate WriterAt(w: WriterView, log: seq<Group>) {
    && (w.backpressure ==> w.tillSync == 0 && !Stuck(w))
    && (w.tillSync > 0 ==>
          log != [] && InEpoch(w, log[|log| - 1]))
  }

  ghost predicate InEpoch(w: WriterView, g: Group) {
    && EpochOk(g, |w.ccs|, w.period)
    && |g.frames| + w.tillSync == w.period
    && w.ccs == Predict(g.ctl.base, g.frames)
  }

  ghost predicate InvWith(l: Link, pre: seq<byte>) {
    && l.w.WellFormed() && l.read <= |l.log|
    && LogOk(l.log, |l.w.ccs|, l.w.period)
    && Wire(l.w.stream, l.w.marks.items, l.log[l.read..], pre)
    && WriterAt(l.w, l.log)
    && ReaderAt(l.r, pre, LastEpoch(l.log[..l.read]), |l.w.ccs|, l.w.period)
  }

  ghost predicate Inv(l: Link) {
    exists pre :: InvWith(l, pre)
  }

  lemma InvParts(l: Link, pre: seq<byte>)
    requires l.w.WellFormed() && l.read <= |l.log|
    requires LogOk(l.log, |l.w.ccs|, l.w.period)
    requires Wire(l.w.stream, l.w.marks.items, l.log[l.read..], pre)
    requires WriterAt(l.w, l.log)
    requires ReaderAt(l.r, pre, LastEpoch(l.log[..l.read]), |l.w.ccs|, l.w.period)
    ensures Inv(l)
  {
    assert InvWith(l, pre);
  }

  // ---------- pushes ----------

  lemma SnocParts(log: seq<Group>, g: Group, read: nat)
    requires read <= |log|
    ensures (log + [g])[..read] == log[..read] && (log + [g])[read..] == log[read..] + [g]
  {
  }

  lemma KeepsOnControl(l: Link, pre: seq<byte>, w: WriterView, ctl: Ctl)
    requires InvWith(l, pre)
    requires GroupOk(Group(ctl, []), |l.w.ccs|, l.w.period)
    requires |CtlBytes(ctl)| < 0x100 && |CtlBytes(ctl)| <= l.w.stream.Free() && l.w.marks.Free() > 0
    requires w.WellFormed() && |w.ccs| == |l.w.ccs| && w.period == l.w.period
    requires w.stream == l.w.stream.PushAll(CtlBytes(ctl))
    requires w.marks == l.w.marks.Push(ControlMark(l.w.stream.Head(), |CtlBytes(ctl)|)).0
    requires WriterAt(w, l.log + [Group(ctl, [])])
    ensures Inv(l.(w := w, log := l.log + [Group(ctl, [])]))
  {
    var g := Group(ctl, []);
    SnocParts(l.log, g, l.read);
    LogOkSnoc(l.log, g, |l.w.ccs|, l.w.period);
    WireControl(l.w.stream, l.w.marks.items, l.log[l.read..], pre, ctl);
    InvParts(l.(w := w, log := l.log + [g]), pre);
  }

  lemma KeepsOnSync(l: Link, pre: seq<byte>, frame: Frame, counter: u32)
    requires InvWith(l, pre) && Admissible(l, Push(frame, counter))
    requires !l.w.Refuses() && l.w.tillSync == 0
    ensures Inv(l.(w := l.w.PushSample(frame, counter).0,
                   log := l.log + [Group(Resync(counter, l.w.PushSample(frame, counter).0.ccs), [])]))
  {
    var w := l.w.PushSample(frame, counter).0;
    var ctl := Resync(counter, AdvanceAll(l.w.ccs, frame));
    NewEpochOk(ctl, |l.w.ccs|, l.w.period);
    RecordFits(ctl);
    FewChannels(|l.w.ccs|);
    ReserveSuffices(l.w, frame, counter);
    EpochBegins(w, l.log, Group(ctl, []));
    KeepsOnControl(l, pre, w, ctl);
  }

  lemma NewEpochOk(ctl: Ctl, channels: nat, period: nat)
    requires ctl.Resync? && |ctl.base| == channels
    ensures EpochOk(Group(ctl, []), channels, period)
  {
    assert Chain(ctl.base, []) == [];
  }

  lemma RecordFits(ctl: Ctl)
    requires ctl.Resync? && |ctl.base| <= 62
    ensures |CtlBytes(ctl)| == RecordSize(|ctl.base|)
  {
  }

  lemma EpochBegins(w: WriterView, log: seq<Group>, g: Group)
    requires EpochOk(g, |w.ccs|, w.period) && g.frames == [] && g.ctl.base == w.ccs
    requires w.tillSync == w.period && !w.backpressure
    ensures WriterAt(w, log + [g])
  {
    assert InEpoch(w, g);
  }

  lemma KeepsOnFlush(l: Link, pre: seq<byte>)
    requires InvWith(l, pre) && l.r.WellFormed() && Admissible(l, Flush)
    ensures Inv(Step(l, Flush).value)
  {
    if l.w.Flush().1 {
      KeepsOnControl(l, pre, l.w.Flush().0, Flushed);
    } else {
      InvParts(l, pre);
    }
  }

  lemma KeepsOnTake(l: Link, pre: seq<byte>)
    requires InvWith(l, pre) && l.r.WellFormed()
    ensures Inv(l.(r := l.r.(ready := false)))
  {
    TakenComes(l.r, pre, LastEpoch(l.log[..l.read]), |l.w.ccs|, l.w.period);
    InvParts(l.(r := l.r.(ready := false)), pre);
  }

  /** A refused sample leaves the stream alone and stops the epoch. */
  lemma KeepsOnRefusal(l: Link, pre: seq<byte>, w: WriterView)
    requires InvWith(l, pre)
    requires w.WellFormed() && |w.ccs| == |l.w.ccs| && w.period == l.w.period && w.tillSync == 0
    requires w.stream == l.w.stream && w.marks == l.w.marks && (w.backpressure ==> !Stuck(w))
    ensures Inv(l.(w := w))
  {
    InvParts(l.(w := w), pre);
  }

  lemma SplitLast(log: seq<Group>)
    requires log != []
    ensures log == log[..|log| - 1] + [log[|log| - 1]]
  {
  }

  /** Link `m` is `l` with one more frame in its last group. */
  ghost predicate Grows(l: Link, m: Link, init: seq<Group>, g: Group, h: Group, frame: Frame)
    requires |frame| == |l.w.ccs|
  {
    && l.log == init + [g] && m.log == init + [h] && m.read == l.read && m.r == l.r
    && Extends(g, h, frame, |l.w.ccs|, l.w.period) && Predict(g.ctl.base, g.frames) == l.w.ccs
    && m.w.WellFormed() && |m.w.ccs| == |l.w.ccs| && m.w.period == l.w.period && InEpoch(m.w, h) && !m.w.backpressure
    && m.w.stream == l.w.stream.(items := l.w.stream.items + Codes(Residuals(l.w.ccs, frame))) && m.w.marks == l.w.marks
  }

  /** It reaches the bytes ahead of the reader only when nothing is queued. */
  lemma FrameAhead(l: Link, m: Link, pre: seq<byte>, init: seq<Group>, g: Group, h: Group, frame: Frame)
    requires InvWith(l, pre) && |frame| == |l.w.ccs| && Grows(l, m, init, g, h, frame) && l.read == |l.log|
    requires LogOk(m.log, |l.w.ccs|, l.w.period) && WriterAt(m.w, m.log)
    ensures Inv(m)
  {
    var code := Codes(Residuals(l.w.ccs, frame));
    assert l.log[..l.read] == l.log && m.log[..l.read] == m.log && l.log[l.read..] == [] && m.log[l.read..] == [];
    LastEpochSnoc(init, g);
    LastEpochSnoc(init, h);
    WireGrowsAhead(l.w.stream, l.w.marks.items, pre, code);
    FrameComes(l.r, pre, g, h, frame, |l.w.ccs|, l.w.period);
    InvParts(m, pre + code);
  }

  lemma FrameQueued(l: Link, m: Link, pre: seq<byte>, init: seq<Group>, g: Group, h: Group, frame: Frame)
    requires InvWith(l, pre) && |frame| == |l.w.ccs| && Grows(l, m, init, g, h, frame) && l.read < |l.log|
    requires LogOk(m.log, |l.w.ccs|, l.w.period) && WriterAt(m.w, m.log)
    ensures Inv(m)
  {
    ExtendedGroup(g, h, frame, |l.w.ccs|, l.w.period);
    SnocParts(init, g, l.read);
    SnocParts(init, h, l.read);
    WireGrows(l.w.stream, l.w.marks.items, init[l.read..], g, h, pre, Codes(Residuals(l.w.ccs, frame)));
    InvParts(m, pre);
  }

  /** An accepted frame without resync. */
  lemma KeepsOnFrame(l: Link, pre: seq<byte>, w: WriterView, frame: Frame)
    requires InvWith(l, pre) && l.w.tillSync > 0 && |frame| == |l.w.ccs|
    requires AllCodable(Residuals(l.w.ccs, frame)) && |Codes(Residuals(l.w.ccs, frame))| <= l.w.stream.Free()
    requires w.WellFormed() && w.ccs == AdvanceAll(l.w.ccs, frame) && w.period == l.w.period && !w.backpressure
    requires w.stream == l.w.stream.(items := l.w.stream.items + Codes(Residuals(l.w.ccs, frame)))
    requires w.marks == l.w.marks && w.tillSync == l.w.tillSync - 1
    ensures Inv(l.(w := w, log := LogFrame(l.log, frame)))
  {
    var init, g := l.log[..|l.log| - 1], l.log[|l.log| - 1];
    var h := g.(frames := g.frames + [frame]);
    var m := l.(w := w, log := init + [h]);
    SplitLast(l.log);
    ExtendedGroup(g, h, frame, |l.w.ccs|, l.w.period);
    assert InEpoch(w, h) && Grows(l, m, init, g, h, frame);
    LogOkSnoc(init, g, |l.w.ccs|, l.w.period);
    LogOkSnoc(init, h, |l.w.ccs|, l.w.period);
    if l.read < |l.log| {
      FrameQueued(l, m, pre, init, g, h, frame);
    } else {
      FrameAhead(l, m, pre, init, g, h, frame);
    }
  }

  /** The reserve, in the 8 bits it is stored in, covers a resync record. */
  predicate ReserveEnough(channels: nat) {
    4 + 4 * channels <= CONTROL_RESERVE * channels % 0x100
  }

  /** A writer that does not refuse a sample has room for its codes, and for a resync record instead. */
  lemma ReserveSuffices(w: WriterView, frame: Frame, counter: u32)
    requires w.WellFormed() && ReserveEnough(|w.ccs|) && |frame| == |w.ccs| && !w.Refuses()
    ensures |Codes(Residuals(w.ccs, frame))| <= w.stream.Free()
    ensures |ResyncRecord(counter, AdvanceAll(w.ccs, frame))| <= w.stream.Free()
  {
    assert |Codes(Residuals(w.ccs, frame))| <= 3 * |w.ccs|;
  }

  /** Up to 15 channels the reserve does not wrap. */
  lemma FewChannels(channels: nat)
    requires 1 <= channels <= 15
    ensures ReserveEnough(channels)
  {
    assert CONTROL_RESERVE * channels < 0x100;
  }

  lemma KeepsOnPush(l: Link, pre: seq<byte>, frame: Frame, counter: u32)
    requires InvWith(l, pre) && l.r.WellFormed() && Admissible(l, Push(frame, counter))
    ensures Inv(Step(l, Push(frame, counter)).value)
  {
    var w := l.w.PushSample(frame, counter).0;
    if l.w.Refuses() {
      KeepsOnRefusal(l, pre, w);
    } else {
      FewChannels(|l.w.ccs|);
      ReserveSuffices(l.w, frame, counter);
      if l.w.tillSync == 0 {
        KeepsOnSync(l, pre, frame, counter);
      } else {
        PushAllFits(l.w.stream, Codes(Residuals(l.w.ccs, frame)));
        KeepsOnFrame(l, pre, w, frame);
      }
    }
  }

  // ---------- reads ----------

  /** readNext handed out `n` of the sample bytes. */
  lemma KeepsOnSamples(l: Link, pre: seq<byte>, n: nat, m: Link)
    requires InvWith(l, pre) && n <= |pre|
    requires |pre| <= |l.w.stream.items|
    requires m.w == l.w.(stream := l.w.stream.Drop(n), backpressure := m.w.backpressure)
      && (m.w.backpressure ==> l.w.backpressure && !Stuck(m.w))
    requires m.log == l.log && m.read == l.read
    requires ReaderAt(m.r, pre[n..], LastEpoch(l.log[..l.read]), |l.w.ccs|, l.w.period)
    ensures Inv(m)
  {
    WireDrop(l.w.stream, l.w.marks.items, l.log[l.read..], pre, n);
    InvParts(m, pre[n..]);
  }

  lemma MoveOne(log: seq<Group>, read: nat)
    requires read < |log|
    ensures log[read..] != [] && log[read..][0] == log[read] && log[read..][1..] == log[read + 1..]
    ensures log[..read + 1] == log[..read] + [log[read]]
  {
  }

  /** readNext handed out the next control record. */
  lemma KeepsOnRecord(l: Link, m: Link, g: Group)
    requires InvWith(l, []) && l.read < |l.log| && g == l.log[l.read]
    requires |CtlBytes(g.ctl)| <= |l.w.stream.items|
    requires m.w == l.w.(stream := l.w.stream.Drop(|CtlBytes(g.ctl)|), marks := m.w.marks,
      backpressure := m.w.backpressure)
    requires m.w.WellFormed() && m.w.marks.items == l.w.marks.items[1..]
      && (m.w.backpressure ==> l.w.backpressure && !Stuck(m.w))
    requires m.log == l.log && m.read == l.read + 1
    requires ReaderAt(m.r, SampleBytes(g), if g.ctl.Resync? then Some(g) else LastEpoch(l.log[..l.read]),
      |l.w.ccs|, l.w.period)
    ensures Inv(m)
  {
    MoveOne(l.log, l.read);
    LastEpochSnoc(l.log[..l.read], g);
    WirePop(l.w.stream, l.w.marks.items, l.log[l.read..]);
    InvParts(m, SampleBytes(g));
  }

  /** A buffer too small for the record gets nothing. */
  lemma Withheld(l: Link, room: nat)
    requires l.w.WellFormed() && l.r.WellFormed() && l.read < |l.log|
      && Wire(l.w.stream, l.w.marks.items, l.log[l.read..], [])
    requires room < |CtlBytes(l.log[l.read].ctl)|
    ensures l.w.ReadDefined() && l.w.ReadNext(room) == (l.w, Segment(Control, 0, []))
  {
    NextRecord(l.w, l.log[l.read..], room);
  }

  lemma MissWithheld(l: Link, room: nat)
    requires InvWith(l, []) && l.r.WellFormed() && l.read < |l.log| && room < |CtlBytes(l.log[l.read].ctl)|
    ensures Step(l, Miss(room)) == Some(l)
  {
    Withheld(l, room);
  }

  lemma NextDefined(l: Link, pre: seq<byte>)
    requires InvWith(l, pre)
    ensures l.w.ReadDefined() && l.r.WellFormed()
  {
    NextSegment(l.w, l.log[l.read..], pre, 0);
  }

  /** A reader that has not synchronised stands at its start whatever goes by. */
  lemma KeepsOnMiss(l: Link, pre: seq<byte>, room: nat)
    requires InvWith(l, pre) && !l.r.inSync
    ensures l.w.ReadDefined() && Inv(Step(l, Miss(room)).value)
  {
    NextDefined(l, pre);
    if pre != [] || l.read == |l.log| {
      MissPiece(l, pre, room);
    } else if |CtlBytes(l.log[l.read].ctl)| <= room {
      MissRecord(l, room);
    } else {
      MissWithheld(l, room);
      InvParts(l, pre);
    }
  }

  lemma MissPiece(l: Link, pre: seq<byte>, room: nat)
    requires InvWith(l, pre) && !l.r.inSync && l.w.ReadDefined() && (pre != [] || l.read == |l.log|)
    ensures Inv(Step(l, Miss(room)).value)
  {
    NextPiece(l.w, l.log[l.read..], pre, room);
    WireDrop(l.w.stream, l.w.marks.items, l.log[l.read..], pre, |pre|);
    KeepsOnSamples(l, pre, Min(|pre|, room), Step(l, Miss(room)).value);
  }

  /** The writer after handing out the record of `g`, unless it was at its end. */
  ghost predicate RecordRead(l: Link, m: Link, g: Group)
    requires l.w.WellFormed() && |CtlBytes(g.ctl)| <= |l.w.stream.items|
  {
    && m.w == l.w.(stream := l.w.stream.Drop(|CtlBytes(g.ctl)|), marks := m.w.marks, backpressure := m.w.backpressure)
    && l.w.marks.items != [] && m.w.marks.items == l.w.marks.items[1..] && m.log == l.log && m.read == l.read + 1
    && (m.w.backpressure ==> l.w.backpressure && !Stuck(m.w))
  }

  lemma MissRecord(l: Link, room: nat)
    requires InvWith(l, []) && !l.r.inSync && l.w.ReadDefined() && l.read < |l.log|
      && |CtlBytes(l.log[l.read].ctl)| <= room
    ensures Inv(Step(l, Miss(room)).value)
  {
    var g := l.log[l.read];
    RecordMissed(l, g, room);
    KeepsOnRecord(l, Step(l, Miss(room)).value, g);
  }

  /** What readNext does at a record there is room for. */
  lemma RecordLeaves(l: Link, g: Group, room: nat)
    requires l.w.WellFormed() && l.read < |l.log| && g == l.log[l.read]
      && Wire(l.w.stream, l.w.marks.items, l.log[l.read..], [])
    requires (l.w.backpressure ==> !Stuck(l.w)) && |CtlBytes(g.ctl)| <= room
    ensures |CtlBytes(g.ctl)| <= |l.w.stream.items| && l.w.ReadDefined()
    ensures var (w, seg) := l.w.ReadNext(room);
      seg == Segment(Control, |CtlBytes(g.ctl)|, CtlBytes(g.ctl)) && RecordRead(l, l.(w := w, read := l.read + 1), g)
  {
    NextRecord(l.w, l.log[l.read..], room);
  }

  lemma RecordMissed(l: Link, g: Group, room: nat)
    requires l.w.WellFormed() && l.read < |l.log| && g == l.log[l.read]
      && Wire(l.w.stream, l.w.marks.items, l.log[l.read..], [])
    requires (l.w.backpressure ==> !Stuck(l.w)) && l.r.WellFormed() && |CtlBytes(g.ctl)| <= room
    ensures |CtlBytes(g.ctl)| <= |l.w.stream.items|
    ensures var m := Step(l, Miss(room)); m.Some? && m.value.r == l.r && RecordRead(l, m.value, g)
  {
    RecordLeaves(l, g, room);
  }

  /**
    What the end-to-end law says about one delivery: a reader in sync that decodes a control
    record holds exactly its epoch.
  */
  ghost predicate ShowsEpoch(l: Link, m: Link)
    requires l.read <= |l.log|
  {
    m.read > l.read && l.r.inSync ==>
      var epoch := LastEpoch(l.log[..l.read]);
      epoch.Some? && epoch.value.ctl.Resync? && BlockIs(m.r, epoch.value)
  }

  /** The writer after handing out sample bytes, unless it was at its end. */
  ghost predicate PieceRead(l: Link, m: Link, n: nat)
    requires l.w.WellFormed() && n <= |l.w.stream.items|
  {
    && m.w == l.w.(stream := l.w.stream.Drop(n), backpressure := m.w.backpressure) && m.log == l.log && m.read == l.read
    && (m.w.backpressure ==> l.w.backpressure && !Stuck(m.w))
  }

  lemma PieceStep(l: Link, pre: seq<byte>, room: nat, past: byte)
    requires l.w.WellFormed() && l.read <= |l.log| && Wire(l.w.stream, l.w.marks.items, l.log[l.read..], pre)
    requires (l.w.backpressure ==> !Stuck(l.w)) && l.r.WellFormed()
    requires (pre != [] || l.read == |l.log|) && l.r.Decode(pre[..Min(|pre|, room)], Samples, past).Some?
    ensures Min(|pre|, room) <= |l.w.stream.items|
    ensures var m := Step(l, Deliver(room, past));
      m.Some? && m.value.r == l.r.Decode(pre[..Min(|pre|, room)], Samples, past).value.0
        && PieceRead(l, m.value, Min(|pre|, room))
  {
    NextPiece(l.w, l.log[l.read..], pre, room);
  }

  lemma DeliverPiece(l: Link, pre: seq<byte>, room: nat, past: byte)
    requires InvWith(l, pre) && (pre != [] || l.read == |l.log|)
    ensures var m := Step(l, Deliver(room, past)); m.Some? && Inv(m.value) && m.value.read == l.read
  {
    var n := Min(|pre|, room);
    PieceComes(l.r, pre, LastEpoch(l.log[..l.read]), |l.w.ccs|, l.w.period, n, past);
    PieceStep(l, pre, room, past);
    WireDrop(l.w.stream, l.w.marks.items, l.log[l.read..], pre, |pre|);
    KeepsOnSamples(l, pre, n, Step(l, Deliver(room, past)).value);
  }

  lemma RecordStep(l: Link, g: Group, room: nat, past: byte)
    requires l.w.WellFormed() && l.read < |l.log| && g == l.log[l.read]
      && Wire(l.w.stream, l.w.marks.items, l.log[l.read..], [])
    requires (l.w.backpressure ==> !Stuck(l.w)) && l.r.WellFormed()
    requires |CtlBytes(g.ctl)| <= room && l.r.Decode(CtlBytes(g.ctl), Control, past).Some?
    ensures |CtlBytes(g.ctl)| <= |l.w.stream.items|
    ensures var m := Step(l, Deliver(room, past));
      m.Some? && m.value.r == l.r.Decode(CtlBytes(g.ctl), Control, past).value.0 && RecordRead(l, m.value, g)
  {
    RecordLeaves(l, g, room);
  }

  lemma RecordWithheld(l: Link, room: nat, past: byte)
    requires l.w.WellFormed() && l.r.WellFormed() && l.read < |l.log|
      && Wire(l.w.stream, l.w.marks.items, l.log[l.read..], [])
    requires room < |CtlBytes(l.log[l.read].ctl)|
    ensures Step(l, Deliver(room, past)) == Some(l)
  {
    Withheld(l, room);
    assert l.r.Decode([], Control, past) == Some((l.r, OK));
  }

  lemma DeliverRecord(l: Link, room: nat, past: byte)
    requires InvWith(l, []) && l.read < |l.log|
    ensures var m := Step(l, Deliver(room, past)); m.Some? && Inv(m.value) && ShowsEpoch(l, m.value)
  {
    var g := l.log[l.read];
    if room < |CtlBytes(g.ctl)| {
      RecordWithheld(l, room, past);
      InvParts(l, []);
    } else {
      RecordComes(l.r, LastEpoch(l.log[..l.read]), |l.w.ccs|, l.w.period, g, past);
      RecordStep(l, g, room, past);
      KeepsOnRecord(l, Step(l, Deliver(room, past)).value, g);
    }
  }

  lemma RecordComes(r: ReaderView, epoch: Option<Group>, channels: nat, period: nat, g: Group, past: byte)
    requires ReaderAt(r, [], epoch, channels, period) && GroupOk(g, channels, period)
    ensures var d := r.Decode(CtlBytes(g.ctl), Control, past);
            d.Some? && (r.inSync ==> epoch.Some? && epoch.value.ctl.Resync? && BlockIs(d.value.0, epoch.value)) &&
            ReaderAt(d.value.0, SampleBytes(g), if g.ctl.Resync? then Some(g) else epoch, channels, period)
  {
    if g.ctl.Resync? {
      ResyncComes(r, epoch, channels, period, g, past);
    } else {
      FlushComes(r, epoch, channels, period, past);
    }
  }

  // ---------- whole runs ----------

  lemma StepKeeps(l: Link, op: Op)
    requires Inv(l) && l.r.WellFormed() && Admissible(l, op)
    ensures var m := Step(l, op);
            m.Some? && Inv(m.value) && (op.Deliver? ==> ShowsEpoch(l, m.value))
  {
    var pre :| InvWith(l, pre);
    match op {
      case Push(frame, counter) => KeepsOnPush(l, pre, frame, counter);
      case Flush => KeepsOnFlush(l, pre);
      case Deliver(room, past) =>
        if pre != [] || l.read == |l.log| { DeliverPiece(l, pre, room, past); } else { DeliverRecord(l, room, past); }
      case Miss(room) => KeepsOnMiss(l, pre, room);
      case Take => KeepsOnTake(l, pre);
    }
  }

  function Run(l: Link, ops: seq<Op>): (m: Option<Link>)
    requires l.w.WellFormed() && l.r.WellFormed()
    ensures m.Some? ==> m.value.w.WellFormed() && m.value.r.WellFormed()
    decreases |ops|
  {
    if ops == [] then Some(l)
    else if ops[0].Push? && |ops[0].frame| != |l.w.ccs| then None
    else
      var m := Step(l, ops[0]);
      if m == None then None else Run(m.value, ops[1..])
  }

  predicate AdmissibleRun(l: Link, ops: seq<Op>)
    requires l.w.WellFormed() && l.r.WellFormed()
    decreases |ops|
  {
    ops == [] ||
    (Admissible(l, ops[0]) &&
      var m := Step(l, ops[0]);
      m.Some? ==> AdmissibleRun(m.value, ops[1..]))
  }

  /** A writer and a reader just constructed, on a block that holds the longest epoch. */
  ghost predicate Start(l: Link) {
    var w, r := l.w, l.r;
    && w.WellFormed() && w.stream.items == [] && w.marks.items == [] && w.tillSync == 0 && !w.backpressure
    && Shape(r, |w.ccs|, w.period) && AtFrame(r) && !r.inSync
    && l.log == [] && l.read == 0
  }

  lemma StartInv(l: Link)
    requires Start(l)
    ensures Inv(l)
  {
    assert LogBytes([]) == [];
    InvParts(l, []);
  }

  lemma {:induction false} RunKeeps(l: Link, ops: seq<Op>)
    requires l.w.WellFormed() && l.r.WellFormed() && Inv(l) && AdmissibleRun(l, ops)
    ensures Run(l, ops).Some? && Inv(Run(l, ops).value)
    decreases |ops|
  {
    if ops != [] {
      StepKeeps(l, ops[0]);
      RunKeeps(Step(l, ops[0]).value, ops[1..]);
    }
  }

  /**
    The end-to-end law. In every admissible run from construction no step is undefined,
    and whenever a reader in sync decodes a control segment its block is ready and holds
    exactly the samples accepted since and including the last resync sample, in order,
    with the sample counter of that resync.
  */
  lemma ControlShowsEpoch(start: Link, ops: seq<Op>, room: nat, past: byte)
    requires Start(start) && AdmissibleRun(start, ops)
    ensures Run(start, ops).Some?
    ensures var l := Run(start, ops).value; var m := Step(l, Deliver(room, past));
            m.Some? && l.read <= |l.log| && ShowsEpoch(l, m.value)
  {
    StartInv(start);
    RunKeeps(start, ops);
    StepKeeps(Run(start, ops).value, Deliver(room, past));
  }

  // ---------- the log is what was accepted ----------

  /** All frames of a log, resync samples included, in order. */
  function FramesOf(log: seq<Group>): seq<Frame> {
    if log == [] then []
    else
      var g := log[|log| - 1];
      FramesOf(log[..|log| - 1]) + (if g.ctl.Resync? then [SamplesOf(g.ctl.base)] else []) + g.frames
  }

  /** The frames for which pushSample returned true. */
  function Accepted(l: Link, ops: seq<Op>): seq<Frame>
    requires l.w.WellFormed() && l.r.WellFormed()
    decreases |ops|
  {
    if ops == [] || (ops[0].Push? && |ops[0].frame| != |l.w.ccs|) then []
    else
      var m := Step(l, ops[0]);
      if m == None then []
      else AcceptedNow(l, ops[0]) + Accepted(m.value, ops[1..])
  }

  function AcceptedNow(l: Link, op: Op): seq<Frame>
    requires l.w.WellFormed() && (op.Push? ==> |op.frame| == |l.w.ccs|)
  {
    if op.Push? && l.w.PushSample(op.frame, op.counter).1 then [op.frame] else []
  }

  lemma StepLogs(l: Link, op: Op)
    requires l.r.WellFormed() && Inv(l) && (op.Push? ==> |op.frame| == |l.w.ccs|)
    requires Step(l, op).Some?
    ensures FramesOf(Step(l, op).value.log) == FramesOf(l.log) + AcceptedNow(l, op)
  {
    match op {
      case Push(frame, counter) => PushLogs(l, frame, counter);
      case Flush => FramesOfSnoc(l.log, Group(Flushed, []));
      case Deliver(_, _) =>
      case Miss(_) =>
      case Take =>
    }
  }

  lemma PushLogs(l: Link, frame: Frame, counter: u32)
    requires l.r.WellFormed() && Inv(l) && |frame| == |l.w.ccs|
    ensures var op := Push(frame, counter); FramesOf(Step(l, op).value.log) == FramesOf(l.log) + AcceptedNow(l, op)
  {
    var (w, accepted) := l.w.PushSample(frame, counter);
    if accepted && l.w.tillSync == 0 {
      assert SamplesOf(w.ccs) == frame;
      FramesOfSnoc(l.log, Group(Resync(counter, w.ccs), []));
    } else if accepted {
      FramesOfGrown(l.log, frame);
    }
  }

  lemma FramesOfSnoc(log: seq<Group>, g: Group)
    requires g.frames == []
    ensures FramesOf(log + [g]) == FramesOf(log) + if g.ctl.Resync? then [SamplesOf(g.ctl.base)] else []
  {
    assert (log + [g])[..|log|] == log;
  }

  lemma FramesOfGrown(log: seq<Group>, frame: Frame)
    requires log != []
    ensures FramesOf(LogFrame(log, frame)) == FramesOf(log) + [frame]
  {
    var more := LogFrame(log, frame);
    assert more[..|more| - 1] == log[..|log| - 1];
  }

  lemma RunUnfolds(l: Link, ops: seq<Op>) returns (m: Link)
    requires l.w.WellFormed() && l.r.WellFormed() && Inv(l) && AdmissibleRun(l, ops) && ops != []
    ensures ops[0].Push? ==> |ops[0].frame| == |l.w.ccs|
    ensures Step(l, ops[0]) == Some(m) && m.w.WellFormed() && m.r.WellFormed() && Inv(m) && AdmissibleRun(m, ops[1..])
    ensures Run(l, ops) == Run(m, ops[1..])
    ensures Accepted(l, ops) == AcceptedNow(l, ops[0]) + Accepted(m, ops[1..])
  {
    StepKeeps(l, ops[0]);
    m := Step(l, ops[0]).value;
  }

  /** The log of a run is its accepted frames: none lost, none added, in order. */
  lemma {:induction false} RunLogs(l: Link, ops: seq<Op>)
    requires l.w.WellFormed() && l.r.WellFormed() && Inv(l) && AdmissibleRun(l, ops)
    ensures Run(l, ops).Some? && FramesOf(Run(l, ops).value.log) == FramesOf(l.log) + Accepted(l, ops)
    decreases |ops|
  {
    if ops == [] {
      assert Accepted(l, ops) == [];
      EmptyRight(FramesOf(l.log));
    } else {
      var m := RunUnfolds(l, ops);
      StepLogs(l, ops[0]);
      RunLogs(m, ops[1..]);
      Associate(FramesOf(l.log), AcceptedNow(l, ops[0]), Accepted(m, ops[1..]));
    }
  }

  // ---------- consequences of the invariant ----------

  lemma PushOnlyAppends(w: WriterView, frame: Frame, counter: u32)
    requires w.WellFormed() && ReserveEnough(|w.ccs|) && |frame| == |w.ccs|
    ensures w.stream.items <= w.PushSample(frame, counter).0.stream.items
  {
    if !w.Refuses() {
      ReserveSuffices(w, frame, counter);
      PushAllFits(w.stream, Codes(Residuals(w.ccs, frame)));
      PushAllFits(w.stream, ResyncRecord(counter, AdvanceAll(w.ccs, frame)));
    }
  }

  lemma FlushOnlyAppends(w: WriterView)
    requires w.WellFormed()
    ensures w.stream.items <= w.Flush().0.stream.items
  {
    if w.Flush().1 {
      PushAllFits(w.stream, [FLUSH]);
    }
  }

  /** No push overwrites an unread byte, and a writer with room for more than its reserve is never stuck. */
  lemma UnreadBytesStay(l: Link, op: Op)
    requires Inv(l) && l.r.WellFormed() && (op.Push? ==> |op.frame| == |l.w.ccs|) && (op.Push? || op.Flush?)
    ensures l.w.stream.items <= Step(l, op).value.w.stream.items
    ensures l.w.backpressure ==> !Stuck(l.w)
  {
    var pre :| InvWith(l, pre);
    if op.Flush? {
      FlushOnlyAppends(l.w);
    } else {
      FewChannels(|l.w.ccs|);
      PushOnlyAppends(l.w, op.frame, op.counter);
    }
  }

  /** The next thing readNext hands out is a control record, or there is nothing left at all. */
  predicate AtControl(w: WriterView)
    requires w.WellFormed()
  {
    w.stream.items == [] || (w.ReadDefined() && w.Upcoming().0 == Control)
  }

  lemma NothingAhead(l: Link, pre: seq<byte>)
    requires InvWith(l, pre) && AtControl(l.w)
    ensures pre == [] && (l.w.stream.items == [] ==> l.read == |l.log|)
  {
    if l.read < |l.log| {
      FrontMark(l.w.stream, l.w.marks.items, l.log[l.read..], pre);
    }
  }

  /**
    Whenever the next segment is a control record, however many are queued behind it, the
    reader has the predictor the writer had after the last frame of the epoch being read.
  */
  lemma PredictorsAgree(l: Link)
    requires Inv(l) && l.w.WellFormed() && l.r.inSync && AtControl(l.w)
    ensures l.r.WellFormed() && l.read <= |l.log| && l.r.Settle().Some? && AtFrame(l.r.Settle().value)
    ensures LastEpoch(l.log[..l.read]).Some? &&
            var g := LastEpoch(l.log[..l.read]).value;
            EpochOk(g, |l.w.ccs|, l.w.period) && l.r.Settle().value.asm.ccs == Predict(g.ctl.base, g.frames)
    ensures l.w.stream.items == [] ==>
      l.log[..l.read] == l.log && (l.w.tillSync > 0 ==> l.r.Settle().value.asm.ccs == l.w.ccs)
  {
    var pre :| InvWith(l, pre);
    NothingAhead(l, pre);
    if l.w.stream.items == [] {
      assert l.log[..l.read] == l.log;
    }
  }
}

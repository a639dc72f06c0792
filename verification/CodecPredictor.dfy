/**
  The reader's predictor while an epoch is only partly read, and what a gap does.

  A segment may end anywhere, inside a code or inside a frame. `PredictorTracks` says that
  even so, in every run, a reader in sync stands `k` whole frames into its epoch: its
  predictor is the writer's after the first k frames, its block holds exactly those, and
  the residuals it has put aside are the first ones of frame k. `GapMeansResync` follows a
  run across a refused sample or a flush up to the next accepted sample.
*/
module CodecPredictor {
  import opened Words
  import opened DodCode
  import opened Ring
  import opened CodecWriter
  import opened CodecReader
  import opened CodecEpoch
  import opened CodecWire
  import opened CodecFollow
  import opened CodecRefinement

  // ---------- part of an epoch ----------

  /** k whole frames of the group, and the first residuals of the next. */
  ghost predicate Stands(a: Assembler, g: Group, k: nat) {
    && g.ctl.Resync? && Fits(g.frames, |g.ctl.base|) && a.WellFormed() && k <= |g.frames|
    && a.ccs == Predict(g.ctl.base, g.frames[..k])
    && a.samples == SamplesOf(g.ctl.base) + Flatten(g.frames[..k])
    && (a.cur > 0 ==> k < |g.frames| && a.dod[..a.cur] == Residuals(a.ccs, g.frames[k])[..a.cur])
  }

  /** The assembler at the start of the epoch. */
  ghost predicate Fresh(a: Assembler, g: Group) {
    && g.ctl.Resync? && Fits(g.frames, |g.ctl.base|) && a.WellFormed() && a.cur == 0
    && a.ccs == g.ctl.base && a.samples == SamplesOf(g.ctl.base) && HasRoom(a, g.frames)
  }

  /** It has since taken some of the residuals of the epoch, in order. */
  ghost predicate Partway(a: Assembler, g: Group, start: Assembler, taken: seq<i16>) {
    Fresh(start, g) && taken <= Chain(g.ctl.base, g.frames) && start.PutAll(taken) == Some(a)
  }

  /** Less than a frame of residuals is put aside. */
  lemma PutPart(a: Assembler, frame: Frame, part: seq<i16>)
    requires a.WellFormed() && a.cur == 0 && |frame| == a.Channels() && |part| < a.Channels()
      && part <= Residuals(a.ccs, frame)
    ensures var b := a.PutAll(part);
      b.Some? && b.value.WellFormed() && b.value.ccs == a.ccs && b.value.samples == a.samples &&
      b.value.cur == |part| && b.value.dod[..|part|] == part
  {
    if part != [] {
      PutRun(a, part);
    }
  }

  lemma HasRoomFor(a: Assembler, frames: seq<Frame>)
    requires frames != [] && HasRoom(a, frames)
    ensures HasRoom(a, frames[..|frames| - 1])
    ensures |a.samples| + |Flatten(frames[..|frames| - 1])| + |frames[|frames| - 1]| <= a.cap
  {
  }

  lemma FitsPrefix(frames: seq<Frame>, channels: nat, k: nat)
    requires Fits(frames, channels) && k <= |frames|
    ensures Fits(frames[..k], channels)
  {
  }

  /** Residuals that end in the last frame. */
  lemma EndsInLast(g: Group, init: Group, start: Assembler, taken: seq<i16>, last: Frame) returns (k: nat)
    requires Fresh(start, g) && g.frames == init.frames + [last] && init.ctl == g.ctl && HasRoom(start, init.frames)
    requires Fits(init.frames, |g.ctl.base|) && Chain(g.ctl.base, init.frames) <= taken <= Chain(g.ctl.base, g.frames)
    ensures start.PutAll(taken).Some? && Stands(start.PutAll(taken).value, g, k)
  {
    var base, whole := g.ctl.base, Chain(g.ctl.base, init.frames);
    var part := taken[|whole|..];
    ChainSnoc(base, init.frames, last);
    PutFrames(start, init.frames);
    PutConcat(start, whole, part);
    assert taken == whole + part;
    var b := start.PutAll(whole).value;
    PartOfLast(whole, part, Residuals(b.ccs, last), taken);
    k := LastPart(g, init, b, part, last);
  }

  /** From the frames before it, part or all of the last. */
  lemma LastPart(g: Group, init: Group, b: Assembler, part: seq<i16>, last: Frame) returns (k: nat)
    requires g.ctl.Resync? && g.frames == init.frames + [last] && init.ctl == g.ctl && Fits(g.frames, |g.ctl.base|)
    requires b.WellFormed() && b.cur == 0 && Fits(init.frames, |g.ctl.base|)
      && b.ccs == Predict(g.ctl.base, init.frames)
    requires b.samples == SamplesOf(g.ctl.base) + Flatten(init.frames)
      && |SamplesOf(g.ctl.base)| + |Flatten(g.frames)| <= b.cap
    requires |last| == |b.ccs| && part <= Residuals(b.ccs, last)
      && (|part| == |last| ==> part == Residuals(b.ccs, last))
    ensures b.PutAll(part).Some? && Stands(b.PutAll(part).value, g, k)
  {
    assert g.frames[..|init.frames|] == init.frames;
    if |part| < |last| {
      PutPart(b, last, part);
      k := |init.frames|;
    } else {
      PutFrame(b, last);
      k := |g.frames|;
      assert g.frames[..k] == g.frames;
      Associate(SamplesOf(g.ctl.base), Flatten(init.frames), last);
    }
  }

  lemma PartOfLast(whole: seq<i16>, part: seq<i16>, dods: seq<i16>, taken: seq<i16>)
    requires taken == whole + part && taken <= whole + dods
    ensures part <= dods && (|part| == |dods| ==> part == dods)
  {
    assert part == taken[|whole|..] && dods == (whole + dods)[|whole|..];
  }

  /** Any number of the residuals leaves the assembler a whole number of frames into the epoch. */
  lemma {:induction false} PutSome(g: Group, start: Assembler, taken: seq<i16>) returns (k: nat)
    requires Fresh(start, g) && taken <= Chain(g.ctl.base, g.frames)
    ensures start.PutAll(taken).Some? && Stands(start.PutAll(taken).value, g, k)
    decreases |g.frames|
  {
    if g.frames == [] {
      k := 0;
      EmptyRight(start.samples);
    } else {
      var last := g.frames[|g.frames| - 1];
      var init := g.(frames := g.frames[..|g.frames| - 1]);
      FitsPrefix(g.frames, |g.ctl.base|, |g.frames| - 1);
      HasRoomFor(start, g.frames);
      if |taken| < |Chain(g.ctl.base, init.frames)| {
        assert taken <= Chain(g.ctl.base, init.frames);
        k := PutSome(init, start, taken);
        StandsLonger(start.PutAll(taken).value, init, g, k);
      } else {
        assert Chain(g.ctl.base, init.frames) <= taken;
        k := EndsInLast(g, init, start, taken, last);
      }
    }
  }

  lemma StandsLonger(a: Assembler, init: Group, g: Group, k: nat)
    requires Stands(a, init, k) && g.ctl == init.ctl && init.frames <= g.frames && Fits(g.frames, |g.ctl.base|)
    ensures Stands(a, g, k)
  {
    assert g.frames[..k] == init.frames[..k];
  }

  // ---------- what can happen to the reader ----------

  ghost predicate Tracks(r: ReaderView, epoch: Option<Group>)
    requires r.WellFormed()
  {
    r.inSync ==> epoch.Some? && r.Settle().Some? && exists start, taken ::
      Partway(r.Settle().value.asm, epoch.value, start, taken)
  }

  lemma PutAligned(a: Assembler, d: i16)
    requires a.WellFormed() && a.Put(d).Some?
    ensures Aligned(a.Put(d).value)
  {
  }

  lemma {:induction false} PutAllAligned(a: Assembler, ds: seq<i16>)
    requires a.WellFormed() && Aligned(a) && a.PutAll(ds).Some?
    ensures Aligned(a.PutAll(ds).value)
    decreases |ds|
  {
    if ds != [] {
      PutAligned(a, ds[0]);
      PutAllAligned(a.Put(ds[0]).value, ds[1..]);
    }
  }

  /** The residuals taken and those still to be parsed are those of the epoch: no others rebuild its samples. */
  lemma RestOfChain(v: ReaderView, pre: seq<byte>, g: Group, start: Assembler, taken: seq<i16>)
    requires v.WellFormed() && Partway(v.asm, g, start, taken) && v.FeedAll(pre).Some?
    requires Agrees(v.FeedAll(pre).value, SamplesSince(g), Predict(g.ctl.base, g.frames))
    ensures Aligned(v.asm) && taken + v.parser.ParseAll(pre).1 == Chain(g.ctl.base, g.frames)
  {
    var ds := v.parser.ParseAll(pre).1;
    PutAllAligned(start, taken);
    FeedIsParseThenPut(v, pre);
    PutConcat(start, taken, ds);
    PutFrames(start, g.frames);
    PutAllInjective(start, taken + ds, Chain(g.ctl.base, g.frames));
  }

  lemma ParsedPrefix(p: Parser, xs: seq<byte>, ys: seq<byte>)
    requires p.WellFormed()
    ensures p.ParseAll(xs).1 <= p.ParseAll(xs + ys).1
  {
    ParseConcat(p, xs, ys);
  }

  lemma FedPrefix(v: ReaderView, xs: seq<byte>, ys: seq<byte>)
    requires v.WellFormed() && v.FeedAll(xs + ys).Some?
    ensures v.FeedAll(xs).Some?
  {
    FeedConcat(v, xs, ys);
  }

  lemma FedPut(v: ReaderView, bytes: seq<byte>)
    requires v.WellFormed() && Aligned(v.asm) && v.FeedAll(bytes).Some?
    ensures v.asm.PutAll(v.parser.ParseAll(bytes).1) == Some(v.FeedAll(bytes).value.asm)
  {
    FeedIsParseThenPut(v, bytes);
  }

  lemma TakesMore(a: Assembler, b: Assembler, g: Group, start: Assembler, taken: seq<i16>, ds: seq<i16>, rest: seq<i16>)
    requires Partway(a, g, start, taken) && a.PutAll(ds) == Some(b) && ds <= rest
      && taken + rest == Chain(g.ctl.base, g.frames)
    ensures Partway(b, g, start, taken + ds)
  {
    PutConcat(start, taken, ds);
  }

  /** Bytes of the epoch are decoded up to any cut. */
  lemma FeedSome(v: ReaderView, xs: seq<byte>, ys: seq<byte>, g: Group, start: Assembler, taken: seq<i16>)
    requires v.WellFormed() && Partway(v.asm, g, start, taken) && v.FeedAll(xs + ys).Some?
    requires Agrees(v.FeedAll(xs + ys).value, SamplesSince(g), Predict(g.ctl.base, g.frames))
    ensures v.FeedAll(xs).Some? && Partway(v.FeedAll(xs).value.asm, g, start, taken + v.parser.ParseAll(xs).1)
  {
    var ds, rest := v.parser.ParseAll(xs).1, v.parser.ParseAll(xs + ys).1;
    RestOfChain(v, xs + ys, g, start, taken);
    ParsedPrefix(v.parser, xs, ys);
    FedPrefix(v, xs, ys);
    FedPut(v, xs);
    TakesMore(v.asm, v.FeedAll(xs).value.asm, g, start, taken, ds, rest);
  }

  lemma PartTracks(r: ReaderView, xs: seq<byte>, ys: seq<byte>, g: Group, channels: nat, period: nat, past: byte)
    requires ReaderAt(r, xs + ys, Some(g), channels, period) && r.inSync && xs != [] && Tracks(r, Some(g))
    ensures var d := r.Decode(xs, Samples, past); d.Some? && Tracks(d.value.0, Some(g))
  {
    var v := r.Settle().value;
    var start, taken :| Partway(v.asm, g, start, taken);
    SettledState(r, channels, period);
    FeedSome(v, xs, ys, g, start, taken);
    FeedLeavesSample(v, xs);
  }

  lemma PieceTracks(r: ReaderView, pre: seq<byte>, epoch: Option<Group>, channels: nat, period: nat, n: nat, past: byte)
    requires ReaderAt(r, pre, epoch, channels, period) && n <= |pre| && Tracks(r, epoch)
    ensures var d := r.Decode(pre[..n], Samples, past); d.Some? && Tracks(d.value.0, epoch)
  {
    if r.inSync && n > 0 {
      assert pre[..n] + pre[n..] == pre;
      PartTracks(r, pre[..n], pre[n..], epoch.value, channels, period, past);
    } else {
      PieceComes(r, pre, epoch, channels, period, n, past);
    }
  }

  lemma FlushTracks(r: ReaderView, epoch: Option<Group>, channels: nat, period: nat, past: byte)
    requires ReaderAt(r, [], epoch, channels, period) && Tracks(r, epoch)
    ensures var d := r.Decode([FLUSH], Control, past); d.Some? && Tracks(d.value.0, epoch)
  {
    if r.inSync {
      SettledState(r, channels, period);
    }
  }

  /** A resync record in the scratch buffer is the start of its epoch. */
  lemma RecordTracks(u: ReaderView, g: Group, channels: nat, period: nat)
    requires Waiting(u, g, channels, period) && u.asm.cur == 0
    ensures Tracks(u, Some(g))
  {
    SettledState(u, channels, period);
    var a := u.Settle().value.asm;
    EpochFits(g, channels, period, u.asm.cap);
    assert Partway(a, g, a, []);
  }

  lemma ResyncTracks(r: ReaderView, epoch: Option<Group>, channels: nat, period: nat, g: Group, past: byte)
    requires ReaderAt(r, [], epoch, channels, period) && EpochOk(g, channels, period)
    ensures var d := r.Decode(CtlBytes(g.ctl), Control, past); d.Some? && Tracks(d.value.0, Some(g))
  {
    RecordDecoded(r, g, channels, period, past);
    RecordTracks(r.Decode(CtlBytes(g.ctl), Control, past).value.0, g, channels, period);
  }

  /** The epoch being read grows by a frame. */
  lemma FrameTracks(r: ReaderView, g: Group, h: Group, frame: Frame, channels: nat, period: nat)
    requires Shape(r, channels, period) && Extends(g, h, frame, channels, period) && Tracks(r, Some(g))
    ensures Tracks(r, Some(h))
  {
    if r.inSync {
      SettledState(r, channels, period);
      var a := r.Settle().value.asm;
      var start, taken :| Partway(a, g, start, taken);
      ExtendedGroup(g, h, frame, channels, period);
      ChainSnoc(g.ctl.base, g.frames, frame);
      PutAllShape(start, taken);
      EpochFits(h, channels, period, start.cap);
      assert Partway(a, h, start, taken);
    }
  }

  lemma {:induction false} PutAllShape(a: Assembler, ds: seq<i16>)
    requires a.WellFormed() && a.PutAll(ds).Some?
    ensures a.PutAll(ds).value.cap == a.cap
    decreases |ds|
  {
    if ds != [] {
      PutAllShape(a.Put(ds[0]).value, ds[1..]);
    }
  }

  // ---------- every step and every run ----------

  ghost predicate LinkTracks(l: Link) {
    l.r.WellFormed() && l.read <= |l.log| && Tracks(l.r, LastEpoch(l.log[..l.read]))
  }

  /** An accepted frame grows the epoch being read, unless a later record is still queued. */
  lemma FrameKeepsTracks(l: Link, pre: seq<byte>, frame: Frame)
    requires InvWith(l, pre) && LinkTracks(l) && l.w.tillSync > 0 && |frame| == |l.w.ccs|
      && AllCodable(Residuals(l.w.ccs, frame))
    ensures l.read <= |LogFrame(l.log, frame)| && Tracks(l.r, LastEpoch(LogFrame(l.log, frame)[..l.read]))
  {
    var init, g := l.log[..|l.log| - 1], l.log[|l.log| - 1];
    var h := g.(frames := g.frames + [frame]);
    SplitLast(l.log);
    if l.read < |l.log| {
      SnocParts(init, g, l.read);
      SnocParts(init, h, l.read);
    } else {
      assert l.log[..l.read] == l.log && (init + [h])[..l.read] == init + [h];
      LastEpochSnoc(init, g);
      LastEpochSnoc(init, h);
      FrameTracks(l.r, g, h, frame, |l.w.ccs|, l.w.period);
    }
  }

  lemma PushTracks(l: Link, frame: Frame, counter: u32)
    requires Inv(l) && l.r.WellFormed() && Admissible(l, Push(frame, counter)) && LinkTracks(l)
    ensures LinkTracks(Step(l, Push(frame, counter)).value)
  {
    var pre :| InvWith(l, pre);
    if l.w.Refuses() {
    } else if l.w.tillSync == 0 {
      SnocParts(l.log, Group(Resync(counter, AdvanceAll(l.w.ccs, frame)), []), l.read);
    } else {
      FrameKeepsTracks(l, pre, frame);
    }
  }

  lemma DeliverTracks(l: Link, pre: seq<byte>, room: nat, past: byte)
    requires InvWith(l, pre) && l.r.WellFormed() && LinkTracks(l) && Step(l, Deliver(room, past)).Some?
    ensures LinkTracks(Step(l, Deliver(room, past)).value)
  {
    var epoch := LastEpoch(l.log[..l.read]);
    if pre != [] || l.read == |l.log| {
      PieceTracks(l.r, pre, epoch, |l.w.ccs|, l.w.period, Min(|pre|, room), past);
      PieceStep(l, pre, room, past);
    } else {
      RecordStepTracks(l, room, past);
    }
  }

  lemma RecordStepTracks(l: Link, room: nat, past: byte)
    requires InvWith(l, []) && l.r.WellFormed() && l.read < |l.log| && LinkTracks(l)
      && Step(l, Deliver(room, past)).Some?
    ensures LinkTracks(Step(l, Deliver(room, past)).value)
  {
    var g, epoch := l.log[l.read], LastEpoch(l.log[..l.read]);
    if room < |CtlBytes(g.ctl)| {
      RecordWithheld(l, room, past);
    } else {
      MoveOne(l.log, l.read);
      LastEpochSnoc(l.log[..l.read], g);
      if g.ctl.Resync? {
        ResyncTracks(l.r, epoch, |l.w.ccs|, l.w.period, g, past);
      } else {
        FlushTracks(l.r, epoch, |l.w.ccs|, l.w.period, past);
      }
      RecordStep(l, g, room, past);
    }
  }

  lemma StepTracks(l: Link, op: Op)
    requires Inv(l) && l.r.WellFormed() && Admissible(l, op) && LinkTracks(l) && Step(l, op).Some?
    ensures LinkTracks(Step(l, op).value)
  {
    match op {
      case Push(frame, counter) => PushTracks(l, frame, counter);
      case Flush => FlushKeepsTracks(l);
      case Deliver(room, past) =>
        var pre :| InvWith(l, pre);
        DeliverTracks(l, pre, room, past);
      case Miss(room) => MissTracks(l, room);
      case Take => TakeTracks(l);
    }
  }

  lemma FlushKeepsTracks(l: Link)
    requires l.w.WellFormed() && LinkTracks(l)
    ensures LinkTracks(Step(l, Flush).value)
  {
    if l.w.Flush().1 {
      SnocParts(l.log, Group(Flushed, []), l.read);
    }
  }

  lemma MissTracks(l: Link, room: nat)
    requires Inv(l) && l.w.WellFormed() && l.r.WellFormed() && !l.r.inSync && Step(l, Miss(room)).Some?
    ensures LinkTracks(Step(l, Miss(room)).value)
  {
    StepKeeps(l, Miss(room));
  }

  lemma TakeTracks(l: Link)
    requires l.w.WellFormed() && LinkTracks(l)
    ensures LinkTracks(Step(l, Take).value)
  {
  }

  lemma {:induction false} RunTracks(l: Link, ops: seq<Op>)
    requires l.w.WellFormed() && l.r.WellFormed() && Inv(l) && AdmissibleRun(l, ops) && LinkTracks(l)
    ensures Run(l, ops).Some? && Inv(Run(l, ops).value) && LinkTracks(Run(l, ops).value)
    decreases |ops|
  {
    if ops != [] {
      StepKeeps(l, ops[0]);
      StepTracks(l, ops[0]);
      RunTracks(Step(l, ops[0]).value, ops[1..]);
    }
  }

  /**
    In every admissible run from construction, wherever the last segment was cut, a reader
    in sync stands a whole number of frames into the last epoch it has seen a record of.
  */
  lemma PredictorTracks(start: Link, ops: seq<Op>)
    requires Start(start) && AdmissibleRun(start, ops)
    ensures Run(start, ops).Some?
    ensures var l := Run(start, ops).value;
      l.read <= |l.log| &&
      (l.r.inSync ==>
        var epoch := LastEpoch(l.log[..l.read]);
        epoch.Some? && l.r.Settle().Some? && exists k :: Stands(l.r.Settle().value.asm, epoch.value, k))
  {
    StartInv(start);
    RunTracks(start, ops);
    var l := Run(start, ops).value;
    if l.r.inSync {
      var g, a := LastEpoch(l.log[..l.read]).value, l.r.Settle().value.asm;
      var fresh0, taken :| Partway(a, g, fresh0, taken);
      var k := PutSome(g, fresh0, taken);
    }
  }

  // ---------- gaps ----------

  /** No sample is accepted: the next one still has to be a resync sample. */
  lemma QuietStep(l: Link, op: Op)
    requires Inv(l) && l.r.WellFormed() && Admissible(l, op) && Step(l, op).Some?
    requires l.w.tillSync == 0 && AcceptedNow(l, op) == []
    ensures Step(l, op).value.w.tillSync == 0
  {
    match op {
      case Push(_, _) =>
      case Flush =>
      case Deliver(room, _) =>
        var pre :| InvWith(l, pre);
        NextSegment(l.w, l.log[l.read..], pre, room);
      case Miss(room) =>
        var pre :| InvWith(l, pre);
        NextSegment(l.w, l.log[l.read..], pre, room);
      case Take =>
    }
  }

  lemma {:induction false} QuietRun(l: Link, ops: seq<Op>)
    requires l.w.WellFormed() && l.r.WellFormed() && Inv(l) && AdmissibleRun(l, ops)
    requires l.w.tillSync == 0 && Accepted(l, ops) == []
    ensures Run(l, ops).Some? && Inv(Run(l, ops).value) && Run(l, ops).value.w.tillSync == 0
    decreases |ops|
  {
    if ops != [] {
      var m := RunUnfolds(l, ops);
      QuietStep(l, ops[0]);
      QuietRun(m, ops[1..]);
    }
  }

  /** A sample is refused, or a flush record is written. */
  predicate MakesGap(l: Link, op: Op)
    requires l.w.WellFormed()
  {
    (op.Push? && l.w.Refuses()) || (op.Flush? && l.w.Flush().1)
  }

  lemma GapStep(l: Link, gap: Op)
    requires l.w.WellFormed() && l.r.WellFormed() && Admissible(l, gap) && MakesGap(l, gap)
    requires l.w.backpressure ==> l.w.tillSync == 0
    ensures Step(l, gap).Some? && Step(l, gap).value.w.tillSync == 0
  {
  }

  lemma PushIsResync(m: Link, frame: Frame, counter: u32)
    requires m.w.WellFormed() && m.r.WellFormed() && |frame| == |m.w.ccs| && !m.w.Refuses() && m.w.tillSync == 0
    ensures var base := AdvanceAll(m.w.ccs, frame);
      SamplesOf(base) == frame && Step(m, Push(frame, counter)).value.log == m.log + [Group(Resync(counter, base), [])]
  {
    assert SamplesOf(AdvanceAll(m.w.ccs, frame)) == frame;
  }

  lemma QuietUnderBackpressure(l: Link)
    requires Inv(l)
    ensures l.w.backpressure ==> l.w.tillSync == 0
  {
    var pre :| InvWith(l, pre);
  }

  /**
    After a refused sample or a flush, whatever happens until the next accepted sample, that
    sample is logged as a full resync record: its base is the writer's predictor, which
    followed the refused samples too, and shows the sample itself.
  */
  lemma GapMeansResync(l: Link, gap: Op, ops: seq<Op>, frame: Frame, counter: u32)
    requires Inv(l) && l.w.WellFormed() && l.r.WellFormed() && Admissible(l, gap) && MakesGap(l, gap)
    requires AdmissibleRun(Step(l, gap).value, ops) && Accepted(Step(l, gap).value, ops) == []
    ensures l.w.backpressure ==> l.w.tillSync == 0
    ensures Run(Step(l, gap).value, ops).Some?
    ensures var m := Run(Step(l, gap).value, ops).value;
      |frame| == |m.w.ccs| && !m.w.Refuses() ==>
        var base := AdvanceAll(m.w.ccs, frame);
        SamplesOf(base) == frame
          && Step(m, Push(frame, counter)).value.log == m.log + [Group(Resync(counter, base), [])]
  {
    QuietUnderBackpressure(l);
    StepKeeps(l, gap);
    GapStep(l, gap);
    QuietRun(Step(l, gap).value, ops);
    var m := Run(Step(l, gap).value, ops).value;
    if |frame| == |m.w.ccs| && !m.w.Refuses() {
      PushIsResync(m, frame, counter);
    }
  }
}

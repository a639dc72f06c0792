/**
  A reader in sync that has missed segments, and the resync record that comes next.

  The record carries the whole predictor, and syncUpdate loads it, but neither it nor
  decodeResyncDod resets `current_channel` (fdlib/middleware/DAQCodec.h, lines 385-399 and
  476-497). So `ResyncHeals`: whatever the reader went through, the record brings it back
  into agreement if and only if no residual was put aside. Otherwise it stays off by as
  many channels over that epoch and every later one: `OffStaysOff`.
*/
module CodecLoss {
  import opened Words
  import opened DodCode
  import opened CodecWriter
  import opened CodecReader
  import opened CodecEpoch
  import opened CodecWire
  import opened CodecFollow

  /** Samples rebuilt, counting residuals put aside. */
  function Count(a: Assembler): nat {
    |a.samples| + a.cur
  }

  lemma EmitCounts(a: Assembler)
    requires a.WellFormed()
    ensures Count(a.EmitIfComplete()) == Count(a)
  {
  }

  lemma PutCounts(a: Assembler, d: i16)
    requires a.WellFormed() && a.Put(d).Some?
    ensures Count(a.Put(d).value) == Count(a) + 1
  {
    EmitCounts(a.(dod := a.dod[a.cur := d], cur := a.cur + 1));
  }

  lemma FeedOneCounts(v: ReaderView, b: byte)
    requires v.WellFormed() && v.Feed(b).Some?
    ensures Count(v.Feed(b).value.asm) == Count(v.asm) + |ToSeq(v.parser.Parse(b).1)|
      && v.Feed(b).value.parser == v.parser.Parse(b).0
  {
    match v.parser.Parse(b).1 {
      case None => EmitCounts(v.asm);
      case Some(d) => PutCounts(v.asm, d);
    }
  }

  /** Each residual parsed counts once, whether the frame it completes is emitted or not. */
  lemma {:induction false} FeedCounts(v: ReaderView, bytes: seq<byte>)
    requires v.WellFormed() && v.FeedAll(bytes).Some?
    ensures Count(v.FeedAll(bytes).value.asm) == Count(v.asm) + |v.parser.ParseAll(bytes).1|
    decreases |bytes|
  {
    if bytes != [] {
      FeedOneCounts(v, bytes[0]);
      FeedCounts(v.Feed(bytes[0]).value, bytes[1..]);
    }
  }

  lemma {:induction false} ChainLength(base: seq<ChannelState>, frames: seq<Frame>)
    requires Fits(frames, |base|)
    ensures |Chain(base, frames)| == |Flatten(frames)|
    decreases |frames|
  {
    if frames != [] {
      ChainLength(base, frames[..|frames| - 1]);
    }
  }

  /** The epoch loaded, but for the residuals put aside. */
  lemma Loaded(u: ReaderView, g: Group, channels: nat, period: nat)
    requires Waiting(u, g, channels, period)
    ensures u.Settle().Some?
    ensures var v := u.Settle().value;
      && v.WellFormed() && v.parser.state == DOD && v.asm.cur == u.asm.cur && v.asm.samples == SamplesOf(g.ctl.base)
      && v.asm.Channels() == channels && v.asm.cap == u.asm.cap
  {
    SettledState(u, channels, period);
  }

  /** Agreement at the end of the epoch leaves no residual unaccounted for. */
  lemma ReachesMeansNone(u: ReaderView, g: Group, channels: nat, period: nat)
    requires Waiting(u, g, channels, period) && Reaches(u, SampleBytes(g), g, channels, period)
    ensures u.asm.cur == 0
  {
    var v := u.Settle().value;
    Loaded(u, g, channels, period);
    FeedCounts(v, SampleBytes(g));
    ParseExactly(v.parser, Chain(g.ctl.base, g.frames));
    ChainLength(g.ctl.base, g.frames);
  }

  /**
    Whatever a reader has been through, a resync record brings it back into agreement, now
    and over the samples that follow, exactly when it has no residual put aside.
  */
  lemma ResyncHeals(r: ReaderView, g: Group, channels: nat, period: nat, past: byte)
    requires Shape(r, channels, period) && EpochOk(g, channels, period)
    ensures var d := r.Decode(CtlBytes(g.ctl), Control, past);
      d.Some? && d.value.1 == OK && (Reaches(d.value.0, SampleBytes(g), g, channels, period) <==> r.asm.cur == 0)
  {
    RecordDecoded(r, g, channels, period, past);
    var u := r.Decode(CtlBytes(g.ctl), Control, past).value.0;
    if r.asm.cur == 0 {
      SettledRecord(u, g, channels, period);
    }
    if Reaches(u, SampleBytes(g), g, channels, period) {
      ReachesMeansNone(u, g, channels, period);
    }
  }

  // ---------- off by some channels ----------

  /**
    A frame's worth of residuals into a frame already begun: one frame is emitted, and as
    many residuals are left as before.
  */
  lemma PutAcross(a: Assembler, dods: seq<i16>)
    requires a.WellFormed() && 0 < a.cur < a.Channels() == |dods| && !a.Full()
    ensures var b := a.PutAll(dods);
      b.Some? && b.value.WellFormed() && b.value.cur == a.cur && |b.value.samples| == |a.samples| + a.Channels() &&
      b.value.Channels() == a.Channels() && b.value.cap == a.cap
  {
    var n := a.Channels() - a.cur;
    PutRun(a, dods[..n]);
    var b := a.PutAll(dods[..n]).value;
    PutRun(b, dods[n..]);
    assert dods[..n] + dods[n..] == dods;
    PutConcat(a, dods[..n], dods[n..]);
  }

  ghost predicate Across(a: Assembler, frames: seq<Frame>, b: Option<Assembler>) {
    && b.Some? && b.value.WellFormed() && b.value.cur == a.cur && b.value.Channels() == a.Channels()
      && b.value.cap == a.cap
    && |b.value.samples| == |a.samples| + |Flatten(frames)|
  }

  /** The residuals of whole frames, whatever predictor they were made with. */
  lemma {:induction false} PutFramesAcross(a: Assembler, base: seq<ChannelState>, frames: seq<Frame>)
    requires a.WellFormed() && 0 < a.cur < a.Channels() == |base| && Fits(frames, |base|) && HasRoom(a, frames)
    ensures Across(a, frames, a.PutAll(Chain(base, frames)))
    decreases |frames|
  {
    if frames != [] {
      var init, last := frames[..|frames| - 1], frames[|frames| - 1];
      PutFramesAcross(a, base, init);
      PutAcross(a.PutAll(Chain(base, init)).value, Residuals(Predict(base, init), last));
      PutConcat(a, Chain(base, init), Residuals(Predict(base, init), last));
    }
  }

  /** The whole epoch is decoded, and the reader is off as before. */
  lemma EpochAcross(u: ReaderView, g: Group, channels: nat, period: nat)
    requires Waiting(u, g, channels, period) && 0 < u.asm.cur < channels
    ensures u.Settle().Some? && var w := u.Settle().value.FeedAll(SampleBytes(g));
      w.Some? && w.value.asm.cur == u.asm.cur && w.value.parser.state == DOD && Shape(w.value, channels, period)
  {
    Loaded(u, g, channels, period);
    var v := u.Settle().value;
    EpochFits(g, channels, period, u.asm.cap);
    PutFramesAcross(v.asm, g.ctl.base, g.frames);
    ParseExactly(v.parser, Chain(g.ctl.base, g.frames));
    FeedIsParseThenPut(v, SampleBytes(g));
  }

  /** A reader off by some channels is off by as many after a resync record and the samples of its epoch. */
  lemma OffStaysOff(r: ReaderView, g: Group, channels: nat, period: nat, past: byte, after: byte)
    requires Shape(r, channels, period) && EpochOk(g, channels, period) && 0 < r.asm.cur < channels
    ensures var d := r.Decode(CtlBytes(g.ctl), Control, past);
      d.Some? && var e := d.value.0.Decode(SampleBytes(g), Samples, after);
        e.Some? && e.value.0.asm.cur == r.asm.cur && Shape(e.value.0, channels, period)
  {
    RecordDecoded(r, g, channels, period, past);
    var u := r.Decode(CtlBytes(g.ctl), Control, past).value.0;
    if SampleBytes(g) != [] {
      EpochAcross(u, g, channels, period);
    }
  }

  /** Each record, with all the samples of its epoch, leaves the reader without agreement. */
  ghost predicate NeverHealed(r: ReaderView, gs: seq<Group>, channels: nat, period: nat, past: byte)
    requires r.WellFormed()
    decreases |gs|
  {
    gs == [] ||
      var d := r.Decode(CtlBytes(gs[0].ctl), Control, past);
      d.Some? && !Reaches(d.value.0, SampleBytes(gs[0]), gs[0], channels, period) &&
      var e := d.value.0.Decode(SampleBytes(gs[0]), Samples, past);
      e.Some? && NeverHealed(e.value.0, gs[1..], channels, period, past)
  }

  /** So without a new loss it never agrees with the writer again. */
  lemma {:induction false} OffForGood(r: ReaderView, gs: seq<Group>, channels: nat, period: nat, past: byte)
    requires Shape(r, channels, period) && 0 < r.asm.cur < channels && forall i :: 0 <= i < |gs| ==>
      EpochOk(gs[i], channels, period)
    ensures NeverHealed(r, gs, channels, period, past)
    decreases |gs|
  {
    if gs != [] {
      assert EpochOk(gs[0], channels, period);
      ResyncHeals(r, gs[0], channels, period, past);
      OffStaysOff(r, gs[0], channels, period, past, past);
      var d := r.Decode(CtlBytes(gs[0].ctl), Control, past).value.0;
      OffForGood(d.Decode(SampleBytes(gs[0]), Samples, past).value.0, gs[1..], channels, period, past);
    }
  }

  /** One byte of the next frame arrives and the rest of it is lost: the reader is off by a channel. */
  lemma LossPutsOff(r: ReaderView, channels: nat, period: nat, past: byte)
    requires Shape(r, channels, period) && 2 <= channels && r.inSync && AtFrame(r)
    ensures var d := r.Decode([0], Samples, past);
      d.Some? && d.value.0.asm.cur == 1 && Shape(d.value.0, channels, period)
  {
    var v := r.Feed(0).value;
    assert [0 as byte][1..] == [];
    assert r.FeedAll([0]) == v.FeedAll([]);
  }
}

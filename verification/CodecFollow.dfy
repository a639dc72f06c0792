/**
  The reader's half of the refinement: what a reader holds, and what it will hold once
  it has decoded the sample bytes still ahead of the next control record.

  `ReaderAt(r, pre, epoch)` is stated about the future, so it is indifferent to where
  the sample bytes have been cut so far. Each lemma below is one thing that can happen
  to the reader: a frame joins the bytes ahead, a piece of them is decoded, a flush or
  a resync record is decoded.
*/
module CodecFollow {
  import opened Words
  import opened DodCode
  import opened CodecWriter
  import opened CodecReader
  import opened CodecEpoch
  import opened CodecWire

  ghost predicate GroupOk(g: Group, channels: nat, period: nat) {
    match g.ctl
    case Resync(_, base) =>
      && |base| == channels && Fits(g.frames, channels)
      && |g.frames| <= period && AllCodable(Chain(base, g.frames))
    case Flushed => g.frames == []
  }

  /** A resync group: what the reader is, or will be, in the middle of. */
  ghost predicate EpochOk(g: Group, channels: nat, period: nat) {
    g.ctl.Resync? && GroupOk(g, channels, period)
  }

  /** The samples accepted since and including the last resync sample, in order. */
  function SamplesSince(g: Group): seq<i16>
    requires g.ctl.Resync?
  {
    SamplesOf(g.ctl.base) + Flatten(g.frames)
  }

  /** A block that takes the longest epoch, and no more channels than a resync record of 64 bytes holds. */
  ghost predicate Shape(r: ReaderView, channels: nat, period: nat) {
    && r.WellFormed() && 1 <= channels <= 14
    && r.asm.Channels() == channels && channels * (1 + period) <= r.asm.cap
  }

  /** Decoding `pre` brings a reader in sync to epoch `g`. */
  ghost predicate Reaches(r: ReaderView, pre: seq<byte>, g: Group, channels: nat, period: nat)
    requires r.WellFormed()
  {
    && r.inSync && EpochOk(g, channels, period) && r.Settle().Some?
    && var v := r.Settle().value.FeedAll(pre);
       && v.Some? && Agrees(v.value, SamplesSince(g), Predict(g.ctl.base, g.frames))
       && v.value.counter == g.ctl.counter
  }

  ghost predicate ReaderAt(r: ReaderView, pre: seq<byte>, epoch: Option<Group>, channels: nat, period: nat) {
    && Shape(r, channels, period)
    && if !r.inSync then AtFrame(r) else epoch.Some? && Reaches(r, pre, epoch.value, channels, period)
  }

  lemma EpochFits(g: Group, channels: nat, period: nat, cap: nat)
    requires EpochOk(g, channels, period) && channels * (1 + period) <= cap
    ensures |SamplesSince(g)| <= cap
    ensures |g.frames| < period ==> |SamplesSince(g)| + channels <= cap
  {
    FlattenLength(g.frames, channels);
    FramesFit(channels, |g.frames|, period);
  }

  lemma Distribute(c: nat, a: nat, b: nat)
    ensures c * (a + b) == c * a + c * b
  {
  }

  lemma FramesFit(channels: nat, n: nat, period: nat)
    requires n <= period
    ensures channels + channels * n <= channels * (1 + period)
    ensures n < period ==> channels + channels * n + channels <= channels * (1 + period)
  {
    Distribute(channels, 1, period);
    Distribute(channels, n, period - n);
    if n < period {
      Distribute(channels, 1, period - n - 1);
    }
  }

  // ---------- a frame joins the bytes ahead ----------

  /** The last group of the log before and after a frame is added to it. */
  ghost predicate Extends(g: Group, h: Group, frame: Frame, channels: nat, period: nat) {
    && EpochOk(g, channels, period) && |frame| == channels
    && h == g.(frames := g.frames + [frame]) && |h.frames| <= period
    && AllCodable(Residuals(Predict(g.ctl.base, g.frames), frame))
  }

  lemma ExtendedGroup(g: Group, h: Group, frame: Frame, channels: nat, period: nat)
    requires Extends(g, h, frame, channels, period)
    ensures EpochOk(h, channels, period)
    ensures GroupBytes(h) == GroupBytes(g) + Codes(Residuals(Predict(g.ctl.base, g.frames), frame))
    ensures Predict(h.ctl.base, h.frames) == AdvanceAll(Predict(g.ctl.base, g.frames), frame)
    ensures SamplesSince(h) == SamplesSince(g) + frame
  {
    ChainSnoc(g.ctl.base, g.frames, frame);
    var xs, ys := Chain(g.ctl.base, g.frames), Residuals(Predict(g.ctl.base, g.frames), frame);
    CodesConcat(xs, ys);
    AllCodableConcat(xs, ys);
    assert SampleBytes(h) == SampleBytes(g) + Codes(ys);
    assert CtlBytes(g.ctl) + (SampleBytes(g) + Codes(ys)) == (CtlBytes(g.ctl) + SampleBytes(g)) + Codes(ys);
  }

  lemma AllCodableConcat(xs: seq<i16>, ys: seq<i16>)
    requires AllCodable(xs) && AllCodable(ys)
    ensures AllCodable(xs + ys)
  {
    assert forall i :: 0 <= i < |xs + ys| ==> (xs + ys)[i] == if i < |xs| then xs[i] else ys[i - |xs|];
  }

  lemma FrameComes(r: ReaderView, pre: seq<byte>, g: Group, h: Group, frame: Frame, channels: nat, period: nat)
    requires Extends(g, h, frame, channels, period)
    requires ReaderAt(r, pre, Some(g), channels, period)
    ensures ReaderAt(r, pre + Codes(Residuals(Predict(g.ctl.base, g.frames), frame)), Some(h), channels, period)
  {
    ExtendedGroup(g, h, frame, channels, period);
    if r.inSync {
      var ccs := Predict(g.ctl.base, g.frames);
      var settled := r.Settle().value;
      var v := settled.FeedAll(pre).value;
      FeedShape(settled, pre);
      EpochFits(g, channels, period, r.asm.cap);
      ExtendByFrame(v, SamplesSince(g), ccs, frame);
      FeedConcat(settled, pre, Codes(Residuals(ccs, frame)));
    }
  }

  // ---------- a piece of the sample bytes is decoded ----------

  lemma {:induction false} FeedLeavesSample(v: ReaderView, bytes: seq<byte>)
    requires v.WellFormed() && v.parser.state != Sample && v.FeedAll(bytes).Some?
    ensures v.FeedAll(bytes).value.parser.state != Sample
    decreases |bytes|
  {
    if bytes != [] {
      FeedLeavesSample(v.Feed(bytes[0]).value, bytes[1..]);
    }
  }

  lemma SettledState(r: ReaderView, channels: nat, period: nat)
    requires Shape(r, channels, period) && r.inSync
    ensures r.Settle().Some? && r.Settle().value.parser.state != Sample
    ensures r.Settle().value.asm.Channels() == channels && r.Settle().value.asm.cap == r.asm.cap
  {
    assert channels * (1 + period) == channels + channels * period;
  }

  /** Wherever the cut falls, the rest of the bytes still leads to the same epoch. */
  lemma PieceComes(r: ReaderView, pre: seq<byte>, epoch: Option<Group>, channels: nat, period: nat, n: nat, past: byte)
    requires ReaderAt(r, pre, epoch, channels, period) && n <= |pre|
    ensures var d := r.Decode(pre[..n], Samples, past);
            d.Some? && ReaderAt(d.value.0, pre[n..], epoch, channels, period)
  {
    if n == 0 {
      assert pre[..n] == [] && pre[n..] == pre;
    } else if r.inSync {
      var settled := r.Settle().value;
      SettledState(r, channels, period);
      FeedConcat(settled, pre[..n], pre[n..]);
      assert pre[..n] + pre[n..] == pre;
      FeedShape(settled, pre[..n]);
      FeedLeavesSample(settled, pre[..n]);
    }
  }

  // ---------- the block is taken ----------

  lemma {:induction false} FeedIgnoresReady(v: ReaderView, bytes: seq<byte>, ready: bool)
    requires v.WellFormed()
    ensures var u := v.FeedAll(bytes);
            v.(ready := ready).FeedAll(bytes) == if u.Some? then Some(u.value.(ready := ready)) else None
    decreases |bytes|
  {
    if bytes != [] && v.Feed(bytes[0]).Some? {
      FeedIgnoresReady(v.Feed(bytes[0]).value, bytes[1..], ready);
    }
  }

  lemma TakenComes(r: ReaderView, pre: seq<byte>, epoch: Option<Group>, channels: nat, period: nat)
    requires ReaderAt(r, pre, epoch, channels, period)
    ensures ReaderAt(r.(ready := false), pre, epoch, channels, period)
  {
    if r.inSync {
      SettledState(r, channels, period);
      FeedIgnoresReady(r.Settle().value, pre, false);
    }
  }

  // ---------- a control record is decoded ----------

  /** What a control record finds in a reader in sync: the block is exactly the epoch. */
  ghost predicate BlockIs(r: ReaderView, g: Group)
    requires g.ctl.Resync?
  {
    r.ready && r.asm.samples == SamplesSince(g) && r.counter == g.ctl.counter
  }

  lemma FlushComes(r: ReaderView, epoch: Option<Group>, channels: nat, period: nat, past: byte)
    requires ReaderAt(r, [], epoch, channels, period)
    ensures var d := r.Decode([FLUSH], Control, past);
            d.Some? && d.value.1 == OK && ReaderAt(d.value.0, [], epoch, channels, period) &&
            (r.inSync ==> BlockIs(d.value.0, epoch.value))
  {
    if r.inSync {
      SettledState(r, channels, period);
    }
  }

  /** The four bytes of each channel in a resync record. */
  lemma {:induction false} StateBytesAt(ccs: seq<ChannelState>, i: nat)
    requires i < |ccs|
    ensures var b := StateBytes(ccs);
            b[4 * i] == Hi(ccs[i].sample) && b[4 * i + 1] == Lo(ccs[i].sample) &&
            b[4 * i + 2] == Hi(ccs[i].delta) && b[4 * i + 3] == Lo(ccs[i].delta)
    decreases |ccs|
  {
    if i < |ccs| - 1 {
      StateBytesAt(ccs[..|ccs| - 1], i);
    }
  }

  lemma MiddleOf<T>(a: seq<T>, b: seq<T>, c: seq<T>, j: nat)
    requires j < |b|
    ensures (a + b + c)[|a| + j] == b[j]
  {
  }

  lemma StateFrom(s: seq<byte>, at: nat, cs: ChannelState)
    requires at + 4 <= |s| && s[at] == Hi(cs.sample) && s[at + 1] == Lo(cs.sample)
    requires s[at + 2] == Hi(cs.delta) && s[at + 3] == Lo(cs.delta)
    ensures StateAt(s, at) == cs
  {
    JoinSplit(cs.sample);
    JoinSplit(cs.delta);
  }

  lemma RecordState(s: seq<byte>, head: seq<byte>, ccs: seq<ChannelState>, tail: seq<byte>, i: nat)
    requires |head| == 4 && s == head + StateBytes(ccs) + tail && i < |ccs|
    ensures StateAt(s, 4 + 4 * i) == ccs[i]
  {
    var b := StateBytes(ccs);
    StateBytesAt(ccs, i);
    MiddleOf(head, b, tail, 4 * i);
    MiddleOf(head, b, tail, 4 * i + 1);
    MiddleOf(head, b, tail, 4 * i + 2);
    MiddleOf(head, b, tail, 4 * i + 3);
    StateFrom(s, 4 + 4 * i, ccs[i]);
  }

  lemma RecordCounter(s: seq<byte>, counter: u32, states: seq<byte>, tail: seq<byte>)
    requires s == BigEndian32(counter) + states + tail
    ensures FromBigEndian32(s[0], s[1], s[2], s[3]) == counter
  {
    var head := BigEndian32(counter);
    BigEndianRoundTrip(counter);
    assert s[0] == head[0] && s[1] == head[1] && s[2] == head[2] && s[3] == head[3];
  }

  lemma StatesCollected(s: seq<byte>, ccs: seq<ChannelState>)
    requires 4 + 4 * |ccs| <= |s| && forall i :: 0 <= i < |ccs| ==> StateAt(s, 4 + 4 * i) == ccs[i]
    ensures StatesIn(s, |ccs|) == ccs
  {
  }

  /** What syncUpdate reads back from a record is what internal_resync wrote. */
  lemma RecordBody(s: seq<byte>, counter: u32, ccs: seq<ChannelState>, tail: seq<byte>)
    requires s == BigEndian32(counter) + StateBytes(ccs) + tail
    ensures StatesIn(s, |ccs|) == ccs
    ensures FromBigEndian32(s[0], s[1], s[2], s[3]) == counter
  {
    var head := BigEndian32(counter);
    RecordCounter(s, counter, StateBytes(ccs), tail);
    forall i | 0 <= i < |ccs|
      ensures StateAt(s, 4 + 4 * i) == ccs[i]
    {
      RecordState(s, head, ccs, tail, i);
    }
    StatesCollected(s, ccs);
  }

  lemma TailOfRecord(counter: u32, ccs: seq<ChannelState>, tail: seq<byte>)
    ensures ResyncRecord(counter, ccs)[1..] + tail == BigEndian32(counter) + StateBytes(ccs) + tail
  {
    assert ResyncRecord(counter, ccs) == [RESYNCDOD] + (BigEndian32(counter) + StateBytes(ccs));
  }

  /** The record of group g has been decoded, and waits in the scratch buffer. */
  ghost predicate Waiting(u: ReaderView, g: Group, channels: nat, period: nat) {
    && Shape(u, channels, period) && EpochOk(g, channels, period) && u.inSync && u.parser.state == Sample
    && StatesIn(u.parser.scratch, channels) == g.ctl.base
    && var s := u.parser.scratch; FromBigEndian32(s[0], s[1], s[2], s[3]) == g.ctl.counter
  }

  /** It is decoded whatever state the reader is in, and changes neither the block nor the residuals put aside. */
  lemma RecordDecoded(r: ReaderView, g: Group, channels: nat, period: nat, past: byte)
    requires Shape(r, channels, period) && EpochOk(g, channels, period)
    ensures r.Settle().Some?
    ensures var (v, d) := (r.Settle().value, r.Decode(CtlBytes(g.ctl), Control, past));
      && d.Some? && d.value.1 == OK && Waiting(d.value.0, g, channels, period)
      && d.value.0.asm == v.asm && d.value.0.asm.cur == r.asm.cur && d.value.0.counter == v.counter
        && (r.inSync ==> d.value.0.ready)
  {
    var seg := CtlBytes(g.ctl);
    if r.inSync {
      SettledState(r, channels, period);
    }
    var v := r.Settle().value;
    assert seg[0] == RESYNCDOD && |seg| == v.ResyncSize() <= 61;
    var u := v.DecodeControl(seg, past).0;
    var tail := [past] + v.parser.scratch[|seg|..];
    assert u.parser.scratch == seg[1..] + tail;
    TailOfRecord(g.ctl.counter, g.ctl.base, tail);
    RecordBody(u.parser.scratch, g.ctl.counter, g.ctl.base, tail);
  }

  lemma ResyncComes(r: ReaderView, epoch: Option<Group>, channels: nat, period: nat, g: Group, past: byte)
    requires ReaderAt(r, [], epoch, channels, period) && EpochOk(g, channels, period)
    ensures var d := r.Decode(CtlBytes(g.ctl), Control, past);
            d.Some? && d.value.1 == OK && ReaderAt(d.value.0, SampleBytes(g), Some(g), channels, period) &&
            (r.inSync ==> BlockIs(d.value.0, epoch.value))
  {
    RecordDecoded(r, g, channels, period, past);
    SettledRecord(r.Decode(CtlBytes(g.ctl), Control, past).value.0, g, channels, period);
  }

  /** A resync record in the scratch buffer and no residual put aside: the next decode starts its epoch afresh. */
  lemma SettledRecord(u: ReaderView, g: Group, channels: nat, period: nat)
    requires Waiting(u, g, channels, period) && u.asm.cur == 0
    ensures Reaches(u, SampleBytes(g), g, channels, period)
  {
    SettledState(u, channels, period);
    var v := u.Settle().value;
    assert AtFrame(v) && v.asm.ccs == g.ctl.base && v.asm.samples == SamplesOf(g.ctl.base);
    EpochFits(g, channels, period, u.asm.cap);
    ExtendEpoch(v, g.frames);
  }
}

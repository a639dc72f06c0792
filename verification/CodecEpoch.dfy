/**
  One epoch of the sample codec: the frames accepted after a resync record, their
  codes, and what a reader that agrees with the writer makes of those bytes.

  The main results are `EpochExact`, which says for every sequence of frames that the
  reader rebuilds it if and only if no residual has a zigzag code in 239..255, and
  `ExtendEpoch`, the step the refinement of whole runs is built on.
*/
module CodecEpoch {
  import opened Words
  import opened DodCode
  import opened CodecReader
  import opened CodecWriter

  predicate Fits(frames: seq<Frame>, channels: nat) {
    forall i :: 0 <= i < |frames| ==> |frames[i]| == channels
  }

  /** The predictor after a sequence of frames. */
  function Predict(base: seq<ChannelState>, frames: seq<Frame>): (ccs: seq<ChannelState>)
    requires Fits(frames, |base|)
    ensures |ccs| == |base|
  {
    if frames == [] then base
    else AdvanceAll(Predict(base, frames[..|frames| - 1]), frames[|frames| - 1])
  }

  /** All residuals of a sequence of frames, channel by channel. */
  function Chain(base: seq<ChannelState>, frames: seq<Frame>): seq<i16>
    requires Fits(frames, |base|)
  {
    if frames == [] then []
    else
      var init := frames[..|frames| - 1];
      Chain(base, init) + Residuals(Predict(base, init), frames[|frames| - 1])
  }

  function Flatten(frames: seq<Frame>): seq<i16> {
    if frames == [] then [] else Flatten(frames[..|frames| - 1]) + frames[|frames| - 1]
  }

  lemma {:induction false} FlattenLength(frames: seq<Frame>, channels: nat)
    requires Fits(frames, channels)
    ensures |Flatten(frames)| == channels * |frames|
  {
    if frames != [] {
      FlattenLength(frames[..|frames| - 1], channels);
      assert channels * |frames| == channels * (|frames| - 1) + channels;
    }
  }

  /**
    Every residual is stored at once or by the emission it completes: `cur` never rests at
    the last channel with room left.
  */
  predicate Aligned(a: Assembler) {
    a.cur < a.Channels() || a.Full()
  }

  /** Feeding bytes is parsing them into residuals and storing those. */
  lemma {:induction false} FeedIsParseThenPut(v: ReaderView, bytes: seq<byte>)
    requires v.WellFormed() && Aligned(v.asm)
    ensures var (p, dods) := v.parser.ParseAll(bytes);
            v.FeedAll(bytes) == match v.asm.PutAll(dods) case None => None
              case Some(a) => Some(v.(parser := p, asm := a))
    decreases |bytes|
  {
    if bytes != [] {
      var (p, dod) := v.parser.Parse(bytes[0]);
      match dod {
        case None =>
          assert v.asm.EmitIfComplete() == v.asm;
          var u := v.(parser := p);
          FeedIsParseThenPut(u, bytes[1..]);
          assert [] + p.ParseAll(bytes[1..]).1 == p.ParseAll(bytes[1..]).1;
        case Some(d) =>
          var dods := [d] + p.ParseAll(bytes[1..]).1;
          assert dods[0] == d && dods[1..] == p.ParseAll(bytes[1..]).1;
          var put := v.asm.Put(d);
          if put.Some? {
            FeedIsParseThenPut(v.(parser := p, asm := put.value), bytes[1..]);
          }
      }
    }
  }

  lemma {:induction false} FeedConcat(v: ReaderView, xs: seq<byte>, ys: seq<byte>)
    requires v.WellFormed()
    ensures v.FeedAll(xs + ys) == match v.FeedAll(xs) case None => None case Some(u) => u.FeedAll(ys)
    decreases |xs|
  {
    if xs == [] {
      assert xs + ys == ys;
    } else {
      assert (xs + ys)[0] == xs[0] && (xs + ys)[1..] == xs[1..] + ys;
      match v.Feed(xs[0]) {
        case None =>
        case Some(u) => FeedConcat(u, xs[1..], ys);
      }
    }
  }

  lemma {:induction false} PutConcat(a: Assembler, xs: seq<i16>, ys: seq<i16>)
    requires a.WellFormed()
    ensures a.PutAll(xs + ys) == match a.PutAll(xs) case None => None case Some(b) => b.PutAll(ys)
    decreases |xs|
  {
    if xs == [] {
      assert xs + ys == ys;
    } else {
      assert (xs + ys)[0] == xs[0] && (xs + ys)[1..] == xs[1..] + ys;
      match a.Put(xs[0]) {
        case None =>
        case Some(b) => PutConcat(b, xs[1..], ys);
      }
    }
  }

  /** Residuals that fill up the current frame at most. */
  lemma {:induction false} PutRun(a: Assembler, dods: seq<i16>)
    requires a.WellFormed() && dods != [] && a.cur + |dods| <= a.Channels()
    ensures var filled := a.dod[..a.cur] + dods + a.dod[a.cur + |dods|..];
            a.PutAll(dods) == Some(a.(dod := filled, cur := a.cur + |dods|).EmitIfComplete())
    decreases |dods|
  {
    var filled := a.dod[..a.cur] + dods + a.dod[a.cur + |dods|..];
    var b := a.(dod := a.dod[a.cur := dods[0]], cur := a.cur + 1);
    if |dods| == 1 {
      assert b.dod == filled && dods[1..] == [];
    } else {
      assert a.Put(dods[0]) == Some(b);
      PutRun(b, dods[1..]);
      assert b.dod[..b.cur] + dods[1..] + b.dod[b.cur + |dods[1..]|..] == filled;
    }
  }

  /** The residuals of one frame append exactly that frame and advance the predictor as the writer's. */
  lemma PutFrame(a: Assembler, frame: Frame)
    requires a.WellFormed() && a.cur == 0 && !a.Full() && |frame| == a.Channels()
    ensures var b := a.PutAll(Residuals(a.ccs, frame));
            b.Some? && b.value.cur == 0 && b.value.samples == a.samples + frame &&
            b.value.ccs == AdvanceAll(a.ccs, frame) && b.value.Channels() == a.Channels() && b.value.cap == a.cap
  {
    var dods := Residuals(a.ccs, frame);
    PutRun(a, dods);
    assert a.dod[..0] + dods + a.dod[|dods|..] == dods;
    forall i | 0 <= i < |frame|
      ensures RestoreAll(a.ccs, dods)[i] == AdvanceAll(a.ccs, frame)[i]
    {
      RestoreResidual(a.ccs[i], frame[i]);
    }
    assert RestoreAll(a.ccs, dods) == AdvanceAll(a.ccs, frame);
    assert SamplesOf(AdvanceAll(a.ccs, frame)) == frame;
  }

  predicate HasRoom(a: Assembler, frames: seq<Frame>) {
    |a.samples| + |Flatten(frames)| <= a.cap
  }

  /** The assembler after whole frames. */
  predicate Took(o: Option<Assembler>, a: Assembler, samples: seq<i16>, ccs: seq<ChannelState>) {
    && o.Some? && o.value.WellFormed() && o.value.cur == 0 && o.value.samples == samples && o.value.ccs == ccs
    && o.value.Channels() == a.Channels() && o.value.cap == a.cap
  }

  lemma {:induction false} PutFrames(a: Assembler, frames: seq<Frame>)
    requires a.WellFormed() && a.cur == 0 && Fits(frames, a.Channels()) && HasRoom(a, frames)
    ensures Took(a.PutAll(Chain(a.ccs, frames)), a, a.samples + Flatten(frames), Predict(a.ccs, frames))
    decreases |frames|
  {
    if frames == [] {
      EmptyRight(a.samples);
    } else {
      var init, last := frames[..|frames| - 1], frames[|frames| - 1];
      PutFrames(a, init);
      var b := a.PutAll(Chain(a.ccs, init)).value;
      PutFrame(b, last);
      PutConcat(a, Chain(a.ccs, init), Residuals(Predict(a.ccs, init), last));
      Associate(a.samples, Flatten(init), last);
    }
  }

  /** What the reader has rebuilt so far, counting residuals not yet emitted. */
  ghost function Written(a: Assembler): seq<i16>
    requires a.WellFormed()
  {
    a.samples + SamplesOf(RestoreAll(a.ccs, a.dod))[..a.cur]
  }

  lemma PutWrites(a: Assembler, d: i16)
    requires a.WellFormed() && a.Put(d).Some?
    ensures Written(a.Put(d).value) == Written(a) + [Restore(a.ccs[a.cur], d).sample]
  {
    var b := a.(dod := a.dod[a.cur := d], cur := a.cur + 1);
    assert Written(b) == Written(a) + [Restore(a.ccs[a.cur], d).sample];
    if b.cur == b.Channels() && !b.Full() {
      var restored := RestoreAll(b.ccs, b.dod);
      assert SamplesOf(restored)[..b.cur] == SamplesOf(restored);
      assert Written(b.Emit()) == b.samples + SamplesOf(restored);
    }
  }

  lemma {:induction false} PutAllWrites(a: Assembler, dods: seq<i16>)
    requires a.WellFormed() && a.PutAll(dods).Some?
    ensures Written(a) <= Written(a.PutAll(dods).value)
    ensures |Written(a.PutAll(dods).value)| == |Written(a)| + |dods|
    decreases |dods|
  {
    if dods != [] {
      PutWrites(a, dods[0]);
      PutAllWrites(a.Put(dods[0]).value, dods[1..]);
    }
  }

  /** Different residuals never rebuild the same samples. */
  lemma {:induction false} PutAllInjective(a: Assembler, xs: seq<i16>, ys: seq<i16>)
    requires a.WellFormed() && a.PutAll(xs).Some? && a.PutAll(ys).Some?
    requires Written(a.PutAll(xs).value) == Written(a.PutAll(ys).value)
    ensures xs == ys
    decreases |xs|
  {
    PutAllWrites(a, xs);
    PutAllWrites(a, ys);
    if xs != [] {
      var b, c := a.Put(xs[0]).value, a.Put(ys[0]).value;
      PutWrites(a, xs[0]);
      PutWrites(a, ys[0]);
      PutAllWrites(b, xs[1..]);
      PutAllWrites(c, ys[1..]);
      assert Written(b)[|Written(a)|] == Written(c)[|Written(a)|];
      RestoreInjective(a.ccs[a.cur], xs[0], ys[0]);
      PutAllInjective(b, xs[1..], ys[1..]);
      assert xs == [xs[0]] + xs[1..] && ys == [ys[0]] + ys[1..];
    }
  }

  /** The reader has delivered exactly `samples` and stands at a frame boundary. */
  predicate Holds(o: Option<ReaderView>, samples: seq<i16>) {
    o.Some? && o.value.asm.cur == 0 && o.value.asm.samples == samples
  }

  /** A reader between two frames with nothing pending. */
  predicate AtFrame(v: ReaderView) {
    v.WellFormed() && v.parser.state == DOD && v.asm.cur == 0
  }

  /**
    The exact boundary of the codec. From agreement, the bytes of any frames leave the
    reader holding those frames, at a frame boundary, iff every residual is codable.
  */
  lemma EpochExact(v: ReaderView, frames: seq<Frame>)
    requires AtFrame(v) && Fits(frames, v.asm.Channels()) && HasRoom(v.asm, frames)
    ensures Holds(v.FeedAll(Codes(Chain(v.asm.ccs, frames))), v.asm.samples + Flatten(frames))
            <==> AllCodable(Chain(v.asm.ccs, frames))
  {
    var a, dods := v.asm, Chain(v.asm.ccs, frames);
    var (p, parsed) := v.parser.ParseAll(Codes(dods));
    FeedIsParseThenPut(v, Codes(dods));
    ParseExactly(v.parser, dods);
    PutFrames(a, frames);
    if a.PutAll(parsed).Some? && Holds(v.FeedAll(Codes(dods)), a.samples + Flatten(frames)) {
      PutAllInjective(a, parsed, dods);
    }
  }

  /** Reader and writer agree: same rebuilt samples, same predictor, nothing pending. */
  predicate Agrees(v: ReaderView, samples: seq<i16>, ccs: seq<ChannelState>) {
    AtFrame(v) && v.asm.samples == samples && v.asm.ccs == ccs
  }

  /** Agreement is kept across codable frames, whatever it started from. */
  lemma ExtendEpoch(v: ReaderView, frames: seq<Frame>)
    requires AtFrame(v) && Fits(frames, v.asm.Channels()) && HasRoom(v.asm, frames)
    requires AllCodable(Chain(v.asm.ccs, frames))
    ensures var u := v.FeedAll(Codes(Chain(v.asm.ccs, frames)));
            u.Some? && Agrees(u.value, v.asm.samples + Flatten(frames), Predict(v.asm.ccs, frames)) &&
            u.value.(parser := v.parser, asm := v.asm) == v &&
            u.value.asm.Channels() == v.asm.Channels() && u.value.asm.cap == v.asm.cap
  {
    var dods := Chain(v.asm.ccs, frames);
    FeedIsParseThenPut(v, Codes(dods));
    ParseExactly(v.parser, dods);
    PutFrames(v.asm, frames);
  }

  /** The same for a single frame. */
  lemma ExtendByFrame(v: ReaderView, samples: seq<i16>, ccs: seq<ChannelState>, frame: Frame)
    requires Agrees(v, samples, ccs) && |frame| == |ccs| && !v.asm.Full()
    requires AllCodable(Residuals(ccs, frame))
    ensures var u := v.FeedAll(Codes(Residuals(ccs, frame)));
            u.Some? && Agrees(u.value, samples + frame, AdvanceAll(ccs, frame)) && u.value.counter == v.counter
  {
    var dods := Residuals(ccs, frame);
    FeedIsParseThenPut(v, Codes(dods));
    ParseExactly(v.parser, dods);
    PutFrame(v.asm, frame);
  }

  lemma ChainSnoc(base: seq<ChannelState>, frames: seq<Frame>, frame: Frame)
    requires Fits(frames, |base|) && |frame| == |base|
    ensures Fits(frames + [frame], |base|)
    ensures Chain(base, frames + [frame]) == Chain(base, frames) + Residuals(Predict(base, frames), frame)
    ensures Predict(base, frames + [frame]) == AdvanceAll(Predict(base, frames), frame)
    ensures Flatten(frames + [frame]) == Flatten(frames) + frame
  {
    assert (frames + [frame])[..|frames|] == frames;
  }

  /** Feeding changes neither the number of channels nor the capacity. */
  lemma {:induction false} FeedShape(v: ReaderView, bytes: seq<byte>)
    requires v.WellFormed()
    ensures var u := v.FeedAll(bytes);
            u.Some? ==>
              u.value.asm.Channels() == v.asm.Channels() && u.value.asm.cap == v.asm.cap
              && u.value.ready == v.ready
    decreases |bytes|
  {
    if bytes != [] && v.Feed(bytes[0]).Some? {
      FeedShape(v.Feed(bytes[0]).value, bytes[1..]);
    }
  }
}

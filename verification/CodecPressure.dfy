/**
  Backpressure (fdlib/middleware/DAQCodec.h, lines 135-147 and 254-255): a writer that has
  refused a sample refuses every sample until a read takes the last unread byte, and then
  accepts again. Its predictor follows the samples it refuses too.
*/
module CodecPressure {
  import opened Words
  import opened DodCode
  import opened Ring
  import opened CodecWriter
  import opened CodecReader
  import opened CodecRefinement

  /** Nothing is left unread after some step. */
  predicate EverEmpty(l: Link, ops: seq<Op>)
    requires l.w.WellFormed() && l.r.WellFormed() && Run(l, ops).Some?
    decreases |ops|
  {
    ops != [] && var m := Step(l, ops[0]).value; m.w.stream.items == [] || EverEmpty(m, ops[1..])
  }

  lemma FlushLeavesBytes(w: WriterView)
    requires w.WellFormed() && w.stream.items != []
    ensures w.Flush().0.stream.items != []
  {
    if w.Flush().1 {
      PushAllFits(w.stream, [FLUSH]);
    }
  }

  /** One step under backpressure. */
  lemma PressureHolds(l: Link, op: Op)
    requires l.w.WellFormed() && l.r.WellFormed() && l.w.backpressure && l.w.stream.items != []
    requires (op.Push? ==> |op.frame| == |l.w.ccs|) && Step(l, op).Some?
    ensures AcceptedNow(l, op) == []
    ensures var m := Step(l, op).value; m.w.backpressure <==> m.w.stream.items != []
    ensures Step(l, op).value.w.stream.items == [] ==> op.Deliver? || op.Miss?
  {
    if op.Flush? {
      FlushLeavesBytes(l.w);
    }
  }

  /** Until the ring has been read empty no sample is accepted, whatever else happens. */
  lemma {:induction false} RefusesUntilEmpty(l: Link, ops: seq<Op>)
    requires l.w.WellFormed() && l.r.WellFormed() && l.w.backpressure && l.w.stream.items != []
    requires Run(l, ops).Some? && !EverEmpty(l, ops)
    ensures Accepted(l, ops) == [] && Run(l, ops).value.w.backpressure
    decreases |ops|
  {
    if ops != [] {
      PressureHolds(l, ops[0]);
      RefusesUntilEmpty(Step(l, ops[0]).value, ops[1..]);
    }
  }

  /** And the next sample is, when a read has just taken the last byte and the ring is longer than the reserve. */
  lemma AcceptsOnceEmpty(l: Link, op: Op, frame: Frame, counter: u32)
    requires l.w.WellFormed() && l.r.WellFormed() && l.w.backpressure && l.w.stream.items != []
    requires (op.Push? ==> |op.frame| == |l.w.ccs|) && Step(l, op).Some? && Step(l, op).value.w.stream.items == []
    requires |frame| == |Step(l, op).value.w.ccs|
    ensures var m := Step(l, op).value;
      m.w.PushSample(frame, counter).1 <==> m.w.stream.cap > m.w.Reserve() + 1
  {
    PressureHolds(l, op);
  }

  // ---------- the predictor ----------

  /** The samples pushed, accepted or not. */
  function Offered(ops: seq<Op>): seq<Frame> {
    if ops == [] then [] else (if ops[0].Push? then [ops[0].frame] else []) + Offered(ops[1..])
  }

  /** One channel after these samples: the last, and its difference from the one before. */
  function Followed(cs: ChannelState, frames: seq<Frame>, c: nat): ChannelState
    requires forall i :: 0 <= i < |frames| ==> c < |frames[i]|
  {
    var n := |frames|;
    if n == 0 then cs
    else ChannelState(frames[n - 1][c], ToI16(frames[n - 1][c] - if n == 1 then cs.sample else frames[n - 2][c]))
  }

  function After(cs: ChannelState, x: i16): ChannelState {
    ChannelState(x, ToI16(x - cs.sample))
  }

  lemma FollowedCons(cs: ChannelState, frame: Frame, frames: seq<Frame>, c: nat)
    requires c < |frame| && forall i :: 0 <= i < |frames| ==> c < |frames[i]|
    ensures Followed(cs, [frame] + frames, c) == Followed(After(cs, frame[c]), frames, c)
  {
  }

  lemma StepFollows(l: Link, op: Op, c: nat)
    requires l.w.WellFormed() && l.r.WellFormed() && c < |l.w.ccs|
    requires (op.Push? ==> |op.frame| == |l.w.ccs|) && Step(l, op).Some?
    ensures var m := Step(l, op).value;
      && |m.w.ccs| == |l.w.ccs|
      && m.w.ccs[c] == if op.Push? then After(l.w.ccs[c], op.frame[c]) else l.w.ccs[c]
  {
  }

  /** Over any operations the predictor is that of the last two samples pushed, refused or not. */
  lemma {:induction false} PredictorFollows(l: Link, ops: seq<Op>, c: nat)
    requires l.w.WellFormed() && l.r.WellFormed() && Run(l, ops).Some? && c < |l.w.ccs|
    ensures forall i :: 0 <= i < |Offered(ops)| ==> |Offered(ops)[i]| == |l.w.ccs|
    ensures |Run(l, ops).value.w.ccs| == |l.w.ccs|
    ensures Run(l, ops).value.w.ccs[c] == Followed(l.w.ccs[c], Offered(ops), c)
    decreases |ops|
  {
    if ops != [] {
      StepFollows(l, ops[0], c);
      var m := Step(l, ops[0]).value;
      PredictorFollows(m, ops[1..], c);
      if ops[0].Push? {
        FollowedCons(l.w.ccs[c], ops[0].frame, Offered(ops[1..]), c);
      } else {
        assert Offered(ops) == Offered(ops[1..]);
      }
    }
  }
}

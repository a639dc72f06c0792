/**
  How often the writer resynchronises (fdlib/middleware/DAQCodec.h, lines 93 and 140-184).

  From a writer that is about to resync, over accepted samples alone, every sample whose
  number is a multiple of `period + 1` is a resync record with a mark, and each of the
  `period` samples after it adds exactly the codes of its residuals and no mark.
*/
module CodecPeriod {
  import opened Words
  import opened DodCode
  import opened Ring
  import opened CodecWriter
  import opened CodecReader
  import opened CodecEpoch
  import opened CodecWire
  import opened CodecRefinement

  /** Samples of the right size, none of which is refused. */
  predicate AllAccepted(l: Link, ops: seq<Op>)
    requires l.w.WellFormed() && l.r.WellFormed()
    decreases |ops|
  {
    ops == [] ||
    (ops[0].Push? && |ops[0].frame| == |l.w.ccs| && l.w.PushSample(ops[0].frame, ops[0].counter).1 &&
      AllAccepted(Step(l, ops[0]).value, ops[1..]))
  }

  /** The sample as a resync record: a group of its own, its record in the ring, its mark in the queue. */
  ghost predicate Resynced(l: Link, m: Link, frame: Frame, counter: u32)
    requires l.w.WellFormed() && |frame| == |l.w.ccs|
  {
    var base := AdvanceAll(l.w.ccs, frame);
    && m.log == l.log + [Group(Resync(counter, base), [])]
    && m.w.stream == l.w.stream.PushAll(ResyncRecord(counter, base))
    && m.w.marks == l.w.marks.Push(ControlMark(l.w.stream.Head(), RecordSize(|l.w.ccs|))).0
  }

  /** The sample as codes: one frame more in the last group, its codes in the ring, no mark. */
  ghost predicate Coded(l: Link, m: Link, frame: Frame)
    requires l.w.WellFormed() && |frame| == |l.w.ccs|
  {
    && m.log == LogFrame(l.log, frame)
    && m.w.stream == l.w.stream.PushAll(Codes(Residuals(l.w.ccs, frame)))
    && m.w.marks == l.w.marks
  }

  /** One accepted sample with `till` to go before the next resync. */
  lemma OneSample(l: Link, op: Op)
    requires l.w.WellFormed() && l.r.WellFormed() && AllAccepted(l, [op])
    ensures var m := Step(l, op);
      && m.Some? && m.value.r == l.r && m.value.w.ccs == AdvanceAll(l.w.ccs, op.frame)
      && m.value.w.period == l.w.period
      && if l.w.tillSync == 0 then Resynced(l, m.value, op.frame, op.counter) && m.value.w.tillSync == l.w.period
         else Coded(l, m.value, op.frame) && m.value.w.tillSync == l.w.tillSync - 1
  {
  }

  /** With `till` samples to go at the start, sample k is a resync record. */
  predicate Due(period: byte, till: byte, k: nat) {
    till <= k && (k - till) % (period + 1) == 0
  }

  lemma DueNext(period: byte, till: byte, k: nat)
    requires till <= period && 0 < k
    ensures Due(period, till, k) == Due(period, if till == 0 then period else till - 1, k - 1)
  {
    if till == 0 {
      Around(k, period + 1);
    }
  }

  lemma Around(k: int, n: int)
    requires 0 < n && 0 < k
    ensures k % n == 0 <==> n <= k && (k - n) % n == 0
  {
    if n <= k {
      ModOnce(k - n, n);
    } else {
      ModUnique(k, 0, k, n);
    }
  }

  /** Sample k of the run, in the state the samples before it left. */
  ghost predicate AsDue(l: Link, ops: seq<Op>, k: nat, due: bool)
    requires l.w.WellFormed() && l.r.WellFormed() && k < |ops|
  {
    var a := Run(l, ops[..k]);
    && a.Some? && ops[k].Push? && |ops[k].frame| == |a.value.w.ccs|
    && var b := Step(a.value, ops[k]);
      && b.Some? && Run(l, ops[..k + 1]) == b && b.value.r == l.r
      && if due then Resynced(a.value, b.value, ops[k].frame, ops[k].counter) else Coded(a.value, b.value, ops[k].frame)
  }

  lemma RunFirst(l: Link, ops: seq<Op>, k: nat)
    requires l.w.WellFormed() && l.r.WellFormed() && 0 < k <= |ops|
    requires (ops[0].Push? ==> |ops[0].frame| == |l.w.ccs|) && Step(l, ops[0]).Some?
    ensures Run(l, ops[..k]) == Run(Step(l, ops[0]).value, ops[1..][..k - 1])
  {
    assert ops[..k][1..] == ops[1..][..k - 1];
  }

  lemma FirstAsDue(l: Link, ops: seq<Op>)
    requires l.w.WellFormed() && l.r.WellFormed() && AllAccepted(l, ops) && ops != []
    ensures AsDue(l, ops, 0, l.w.tillSync == 0)
  {
    OneSample(l, ops[0]);
    RunFirst(l, ops, 1);
    assert ops[..0] == [] && ops[1..][..0] == [];
  }

  lemma LaterAsDue(l: Link, m: Link, ops: seq<Op>, k: nat, due: bool)
    requires l.w.WellFormed() && l.r.WellFormed() && 0 < k < |ops|
    requires ops[0].Push? && |ops[0].frame| == |l.w.ccs| && Step(l, ops[0]) == Some(m) && m.r == l.r
    requires m.w.WellFormed() && AsDue(m, ops[1..], k - 1, due)
    ensures AsDue(l, ops, k, due)
  {
    RunFirst(l, ops, k);
    RunFirst(l, ops, k + 1);
    assert ops[1..][k - 1] == ops[k];
  }

  lemma {:induction false} EachAsDue(l: Link, ops: seq<Op>, k: nat)
    requires l.w.WellFormed() && l.r.WellFormed() && AllAccepted(l, ops) && l.w.tillSync <= l.w.period && k < |ops|
    ensures AsDue(l, ops, k, Due(l.w.period, l.w.tillSync, k))
    decreases k
  {
    if k == 0 {
      DueAtOnce(l.w.period, l.w.tillSync);
      FirstAsDue(l, ops);
    } else {
      var m := Pushed(l, ops);
      EachAsDue(m, ops[1..], k - 1);
      DueNext(l.w.period, l.w.tillSync, k);
      LaterAsDue(l, m, ops, k, Due(l.w.period, l.w.tillSync, k));
    }
  }

  lemma DueAtOnce(period: byte, till: byte)
    ensures Due(period, till, 0) <==> till == 0
  {
  }

  /** The first sample, and what it leaves of the schedule. */
  lemma Pushed(l: Link, ops: seq<Op>) returns (m: Link)
    requires l.w.WellFormed() && l.r.WellFormed() && AllAccepted(l, ops) && ops != []
    ensures ops[0].Push? && |ops[0].frame| == |l.w.ccs| && Step(l, ops[0]) == Some(m)
    ensures m.w.WellFormed() && m.r == l.r && AllAccepted(m, ops[1..]) && m.w.period == l.w.period
    ensures m.w.tillSync == if l.w.tillSync == 0 then l.w.period else l.w.tillSync - 1
  {
    OneSample(l, ops[0]);
    m := Step(l, ops[0]).value;
  }

  lemma FromStart(period: byte, k: nat)
    ensures Due(period, 0, k) <==> k % (period + 1) == 0
  {
  }

  /**
    Over accepted samples alone, from where the writer is about to resync: sample k is a
    resync record if and only if k is a multiple of `period + 1`, and otherwise codes.
  */
  lemma SyncPeriod(l: Link, ops: seq<Op>, k: nat)
    requires l.w.WellFormed() && l.r.WellFormed() && AllAccepted(l, ops) && l.w.tillSync == 0 && k < |ops|
    ensures AsDue(l, ops, k, k % (l.w.period + 1) == 0)
  {
    FromStart(l.w.period, k);
    EachAsDue(l, ops, k);
  }
}

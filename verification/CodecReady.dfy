/**
  What getSamples returns (fdlib/middleware/DAQCodec.h, lines 284-295 and 476-497): in every
  admissible run from construction a block that is ready holds exactly one whole epoch,
  the one the last control record ended, and never a part of it or of two.
*/
module CodecReady {
  import opened Words
  import opened DodCode
  import opened Ring
  import opened CodecWriter
  import opened CodecReader
  import opened CodecEpoch
  import opened CodecWire
  import opened CodecFollow
  import opened CodecRefinement

  /** Only more samples are written, and the counter and the flags stay. */
  lemma {:induction false} FeedGrows(v: ReaderView, bytes: seq<byte>)
    requires v.WellFormed() && v.FeedAll(bytes).Some?
    ensures var u := v.FeedAll(bytes).value;
      v.asm.samples <= u.asm.samples && u.ready == v.ready && u.counter == v.counter
    decreases |bytes|
  {
    if bytes != [] {
      FeedGrows(v.Feed(bytes[0]).value, bytes[1..]);
    }
  }

  /** A block that is ready shows the epoch the last record read has ended. */
  ghost predicate ReadyShows(r: ReaderView, log: seq<Group>, read: nat) {
    r.ready ==>
      && r.inSync && 0 < read <= |log| && LastEpoch(log[..read - 1]).Some?
      && LastEpoch(log[..read - 1]).value.ctl.Resync? && BlockIs(r, LastEpoch(log[..read - 1]).value)
      && (r.parser.state == Sample || log[read - 1].ctl.Flushed?)
  }

  // ---------- the reader ----------

  /** A piece of the bytes ahead: after a resync record it takes the block back, and after a flush none comes. */
  lemma PieceReady(r: ReaderView, pre: seq<byte>, log: seq<Group>, read: nat, channels: nat, period: nat, n: nat,
    past: byte)
    requires read <= |log| && ReaderAt(r, pre, LastEpoch(log[..read]), channels, period) && n <= |pre|
    requires ReadyShows(r, log, read) && r.Decode(pre[..n], Samples, past).Some?
    ensures ReadyShows(r.Decode(pre[..n], Samples, past).value.0, log, read)
  {
    if n > 0 && r.inSync {
      SettledState(r, channels, period);
      var v := r.Settle().value;
      FeedConcat(v, pre[..n], pre[n..]);
      assert pre[..n] + pre[n..] == pre;
      FeedGrows(v, pre[..n]);
      FeedLeavesSample(v, pre[..n]);
      if r.ready && r.parser.state != Sample {
        LastEpochSnoc(log[..read - 1], log[read - 1]);
        assert log[..read - 1] + [log[read - 1]] == log[..read];
        FeedGrows(v.FeedAll(pre[..n]).value, pre[n..]);
      }
    }
  }

  /** A control record, whichever it is. */
  lemma RecordReady(r: ReaderView, log: seq<Group>, read: nat, channels: nat, period: nat, past: byte)
    requires read < |log| && ReaderAt(r, [], LastEpoch(log[..read]), channels, period)
    requires GroupOk(log[read], channels, period) && ReadyShows(r, log, read)
    requires r.Decode(CtlBytes(log[read].ctl), Control, past).Some?
    ensures ReadyShows(r.Decode(CtlBytes(log[read].ctl), Control, past).value.0, log, read + 1)
  {
    var g := log[read];
    if g.ctl.Resync? {
      ResyncComes(r, LastEpoch(log[..read]), channels, period, g, past);
      RecordDecoded(r, g, channels, period, past);
      NotReady(r, CtlBytes(g.ctl), past);
    } else {
      FlushComes(r, LastEpoch(log[..read]), channels, period, past);
      NotReady(r, CtlBytes(g.ctl), past);
    }
  }

  /** A reader out of sync with a block not ready leaves it so. */
  lemma NotReady(r: ReaderView, seg: seq<byte>, past: byte)
    requires r.WellFormed() && seg != [] && r.Decode(seg, Control, past).Some?
    ensures !r.inSync && !r.ready ==> !r.Decode(seg, Control, past).value.0.ready
    ensures r.inSync ==> r.Decode(seg, Control, past).value.0.inSync
  {
  }

  // ---------- writer and reader together ----------

  ghost predicate LinkReady(l: Link) {
    ReadyShows(l.r, l.log, l.read)
  }

  /** A log that only grows at its end, and in its last group only if that is a resync group. */
  ghost predicate GrowsAtEnd(log: seq<Group>, more: seq<Group>) {
    && |log| <= |more|
    && (forall i :: 0 <= i < |log| - 1 ==> more[i] == log[i])
    && (log != [] && log[|log| - 1].ctl.Flushed? ==> more[|log| - 1] == log[|log| - 1])
  }

  lemma GrownReady(r: ReaderView, log: seq<Group>, more: seq<Group>, read: nat)
    requires read <= |log| && GrowsAtEnd(log, more) && ReadyShows(r, log, read)
    ensures ReadyShows(r, more, read)
  {
    if 0 < read {
      assert more[..read - 1] == log[..read - 1];
    }
  }

  lemma PushGrows(l: Link, frame: Frame, counter: u32)
    requires Inv(l) && l.r.WellFormed() && |frame| == |l.w.ccs|
    ensures GrowsAtEnd(l.log, Step(l, Push(frame, counter)).value.log)
  {
  }

  lemma DeliverReady(l: Link, pre: seq<byte>, room: nat, past: byte)
    requires InvWith(l, pre) && LinkReady(l)
    ensures l.w.ReadDefined() && l.r.WellFormed()
    ensures Step(l, Deliver(room, past)).Some? && LinkReady(Step(l, Deliver(room, past)).value)
  {
    NextDefined(l, pre);
    if pre != [] || l.read == |l.log| {
      var n := Min(|pre|, room);
      PieceComes(l.r, pre, LastEpoch(l.log[..l.read]), |l.w.ccs|, l.w.period, n, past);
      PieceStep(l, pre, room, past);
      PieceReady(l.r, pre, l.log, l.read, |l.w.ccs|, l.w.period, n, past);
    } else if room < |CtlBytes(l.log[l.read].ctl)| {
      RecordWithheld(l, room, past);
    } else {
      RecordComes(l.r, LastEpoch(l.log[..l.read]), |l.w.ccs|, l.w.period, l.log[l.read], past);
      RecordStep(l, l.log[l.read], room, past);
      RecordReady(l.r, l.log, l.read, |l.w.ccs|, l.w.period, past);
    }
  }

  lemma StepReady(l: Link, op: Op)
    requires Inv(l) && l.r.WellFormed() && Admissible(l, op) && LinkReady(l)
    ensures Step(l, op).Some? && LinkReady(Step(l, op).value)
  {
    StepKeeps(l, op);
    var pre :| InvWith(l, pre);
    match op {
      case Push(frame, counter) =>
        PushGrows(l, frame, counter);
        GrownReady(l.r, l.log, Step(l, op).value.log, l.read);
      case Flush => GrownReady(l.r, l.log, Step(l, op).value.log, l.read);
      case Deliver(room, past) => DeliverReady(l, pre, room, past);
      case Miss(_) =>
      case Take =>
    }
  }

  lemma {:induction false} RunReady(l: Link, ops: seq<Op>)
    requires l.w.WellFormed() && l.r.WellFormed() && Inv(l) && AdmissibleRun(l, ops) && LinkReady(l)
    ensures Run(l, ops).Some? && LinkReady(Run(l, ops).value)
    decreases |ops|
  {
    if ops != [] {
      StepKeeps(l, ops[0]);
      StepReady(l, ops[0]);
      RunReady(Step(l, ops[0]).value, ops[1..]);
    }
  }

  /**
    In every admissible run from construction, what getSamples finds ready is exactly the
    samples of one whole epoch, in order, with its counter: the epoch that was being read
    when the last control record came.
  */
  lemma TakeShowsEpoch(start: Link, ops: seq<Op>)
    requires Start(start) && !start.r.ready && AdmissibleRun(start, ops)
    ensures Run(start, ops).Some?
    ensures var l := Run(start, ops).value;
      l.r.ready ==>
        && 0 < l.read <= |l.log|
        && var epoch := LastEpoch(l.log[..l.read - 1]);
          epoch.Some? && epoch.value.ctl.Resync? && l.r.asm.samples == SamplesSince(epoch.value)
          && l.r.counter == epoch.value.ctl.counter
  {
    StartInv(start);
    RunReady(start, ops);
  }
}

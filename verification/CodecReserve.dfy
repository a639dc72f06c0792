/**
  How many channels the writer's reserve is enough for.

  The constructor stores 16 times the number of channels in a `uint8_t`
  (fdlib/middleware/DAQCodec.h, lines 71 and 107), and pushSample writes without a check
  what it takes the reserve to cover. From 16 channels on the product wraps, and the
  reserve is enough for some numbers of channels and not for others: `ReserveExactly`.
*/
module CodecReserve {
  import opened Words
  import opened DodCode
  import opened Ring
  import opened CodecWriter
  import opened CodecRefinement

  /** No push of that many channels ever costs an unread byte. */
  ghost predicate KeepsUnread(channels: nat) {
    forall w: WriterView, frame: Frame, counter: u32 {:trigger w.PushSample(frame, counter)} ::
      w.WellFormed() && |w.ccs| == channels && |frame| == channels ==>
        w.stream.items <= w.PushSample(frame, counter).0.stream.items
  }

  /** Unchecked pushes that run over leave only what came after. */
  lemma PushAllOverruns(f: Fifo<byte>, xs: seq<byte>)
    requires f.WellFormed() && f.Free() < |xs| < f.cap
    ensures |f.PushAll(xs).items| < |xs|
  {
    var a, x, b := xs[..f.Free()], xs[f.Free()], xs[f.Free() + 1..];
    assert xs == a + ([x] + b);
    PushAllConcat(f, a, [x] + b);
    PushAllFits(f, a);
    var full := f.PushAll(a);
    assert ([x] + b)[1..] == b;
    PushAllFits(full.PushFast(x), b);
  }

  /** A writer about to resync, with one byte more than its reserve left of a ring of 32768. */
  function Nearly(channels: nat): (w: WriterView)
    requires channels < 0x100
    ensures w.WellFormed() && |w.ccs| == channels && !w.Refuses() && w.tillSync == 0
    ensures w.stream.Free() == w.Reserve() + 1 && w.stream.cap == 0x8000
  {
    var unread := seq(0x7ffe - CONTROL_RESERVE * channels % 0x100, _ => 0);
    WriterView(seq(channels, _ => ChannelState(0, 0)), Fifo(0x8000, 0, unread), Fifo(2, 0, []), 0, 64, false)
  }

  /** A resync record longer than the room left overwrites unread bytes. */
  lemma RecordOverruns(w: WriterView, frame: Frame, counter: u32)
    requires w.WellFormed() && |frame| == |w.ccs| && !w.Refuses() && w.tillSync == 0
    requires var record := ResyncRecord(counter, AdvanceAll(w.ccs, frame));
      w.stream.Free() < |record| < w.stream.cap && |record| <= |w.stream.items|
    ensures !(w.stream.items <= w.PushSample(frame, counter).0.stream.items)
  {
    PushAllOverruns(w.stream, ResyncRecord(counter, AdvanceAll(w.ccs, frame)));
  }

  /**
    For any number of channels a `uint8_t` holds: unread bytes are safe exactly when the
    stored reserve covers a resync record.
  */
  lemma ReserveExactly(channels: nat)
    requires channels < 0x100
    ensures KeepsUnread(channels) <==> ReserveEnough(channels)
  {
    if ReserveEnough(channels) {
      forall w: WriterView, frame: Frame, counter: u32 | w.WellFormed() && |w.ccs| == channels && |frame| == channels
        ensures w.stream.items <= w.PushSample(frame, counter).0.stream.items
      {
        PushOnlyAppends(w, frame, counter);
      }
    } else {
      var frame: Frame := seq(channels, _ => 0);
      var w := Nearly(channels);
      RecordOverruns(w, frame, 0);
      assert !(w.stream.items <= w.PushSample(frame, 0).0.stream.items);
    }
  }

  lemma WrapsEvery16(channels: nat)
    requires channels < 0x100
    ensures CONTROL_RESERVE * channels % 0x100 == CONTROL_RESERVE * (channels % 16)
  {
    assert channels == channels / 16 * 16 + channels % 16;
    assert CONTROL_RESERVE * channels == channels / 16 * 0x100 + CONTROL_RESERVE * (channels % 16);
  }

  /** Which numbers those are. */
  lemma EnoughFor(channels: nat)
    requires channels < 0x100
    ensures ReserveEnough(channels) <==> 1 <= channels <= 15 || 22 <= channels <= 31 || 43 <= channels <= 47
  {
    WrapsEvery16(channels);
  }
}

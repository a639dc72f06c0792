/**
  What the ABF receiver (fdlib/middleware/ABFStream.cpp, lines 127-161) makes of frames
  that are too long for its buffer and of frames that break off.
*/
module AbfErrors {
  import opened Words
  import opened AbfStream
  import opened AbfRecovery

  /** Payload bytes beyond the buffer: reported once, and the rest is skipped. */
  lemma {:induction false} Overflows(q: Parser, bytes: seq<byte>)
    requires q.Valid() && q.state == READ_PAYLOAD && q.cap < q.header[2] && ZeroFree(bytes)
    requires q.cap < q.rxPos + |bytes|
    ensures q.Process(bytes).0.state == HUNT_SYNC && q.Process(bytes).1 == [OnError(RX_BUFFER_SMALL)]
    decreases |bytes|
  {
    var (r, now) := q.Receive(bytes[0]);
    assert ZeroFree(bytes[1..]);
    if q.rxPos < q.cap {
      Overflows(r, bytes[1..]);
    } else {
      HuntingStays(r, bytes[1..]);
    }
  }

  /** A frame longer than the buffer is reported as such and not delivered, and the receiver is back in step. */
  lemma TooLong(p: Parser, serviceId: byte, payload: seq<byte>)
    requires p.Valid() && p.state == HUNT_SYNC && serviceId != 0 && p.cap < |payload| <= 0xFF
    ensures var (q, events) := p.Process(FrameBytes(serviceId, payload));
      q.state == HUNT_SYNC && events == [OnError(RX_BUFFER_SMALL)]
  {
    var h := Header(serviceId, payload);
    HeaderTaken(p, h, Encoded(payload));
    var pos :| Opened(p, h, pos).Valid() && p.Process(h + Encoded(payload)) ==
      (Opened(p, h, pos).Process(Encoded(payload)).0, [] + Opened(p, h, pos).Process(Encoded(payload)).1);
    OnlySyncIsZero(serviceId, payload);
    Overflows(Opened(p, h, pos), Encoded(payload));
  }

  /** A zero where payload is due is reported and swallowed; a payload of one byte is then delivered as that zero. */
  lemma ZeroSwallowed(q: Parser)
    requires q.Valid() && q.state == READ_PAYLOAD && q.rxPos < q.header[2] <= q.cap
    ensures var (r, events) := q.Receive(0);
      && r.state == HUNT_SYNC
      && events == [OnError(PAYLOAD_INCOMPLETE)] + if q.header[2] == 1 then [OnFrame(q.header[1], [0])] else []
  {
    if q.header[2] == 1 {
      var r := q.ReceivePart(0).0;
      assert r.payload[..1] == [0];
    }
  }

  /** The bytes of a frame from its sync on, met in the middle of a payload. */
  lemma FrameSwallowed(q: Parser, serviceId: byte, payload: seq<byte>)
    requires q.Valid() && q.state == READ_PAYLOAD && q.rxPos < q.header[2] <= q.cap
    requires Sendable(serviceId, payload, |payload|) && FirstCode(payload) != 0
    ensures var (r, events) := q.Process(FrameBytes(serviceId, payload));
      r.state == HUNT_SYNC && events == q.Receive(0).1
  {
    var f := FrameBytes(serviceId, payload);
    assert f == [0] + f[1..];
    OnlySyncIsZero(serviceId, payload);
    ProcessOne(q, 0, f[1..]);
    ZeroSwallowed(q);
    HuntingStays(q.Receive(0).0, f[1..]);
    EmptyRight(q.Receive(0).1);
  }

  /**
    A frame that breaks off after k of its payload bytes costs the next one too: the sync of
    the next is taken for the zero that ends the payload. What is reported is the break, and
    a payload of one byte that never came is delivered as zero.
  */
  lemma BreakCostsNext(p: Parser, serviceId: byte, payload: seq<byte>, k: nat, nextId: byte, next: seq<byte>)
    requires p.Valid() && p.state == HUNT_SYNC && Sendable(serviceId, payload, p.cap) && k < |payload|
    requires Sendable(nextId, next, |next|) && FirstCode(next) != 0
    ensures var (q, events) := p.Process(FrameBytes(serviceId, payload)[..5 + k] + FrameBytes(nextId, next));
      && q.state == HUNT_SYNC
      && events == [OnError(PAYLOAD_INCOMPLETE)] + if |payload| == 1 then [OnFrame(serviceId, [0])] else []
  {
    var h, part, f := Header(serviceId, payload), Encoded(payload)[..k], FrameBytes(nextId, next);
    assert FrameBytes(serviceId, payload)[..5 + k] == h + part;
    Associate(h, part, f);
    HeaderTaken(p, h, part + f);
    var pos :| Opened(p, h, pos).Valid() && p.Process(h + (part + f)) ==
      (Opened(p, h, pos).Process(part + f).0, [] + Opened(p, h, pos).Process(part + f).1);
    OnlySyncIsZero(serviceId, payload);
    PayloadFallsShort(Opened(p, h, pos), part);
    ProcessConcat(Opened(p, h, pos), part, f);
    var q := Opened(p, h, pos).Process(part).0;
    FrameSwallowed(q, nextId, next);
    ZeroSwallowed(q);
  }
}

/**
  What the ABF receiver does with framed data: round trip, recovery from any parser
  state, and the exact reach of recovery.

  A frame whose code byte is not zero contains no zero after its sync byte, which is why
  a receiver in any state is back in step after at most two such frames. The code byte
  is zero for exactly one kind of payload, 255 bytes without a zero (`CodeZeroExactly`).
  Those frames round-trip too, but a receiver out of step takes their code byte for a
  sync and the first payload byte for a length: it recovers unless that byte is 253 or
  more, and then it never does (`RecoveryExactly`, `NeverDelivers`).
*/
module AbfRecovery {
  import opened Words
  import opened AbfCrc
  import opened AbfStream

  /** A frame `encode` produces and a receiver with this buffer can hold. */
  predicate Sendable(serviceId: byte, payload: seq<byte>, cap: nat) {
    serviceId != 0 && 1 <= |payload| <= 0xFF && |payload| <= cap
  }

  // ---------- shape of a frame ----------

  lemma CodeZeroExactly(p: seq<byte>)
    requires |p| <= 0xFF
    ensures FirstCode(p) == 0 <==> |p| == 0xFF && forall i :: 0 <= i < |p| ==> p[i] != 0
  {
    var z := NextZero(p, 0);
    if FirstCode(p) == 0 {
      assert z == 0xFF;
    }
    if |p| == 0xFF && forall i :: 0 <= i < |p| ==> p[i] != 0 {
      FoundZero(p, 0, |p|);
    }
  }

  ghost predicate ZeroFree(bytes: seq<byte>) {
    forall i :: 0 <= i < |bytes| ==> bytes[i] != 0
  }

  /** Only the sync byte is zero, and the code byte if the payload is full and zero-free. */
  lemma OnlySyncIsZero(serviceId: byte, p: seq<byte>)
    requires Sendable(serviceId, p, |p|)
    ensures ZeroFree(Encoded(p))
    ensures FirstCode(p) != 0 ==> ZeroFree(FrameBytes(serviceId, p)[1..])
  {
    forall i | 1 <= i < 5 + |p| && FirstCode(p) != 0
      ensures FrameBytes(serviceId, p)[i] != 0
    {
      if i >= 5 {
        assert FrameBytes(serviceId, p)[i] == EncodedAt(p, i - 5);
      }
    }
  }

  /** The header: sync, id, length, and how far it is to the first zero or to the end, zero standing for 256. */
  lemma HeaderLayout(serviceId: byte, p: seq<byte>)
    requires Sendable(serviceId, p, |p|)
    ensures var f := FrameBytes(serviceId, p);
      && f[0] == 0 && f[1] == serviceId && f[2] == |p|
      && var z := (if f[3] == 0 then 0x100 else f[3] as int) - 1;
        z <= |p| && ZeroFree(p[..z]) && (z < |p| ==> p[z] == 0)
  {
    var z := NextZero(p, 0);
    assert FrameBytes(serviceId, p)[3] == (z + 1) % 0x100;
  }

  /** The payload: bytes as they are, and each zero as how far it is to the next or to the end. */
  lemma PayloadLayout(serviceId: byte, p: seq<byte>, i: nat)
    requires Sendable(serviceId, p, |p|) && i < |p|
    ensures var b := FrameBytes(serviceId, p)[5 + i] as int;
      if p[i] != 0 then b == p[i]
      else 0 < b <= |p| - i && ZeroFree(p[i + 1..i + b]) && (i + b < |p| ==> p[i + b] == 0)
  {
    assert FrameBytes(serviceId, p)[5 + i] == EncodedAt(p, i);
  }

  // ---------- round trip ----------

  lemma ProcessOne(p: Parser, b: byte, rest: seq<byte>)
    requires p.Valid()
    ensures p.Process([b] + rest) == var (q, now) := p.Receive(b); var (r, later) := q.Process(rest); (r, now + later)
  {
    assert ([b] + rest)[1..] == rest;
  }

  /** A byte on which nothing is reported. */
  lemma QuietOne(p: Parser, b: byte, rest: seq<byte>)
    requires p.Valid() && p.Receive(b).1 == []
    ensures p.Process([b] + rest) == p.Receive(b).0.Process(rest)
  {
    ProcessOne(p, b, rest);
    assert [] + p.Receive(b).0.Process(rest).1 == p.Receive(b).0.Process(rest).1;
  }

  /** The receiver after the sync and three more header bytes. */
  function AfterFour(p: Parser, a: byte, b: byte, c: byte): (q: Parser)
    requires p.Valid() && p.state == HUNT_SYNC
    ensures q.Valid() && q.state == READ_HEADER && q.headerPos == 4
    ensures q == p.(state := READ_HEADER, headerPos := 4, header := [0, a, b, c, p.header[4]])
  {
    var q := p.Receive(0).0.Receive(a).0.Receive(b).0.Receive(c).0;
    assert q.header == [0, a, b, c, p.header[4]];
    q
  }

  lemma FourTaken(p: Parser, a: byte, b: byte, c: byte, rest: seq<byte>)
    requires p.Valid() && p.state == HUNT_SYNC
    ensures p.Process([0] + ([a] + ([b] + ([c] + rest)))) == AfterFour(p, a, b, c).Process(rest)
  {
    var p1 := p.Receive(0).0;
    var p2 := p1.Receive(a).0;
    var p3 := p2.Receive(b).0;
    QuietOne(p, 0, [a] + ([b] + ([c] + rest)));
    QuietOne(p1, a, [b] + ([c] + rest));
    QuietOne(p2, b, [c] + rest);
    QuietOne(p3, c, rest);
  }

  /** The fifth byte is compared with the checksum, and opens the payload either way. */
  lemma FifthTaken(p: Parser, b: byte)
    requires p.Valid() && p.state == READ_HEADER && p.headerPos == 4
    ensures var (q, events) := p.Receive(b);
      && q == p.(state := READ_PAYLOAD, header := p.header[4 := b], rxPos := 0, nextZero := p.header[3],
        headerPos := q.headerPos)
      && events == if HeaderCrc(p.header[1], p.header[2], p.header[3]) == b then [] else [OnError(HEADER_CRC_MISMATCH)]
  {
  }

  /** The receiver at the start of a payload. */
  function Opened(p: Parser, h: seq<byte>, pos: nat): Parser
    requires |h| == 5
  {
    p.(state := READ_PAYLOAD, header := h, rxPos := 0, nextZero := h[3], headerPos := pos)
  }

  lemma FiveTaken(p: Parser, h: seq<byte>) returns (pos: nat)
    requires p.Valid() && p.state == HUNT_SYNC && |h| == 5 && h[0] == 0
    ensures Opened(p, h, pos).Valid()
    ensures AfterFour(p, h[1], h[2], h[3]).Receive(h[4]) ==
      (Opened(p, h, pos), if HeaderCrc(h[1], h[2], h[3]) == h[4] then [] else [OnError(HEADER_CRC_MISMATCH)])
  {
    var p4 := AfterFour(p, h[1], h[2], h[3]);
    FifthTaken(p4, h[4]);
    assert p4.header[4 := h[4]] == h;
    pos := p4.Receive(h[4]).0.headerPos;
  }

  /** Five header bytes from HUNT_SYNC, whatever they say after the sync. */
  lemma HeaderTaken(p: Parser, h: seq<byte>, rest: seq<byte>)
    requires p.Valid() && p.state == HUNT_SYNC && |h| == 5 && h[0] == 0
    ensures var good := HeaderCrc(h[1], h[2], h[3]) == h[4];
            exists pos :: Opened(p, h, pos).Valid() &&
              p.Process(h + rest) == (Opened(p, h, pos).Process(rest).0,
                                      (if good then [] else [OnError(HEADER_CRC_MISMATCH)])
                                        + Opened(p, h, pos).Process(rest).1)
  {
    var pos := FiveTaken(p, h);
    FiveBytes(h, rest);
    FourTaken(p, h[1], h[2], h[3], [h[4]] + rest);
    ProcessOne(AfterFour(p, h[1], h[2], h[3]), h[4], rest);
  }

  lemma FiveBytes(h: seq<byte>, rest: seq<byte>)
    requires |h| == 5
    ensures h + rest == [h[0]] + ([h[1]] + ([h[2]] + ([h[3]] + ([h[4]] + rest))))
  {
  }

  /** The countdown a receiver holds before byte k: the distance to the next zero, modulo 256. */
  function Countdown(p: seq<byte>, k: nat): byte
    requires k <= |p|
  {
    (NextZero(p, k) - k + 1) % 0x100
  }

  /** In the middle of a payload: k bytes are rebuilt and the countdown is right. */
  ghost predicate MidPayload(q: Parser, serviceId: byte, p: seq<byte>, k: nat) {
    && q.Valid() && q.state == READ_PAYLOAD && k <= |p| <= 0xFF && |p| <= q.cap
    && q.header[1] == serviceId && q.header[2] == |p|
    && q.rxPos == k && q.payload[..k] == p[..k] && q.nextZero == Countdown(p, k)
  }

  lemma PayloadStep(q: Parser, serviceId: byte, p: seq<byte>, k: nat)
    requires MidPayload(q, serviceId, p, k) && k < |p|
    ensures var (r, events) := q.Receive(EncodedAt(p, k));
            if k + 1 < |p| then MidPayload(r, serviceId, p, k + 1) && events == [] && r.cap == q.cap
            else r.state == HUNT_SYNC && events == [OnFrame(serviceId, p)]
  {
    var z, b := NextZero(p, k), EncodedAt(p, k);
    assert q.nextZero == 1 <==> z == k;
    if z > k {
      FoundZero(p, k + 1, z);
    }
    var (r, events) := q.ReceivePart(b);
    assert r.payload[..k + 1] == p[..k] + [p[k]] == p[..k + 1];
    if k + 1 == |p| {
      assert p[..k + 1] == p;
    }
  }

  lemma {:induction false} PayloadTaken(q: Parser, serviceId: byte, p: seq<byte>, k: nat)
    requires MidPayload(q, serviceId, p, k) && k < |p|
    ensures var (r, events) := q.Process(Encoded(p)[k..]);
            r.state == HUNT_SYNC && events == [OnFrame(serviceId, p)]
    decreases |p| - k
  {
    var rest := Encoded(p)[k..];
    assert rest[0] == EncodedAt(p, k) && rest[1..] == Encoded(p)[k + 1..];
    PayloadStep(q, serviceId, p, k);
    if k + 1 < |p| {
      PayloadTaken(q.Receive(EncodedAt(p, k)).0, serviceId, p, k + 1);
    } else {
      assert rest[1..] == [];
    }
  }

  /** A header with the right id, length and code, whatever its checksum byte, and the encoded payload. */
  lemma FrameTaken(p: Parser, serviceId: byte, payload: seq<byte>, crc: byte)
    requires p.Valid() && p.state == HUNT_SYNC && Sendable(serviceId, payload, p.cap)
    ensures var h := Header(serviceId, payload)[4 := crc];
            var (q, events) := p.Process(h + Encoded(payload));
            q.state == HUNT_SYNC &&
            events == (if crc == Header(serviceId, payload)[4] then [] else [OnError(HEADER_CRC_MISMATCH)])
              + [OnFrame(serviceId, payload)]
  {
    var h := Header(serviceId, payload)[4 := crc];
    HeaderTaken(p, h, Encoded(payload));
    var q := p.(state := READ_PAYLOAD, header := h, rxPos := 0, nextZero := h[3]);
    var good := HeaderCrc(h[1], h[2], h[3]) == h[4];
    var pos :| q.(headerPos := pos).Valid() &&
      p.Process(h + Encoded(payload)) == (q.(headerPos := pos).Process(Encoded(payload)).0,
        (if good then [] else [OnError(HEADER_CRC_MISMATCH)]) + q.(headerPos := pos).Process(Encoded(payload)).1);
    assert Encoded(payload)[0..] == Encoded(payload);
    PayloadTaken(q.(headerPos := pos), serviceId, payload, 0);
  }

  /** Round trip, for every id and payload encode accepts, the full zero-free payload included. */
  lemma RoundTrip(p: Parser, serviceId: byte, payload: seq<byte>)
    requires p.Valid() && p.state == HUNT_SYNC && Sendable(serviceId, payload, p.cap)
    ensures var (q, events) := p.Process(FrameBytes(serviceId, payload));
            q.state == HUNT_SYNC && events == [OnFrame(serviceId, payload)]
  {
    var crc := Header(serviceId, payload)[4];
    assert Header(serviceId, payload)[4 := crc] == Header(serviceId, payload);
    FrameTaken(p, serviceId, payload, crc);
    assert [] + [OnFrame(serviceId, payload)] == [OnFrame(serviceId, payload)];
  }

  /** A wrong checksum byte is reported and the frame is delivered all the same. */
  lemma BadChecksumStillDelivers(p: Parser, serviceId: byte, payload: seq<byte>, crc: byte)
    requires p.Valid() && p.state == HUNT_SYNC && Sendable(serviceId, payload, p.cap)
    requires crc != Header(serviceId, payload)[4]
    ensures p.Process(Header(serviceId, payload)[4 := crc] + Encoded(payload)).1
         == [OnError(HEADER_CRC_MISMATCH), OnFrame(serviceId, payload)]
  {
    FrameTaken(p, serviceId, payload, crc);
  }

  lemma BitsDiffer(a: byte, b: byte)
    requires a != b
    ensures a as bv8 != b as bv8
  {
    ByteBack(a);
    ByteBack(b);
  }

  lemma BitsUpdate(bytes: seq<byte>, i: nat, b: byte)
    requires i < |bytes|
    ensures Bits(bytes[i := b]) == Bits(bytes)[i := b as bv8]
  {
  }

  /** One sum is 0x00 and the other 0xFF: the same checksum byte stands for both. */
  predicate Collide(a: bv8, b: bv8) {
    (a == 0 && b == 0xFF) || (a == 0xFF && b == 0)
  }

  lemma ChecksBoth(c: byte, covered: seq<byte>, i: nat, b: byte)
    requires Checks(c, covered) && i < |covered| && covered[i] != b
    ensures Checks(c, covered[i := b]) <==> Collide(Crc8(Bits(covered)), Crc8(Bits(covered[i := b])))
  {
    BitsUpdate(covered, i, b);
    BitsDiffer(covered[i], b);
    OneByteChanges(Bits(covered), i, b as bv8);
  }

  /**
    A header with any one of its id, length and code bytes changed is reported, unless the
    sums before and after are 0x00 and 0xFF.
  */
  lemma DamageReported(p: Parser, h: seq<byte>, i: nat, b: byte)
    requires p.Valid() && p.state == HUNT_SYNC
    requires |h| == 5 && h[0] == 0 && Checks(h[4], h[1..4]) && 1 <= i <= 3 && h[i] != b
    ensures p.Process(h[i := b]).1 ==
      if Collide(Crc8(Bits(h[1..4])), Crc8(Bits(h[i := b][1..4]))) then [] else [OnError(HEADER_CRC_MISMATCH)]
  {
    var g := h[i := b];
    assert g[1..4] == h[1..4][i - 1 := b];
    ChecksBoth(h[4], h[1..4], i - 1, b);
    CrcCovers(g);
    HeaderTaken(p, g, []);
    EmptyRight(g);
  }

  /** Such damage exists: id 10, length 4 and code 1 sum to 0x00, and with id 75 to 0xFF. */
  lemma DamageUnreported(p: Parser)
    requires p.Valid() && p.state == HUNT_SYNC
    ensures Checks(0xFF, [10, 4, 1]) && p.Process([0, 75, 4, 1, 0xFF]).1 == []
  {
    var h: seq<byte> := [0, 10, 4, 1, 0xFF];
    var g: seq<byte> := [0, 75, 4, 1, 0xFF];
    assert h[1..4] == [h[1], h[2], h[3]] && g[1..4] == [g[1], g[2], g[3]] && h[1 := 75] == g;
    SumsCollide(Bits([10, 4, 1]), Bits([75, 4, 1]));
    DamageReported(p, h, 1, 75);
  }

  // ---------- recovery ----------

  /** Without zeros a hunting receiver stays hunting. */
  lemma {:induction false} HuntingStays(p: Parser, bytes: seq<byte>)
    requires p.Valid() && p.state == HUNT_SYNC && ZeroFree(bytes)
    ensures p.Process(bytes) == (p, [])
    decreases |bytes|
  {
    if bytes != [] {
      assert ZeroFree(bytes[1..]);
      HuntingStays(p, bytes[1..]);
      var none: seq<Event> := [];
      assert none + none == none;
    }
  }

  /** Without zeros a payload ends in hunting or goes on. */
  lemma {:induction false} PayloadGoesOn(p: Parser, bytes: seq<byte>)
    requires p.Valid() && p.state == READ_PAYLOAD && ZeroFree(bytes)
    ensures p.Process(bytes).0.state != READ_HEADER
    decreases |bytes|
  {
    if bytes != [] {
      assert ZeroFree(bytes[1..]);
      var q := p.Receive(bytes[0]).0;
      if q.state == HUNT_SYNC {
        HuntingStays(q, bytes[1..]);
      } else {
        PayloadGoesOn(q, bytes[1..]);
      }
    }
  }

  /** A zero ends a payload, whatever it was. */
  lemma ZeroEndsPayload(p: Parser)
    requires p.Valid() && p.state == READ_PAYLOAD
    ensures p.Receive(0).0.state == HUNT_SYNC
  {
  }

  /** A header under way ends within four more bytes. */
  lemma {:induction false} HeaderEnds(p: Parser, bytes: seq<byte>)
    requires p.Valid() && p.state == READ_HEADER && |bytes| >= 5 - p.headerPos && ZeroFree(bytes)
    ensures p.Process(bytes).0.state != READ_HEADER
    decreases |bytes|
  {
    assert ZeroFree(bytes[1..]);
    var q := p.Receive(bytes[0]).0;
    if q.state == READ_HEADER {
      HeaderEnds(q, bytes[1..]);
    } else {
      PayloadGoesOn(q, bytes[1..]);
    }
  }

  /** Payload bytes that reach the announced length end in hunting. */
  lemma {:induction false} PayloadCompletes(p: Parser, bytes: seq<byte>)
    requires p.Valid() && p.state == READ_PAYLOAD && ZeroFree(bytes) && bytes != []
    requires p.header[2] - p.rxPos <= |bytes|
    ensures p.Process(bytes).0.state == HUNT_SYNC
    decreases |bytes|
  {
    assert ZeroFree(bytes[1..]);
    var q := p.Receive(bytes[0]).0;
    if q.state == HUNT_SYNC {
      HuntingStays(q, bytes[1..]);
    } else {
      PayloadCompletes(q, bytes[1..]);
    }
  }

  /** Payload bytes that fall short of it are stored, and nothing is reported. */
  lemma {:induction false} PayloadFallsShort(p: Parser, bytes: seq<byte>)
    requires p.Valid() && p.state == READ_PAYLOAD && ZeroFree(bytes)
    requires p.rxPos + |bytes| < p.header[2] <= p.cap
    ensures var (q, events) := p.Process(bytes);
            q.state == READ_PAYLOAD && q.header == p.header && q.rxPos == p.rxPos + |bytes| && events == []
    decreases |bytes|
  {
    if bytes != [] {
      assert ZeroFree(bytes[1..]);
      PayloadFallsShort(p.Receive(bytes[0]).0, bytes[1..]);
    }
  }

  // ---------- a frame met out of step ----------

  /** The bytes up to and including the code byte, and the rest. */
  lemma FrameHalves(serviceId: byte, payload: seq<byte>)
    requires Sendable(serviceId, payload, |payload|)
    ensures var f := FrameBytes(serviceId, payload);
            f[..4] == [0, serviceId, |payload|, FirstCode(payload)] && f[..4] + f[4..] == f &&
            ZeroFree(f[4..]) && |f[4..]| == 1 + |payload| &&
            forall i :: 0 <= i < |payload| ==> f[4..][1 + i] == EncodedAt(payload, i)
  {
    var f := FrameBytes(serviceId, payload);
    OnlySyncIsZero(serviceId, payload);
    forall i | 0 <= i < |f[4..]|
      ensures f[4..][i] != 0
    {
      if i > 0 { assert f[4..][i] == Encoded(payload)[i - 1]; }
    }
  }

  lemma ProcessFour(p: Parser, a: byte, b: byte, c: byte, d: byte)
    requires p.Valid()
    ensures p.Process([a, b, c, d]).0 == p.Receive(a).0.Receive(b).0.Receive(c).0.Receive(d).0
    ensures p.Process([a, b, c, d]).1 == p.Receive(a).1 + (p.Receive(a).0.Receive(b).1 +
              (p.Receive(a).0.Receive(b).0.Receive(c).1 + p.Receive(a).0.Receive(b).0.Receive(c).0.Receive(d).1))
  {
    var p1 := p.Receive(a).0;
    var p2 := p1.Receive(b).0;
    var p3 := p2.Receive(c).0;
    ProcessOne(p, a, [b, c, d]);
    ProcessOne(p1, b, [c, d]);
    ProcessOne(p2, c, [d]);
    ProcessOne(p3, d, []);
    assert [a, b, c, d] == [a] + [b, c, d] && [b, c, d] == [b] + [c, d] && [c, d] == [c] + [d] && [d] == [d] + [];
    EmptyRight(p3.Receive(d).1);
  }

  /** The frames that bring any receiver back into step. */
  predicate Settling(payload: seq<byte>)
    requires payload != []
  {
    FirstCode(payload) != 0 || payload[0] < 253
  }

  /** The inner frame a full zero-free payload seems to start at its code byte: length payload[0], 252 bytes left. */
  lemma InnerFrameEnds(p: Parser, rest: seq<byte>)
    requires p.Valid() && p.state == READ_HEADER && p.headerPos == 1
    requires |rest| == 0x100 && ZeroFree(rest) && rest[1] < 253
    ensures p.Process(rest).0.state == HUNT_SYNC
  {
    assert rest == rest[..4] + rest[4..] && rest[..4] == [rest[0], rest[1], rest[2], rest[3]];
    ProcessConcat(p, rest[..4], rest[4..]);
    ProcessFour(p, rest[0], rest[1], rest[2], rest[3]);
    var q := p.Process(rest[..4]).0;
    assert q.state == READ_PAYLOAD && q.header[2] == rest[1];
    assert ZeroFree(rest[4..]);
    PayloadCompletes(q, rest[4..]);
  }

  /** The first four bytes of a full zero-free frame, met inside a payload: the code byte is taken for a sync. */
  lemma FourInPayload(p: Parser, serviceId: byte)
    requires p.Valid() && p.state == READ_PAYLOAD && serviceId != 0
    ensures var q := p.Process([0, serviceId, 0xFF, 0]).0; q.state == READ_HEADER && q.headerPos == 1
  {
    ZeroEndsPayload(p);
    var p1 := p.Receive(0).0;
    assert p1.Receive(serviceId) == (p1, []) && p1.Receive(0xFF) == (p1, []);
    ProcessFour(p, 0, serviceId, 0xFF, 0);
  }

  /** Fewer bytes than a header needs leave it open. */
  lemma {:induction false} HeaderGoesOn(p: Parser, bytes: seq<byte>)
    requires p.Valid() && p.state == READ_HEADER && |bytes| < 5 - p.headerPos
    ensures var q := p.Process(bytes).0; q.state == READ_HEADER && q.headerPos == p.headerPos + |bytes|
    decreases |bytes|
  {
    if bytes != [] {
      HeaderGoesOn(p.Receive(bytes[0]).0, bytes[1..]);
    }
  }

  /** The first three bytes, met inside a header: it is over, or one byte short. */
  lemma ThreeInHeader(p: Parser, serviceId: byte)
    requires p.Valid() && p.state == READ_HEADER && serviceId != 0
    ensures var q := p.Process([0, serviceId, 0xFF]).0; q.state == READ_HEADER ==> q.headerPos == 4
  {
    var bytes := [serviceId, 0xFF];
    assert [0, serviceId, 0xFF] == [0] + bytes && ZeroFree(bytes);
    ProcessOne(p, 0, bytes);
    var q := p.Receive(0).0;
    if q.state == READ_PAYLOAD {
      PayloadGoesOn(q, bytes);
    } else if q.headerPos <= 2 {
      HeaderGoesOn(q, bytes);
    } else {
      HeaderEnds(q, bytes);
    }
  }

  /** Met inside a header: that header is over after the fourth byte, and the code byte may be taken for a sync. */
  lemma FourInHeader(p: Parser, serviceId: byte)
    requires p.Valid() && p.state == READ_HEADER && serviceId != 0
    ensures var q := p.Process([0, serviceId, 0xFF, 0]).0; q.state == READ_HEADER ==> q.headerPos == 1
  {
    var q := p.Process([0, serviceId, 0xFF]).0;
    ThreeInHeader(p, serviceId);
    ProcessConcat(p, [0, serviceId, 0xFF], [0]);
    assert [0, serviceId, 0xFF, 0] == [0, serviceId, 0xFF] + [0] && [0] == [0] + [];
    ProcessOne(q, 0, []);
  }

  lemma FullFrameSettles(p: Parser, serviceId: byte, payload: seq<byte>)
    requires p.Valid() && Sendable(serviceId, payload, p.cap) && FirstCode(payload) == 0 && payload[0] < 253
    requires p.state != HUNT_SYNC
    ensures var q := p.Process(FrameBytes(serviceId, payload)).0;
            q.state != READ_HEADER && (p.state == READ_PAYLOAD ==> q.state == HUNT_SYNC)
  {
    var f := FrameBytes(serviceId, payload);
    CodeZeroExactly(payload);
    FrameHalves(serviceId, payload);
    ProcessConcat(p, f[..4], f[4..]);
    if p.state == READ_PAYLOAD { FourInPayload(p, serviceId); } else { FourInHeader(p, serviceId); }
    var q := p.Process(f[..4]).0;
    match q.state {
      case HUNT_SYNC => HuntingStays(q, f[4..]);
      case READ_PAYLOAD => PayloadGoesOn(q, f[4..]);
      case READ_HEADER =>
        assert f[4..][1] == EncodedAt(payload, 0) == payload[0];
        InnerFrameEnds(q, f[4..]);
    }
  }

  /**
    One settling frame, met in any state: the receiver is never left inside a header, and
    inside a payload only if it met the frame inside a header.
  */
  lemma FrameSettles(p: Parser, serviceId: byte, payload: seq<byte>)
    requires p.Valid() && Sendable(serviceId, payload, p.cap) && Settling(payload)
    ensures var q := p.Process(FrameBytes(serviceId, payload)).0;
            q.state != READ_HEADER && (p.state != READ_HEADER ==> q.state == HUNT_SYNC)
  {
    var f := FrameBytes(serviceId, payload);
    OnlySyncIsZero(serviceId, payload);
    var q := p.Receive(f[0]).0;
    if p.state == HUNT_SYNC {
      RoundTrip(p, serviceId, payload);
    } else if FirstCode(payload) == 0 {
      FullFrameSettles(p, serviceId, payload);
    } else if p.state == READ_PAYLOAD {
      ZeroEndsPayload(p);
      HuntingStays(q, f[1..]);
    } else if q.state == READ_HEADER {
      HeaderEnds(q, f[1..]);
    } else {
      PayloadGoesOn(q, f[1..]);
    }
  }

  lemma TwoFramesSettle(p: Parser, a: Message, b: Message)
    requires p.Valid()
    requires Sendable(a.serviceId, a.payload, p.cap) && Settling(a.payload)
    requires Sendable(b.serviceId, b.payload, p.cap) && Settling(b.payload)
    ensures p.Process(FrameBytes(a.serviceId, a.payload) + FrameBytes(b.serviceId, b.payload)).0.state == HUNT_SYNC
  {
    var f, g := FrameBytes(a.serviceId, a.payload), FrameBytes(b.serviceId, b.payload);
    ProcessConcat(p, f, g);
    FrameSettles(p, a.serviceId, a.payload);
    FrameSettles(p.Process(f).0, b.serviceId, b.payload);
  }

  datatype Message = Message(serviceId: byte, payload: seq<byte>)

  /**
    Self-stabilisation. From every state whose indices are in range, of any three frames
    back to back, the first two settling, the third is delivered intact, as the last
    thing that happens, and the receiver is hunting.
  */
  lemma ThirdFrameArrives(p: Parser, a: Message, b: Message, c: Message)
    requires p.Valid()
    requires Sendable(a.serviceId, a.payload, p.cap) && Settling(a.payload)
    requires Sendable(b.serviceId, b.payload, p.cap) && Settling(b.payload)
    requires Sendable(c.serviceId, c.payload, p.cap)
    ensures var (q, events) := p.Process(FrameBytes(a.serviceId, a.payload) + FrameBytes(b.serviceId, b.payload)
      + FrameBytes(c.serviceId, c.payload));
            q.state == HUNT_SYNC &&
            exists before :: events == before + [OnFrame(c.serviceId, c.payload)]
  {
    var fg, h := FrameBytes(a.serviceId, a.payload) + FrameBytes(b.serviceId, b.payload),
      FrameBytes(c.serviceId, c.payload);
    ProcessConcat(p, fg, h);
    TwoFramesSettle(p, a, b);
    RoundTrip(p.Process(fg).0, c.serviceId, c.payload);
    assert p.Process(fg + h).1 == p.Process(fg).1 + [OnFrame(c.serviceId, c.payload)];
  }

  // ---------- the frames that never settle ----------

  /** Inside a payload that a zero will break off. */
  ghost predicate Trapped(p: Parser) {
    p.Valid() && p.state == READ_PAYLOAD && p.rxPos < p.header[2] && 2 <= p.header[2] && p.cap == 0xFF
  }

  ghost predicate NoFrame(events: seq<Event>) {
    forall i :: 0 <= i < |events| ==> events[i].OnError?
  }

  /** The zero of the sync breaks the payload off, the code byte opens an inner header. */
  lemma TrapOpens(p: Parser, serviceId: byte)
    requires Trapped(p) && serviceId != 0
    ensures var (q, events) := p.Process([0, serviceId, 0xFF, 0]);
            q.state == READ_HEADER && q.headerPos == 1 && events == [OnError(PAYLOAD_INCOMPLETE)]
  {
    FourInPayload(p, serviceId);
    var p1 := p.Receive(0).0;
    assert p.Receive(0).1 == [OnError(PAYLOAD_INCOMPLETE)] && p1.state == HUNT_SYNC;
    assert p1.Receive(serviceId) == (p1, []) && p1.Receive(0xFF) == (p1, []);
    assert p1.Receive(0).1 == [];
    ProcessFour(p, 0, serviceId, 0xFF, 0);
    EmptyRight(p.Receive(0).1);
  }

  /** An inner header announcing more than the 252 bytes left closes the trap. */
  lemma TrapCloses(p: Parser, rest: seq<byte>)
    requires p.Valid() && p.state == READ_HEADER && p.headerPos == 1 && p.cap == 0xFF
    requires |rest| == 0x100 && ZeroFree(rest) && rest[1] >= 253
    ensures var (q, events) := p.Process(rest); Trapped(q) && NoFrame(events)
  {
    assert rest == rest[..4] + rest[4..] && rest[..4] == [rest[0], rest[1], rest[2], rest[3]];
    ProcessConcat(p, rest[..4], rest[4..]);
    HeaderOpens(p, rest[0], rest[1], rest[2], rest[3]);
    assert ZeroFree(rest[4..]);
    PayloadFallsShort(p.Process(rest[..4]).0, rest[4..]);
  }

  lemma HeaderOpens(p: Parser, a: byte, b: byte, c: byte, d: byte)
    requires p.Valid() && p.state == READ_HEADER && p.headerPos == 1
    ensures var (q, events) := p.Process([a, b, c, d]);
            q.state == READ_PAYLOAD && q.header[2] == b && q.rxPos == 0 && NoFrame(events)
  {
    ProcessFour(p, a, b, c, d);
  }

  /** A trapped receiver is trapped again after a frame that is not settling, and delivers nothing. */
  lemma TrapHolds(p: Parser, serviceId: byte, payload: seq<byte>)
    requires Trapped(p) && Sendable(serviceId, payload, p.cap) && !Settling(payload)
    ensures var (q, events) := p.Process(FrameBytes(serviceId, payload)); Trapped(q) && NoFrame(events)
  {
    var f := FrameBytes(serviceId, payload);
    CodeZeroExactly(payload);
    FrameHalves(serviceId, payload);
    ProcessConcat(p, f[..4], f[4..]);
    TrapOpens(p, serviceId);
    assert f[4..][1] == EncodedAt(payload, 0) == payload[0];
    TrapCloses(p.Process(f[..4]).0, f[4..]);
  }

  function Repeat(bytes: seq<byte>, n: nat): seq<byte> {
    if n == 0 then [] else bytes + Repeat(bytes, n - 1)
  }

  lemma StillQuiet(a: seq<Event>, b: seq<Event>)
    requires NoFrame(a) && NoFrame(b)
    ensures NoFrame(a + b)
  {
  }

  /** These bytes leave the receiver trapped, and deliver nothing. */
  ghost predicate Lost(p: Parser, bytes: seq<byte>)
    requires p.Valid()
  {
    Trapped(p.Process(bytes).0) && NoFrame(p.Process(bytes).1)
  }

  lemma LostTwice(p: Parser, a: seq<byte>, b: seq<byte>)
    requires p.Valid() && Lost(p, a) && Lost(p.Process(a).0, b)
    ensures Lost(p, a + b)
  {
    ProcessConcat(p, a, b);
    StillQuiet(p.Process(a).1, p.Process(a).0.Process(b).1);
  }

  /** However often the frame is sent, a trapped receiver never delivers it. */
  lemma {:induction false} NeverDelivers(p: Parser, serviceId: byte, payload: seq<byte>, n: nat)
    requires Trapped(p) && Sendable(serviceId, payload, p.cap) && !Settling(payload)
    ensures Lost(p, Repeat(FrameBytes(serviceId, payload), n))
    decreases n
  {
    if n > 0 {
      var f := FrameBytes(serviceId, payload);
      TrapHolds(p, serviceId, payload);
      NeverDelivers(p.Process(f).0, serviceId, payload, n - 1);
      LostTwice(p, f, Repeat(f, n - 1));
    }
  }

  lemma RepeatTwice(f: seq<byte>)
    ensures Repeat(f, 2) == f + f
  {
    assert Repeat(f, 1) == f + Repeat(f, 0);
    EmptyRight(f);
  }

  /** Left in step by these bytes, whatever the state it met them in. */
  ghost predicate Recovers(p: Parser, bytes: seq<byte>) {
    p.Valid() ==> p.Process(bytes).0.state == HUNT_SYNC
  }

  /** A receiver that has just been set up. */
  function Idle(): (p: Parser)
    ensures p.Valid() && p.state == HUNT_SYNC && p.cap == 0xFF
  {
    Parser(HUNT_SYNC, 0, seq(5, _ => 0), 0, 0, seq(0xFF, _ => 0), 0xFF)
  }

  /** Five bytes on the line trap it: a header that announces a payload of two, with a wrong checksum or not. */
  lemma TrapReached(checksum: byte) returns (p: Parser)
    ensures p == Idle().Process([0, 1, 2, 0, checksum]).0 && Trapped(p)
  {
    var h: seq<byte> := [0, 1, 2, 0, checksum];
    HeaderTaken(Idle(), h, []);
    EmptyRight(h);
    p := Idle().Process(h).0;
  }

  /**
    The exact reach of recovery: two copies of a frame bring every receiver back into step
    iff the frame is settling.
  */
  lemma RecoveryExactly(serviceId: byte, payload: seq<byte>)
    requires Sendable(serviceId, payload, 0xFF)
    ensures (forall p: Parser :: p.cap == 0xFF ==> Recovers(p, Repeat(FrameBytes(serviceId, payload), 2)))
            <==> Settling(payload)
  {
    var twice := Repeat(FrameBytes(serviceId, payload), 2);
    if Settling(payload) {
      forall p: Parser | p.cap == 0xFF
        ensures Recovers(p, twice)
      {
        if p.Valid() {
          RepeatTwice(FrameBytes(serviceId, payload));
          TwoFramesSettle(p, Message(serviceId, payload), Message(serviceId, payload));
        }
      }
    } else {
      var p := TrapReached(9);
      NeverDelivers(p, serviceId, payload, 2);
      assert !Recovers(p, twice);
    }
  }
}

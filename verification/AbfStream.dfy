/**
  `abf::Stream` (fdlib/middleware/ABFStream.cpp, lines 44-168): framing with in-place
  zero elimination and the byte-at-a-time receiver.

  `Parser` is the receiver on values; the class performs it byte by byte. As in the
  source, the receiver goes on into READ_PAYLOAD after a header checksum mismatch, and
  a zero inside a payload is reported, stored and swallowed, not taken as a sync.
*/
module AbfStream {
  import opened Words
  import opened AbfCrc

  datatype Err = OK | PAYLOAD_INCOMPLETE | HEADER_CRC_MISMATCH | RX_BUFFER_SMALL | UNKNOWN

  datatype State = HUNT_SYNC | READ_HEADER | READ_PAYLOAD

  /** What the callbacks are told. */
  datatype Event = OnFrame(serviceId: byte, payload: seq<byte>) | OnError(err: Err)

  /** The checksum a header carries: never zero. */
  function HeaderCrc(serviceId: byte, len: byte, code: byte): (c: byte)
    ensures c != 0
  {
    var crc := Crc8([serviceId as bv8, len as bv8, code as bv8]);
    if crc == 0 then 0xFF else crc as int
  }

  function Bits(bytes: seq<byte>): (b: seq<bv8>)
    ensures |b| == |bytes|
  {
    seq(|bytes|, i requires 0 <= i < |bytes| => bytes[i] as bv8)
  }

  /** A checksum byte is right for these bytes: their CRC-8, zero standing as 0xFF. */
  predicate Checks(c: byte, covered: seq<byte>) {
    var crc := Crc8(Bits(covered));
    c == if crc == 0 then 0xFF else crc as int
  }

  /** What the header carries covers id, length and code, in that order. */
  lemma CrcCovers(h: seq<byte>)
    requires |h| >= 5
    ensures HeaderCrc(h[1], h[2], h[3]) == h[4] <==> Checks(h[4], h[1..4])
  {
    assert Bits(h[1..4]) == [h[1] as bv8, h[2] as bv8, h[3] as bv8];
  }

  // ---------- encoding ----------

  /** The index of the first zero at or after i, or the length. */
  function NextZero(p: seq<byte>, i: nat): (z: nat)
    requires i <= |p|
    ensures i <= z <= |p| && (z < |p| ==> p[z] == 0)
    ensures forall j :: i <= j < z ==> p[j] != 0
    decreases |p| - i
  {
    if i == |p| || p[i] == 0 then i else NextZero(p, i + 1)
  }

  /** The code byte in the header: the distance to the first zero, counted from just before the payload. */
  function FirstCode(p: seq<byte>): byte {
    (NextZero(p, 0) + 1) % 0x100
  }

  /** The encoded payload: each zero replaced by the distance to the next one or to the end. */
  function Encoded(p: seq<byte>): (e: seq<byte>)
    requires |p| <= 0xFF
    ensures |e| == |p|
  {
    seq(|p|, i requires 0 <= i < |p| => EncodedAt(p, i))
  }

  function EncodedAt(p: seq<byte>, i: nat): (b: byte)
    requires i < |p| <= 0xFF
    ensures b != 0
  {
    if p[i] == 0 then NextZero(p, i + 1) - i else p[i]
  }

  function Header(serviceId: byte, p: seq<byte>): (h: seq<byte>)
    requires |p| <= 0xFF
    ensures |h| == 5
  {
    [0, serviceId, |p|, FirstCode(p), HeaderCrc(serviceId, |p|, FirstCode(p))]
  }

  function FrameBytes(serviceId: byte, p: seq<byte>): (f: seq<byte>)
    requires |p| <= 0xFF
    ensures |f| == 5 + |p|
  {
    Header(serviceId, p) + Encoded(p)
  }

  // ---------- the loop of encode ----------

  function WithCode(now: seq<byte>, pos: int, code: byte): seq<byte>
    requires pos < |now|
  {
    if pos < 0 then now else now[pos := code]
  }

  /** Before byte i, with the last zero (if any) at `last`: all before it encoded, it and what follows as it was. */
  ghost predicate Coded(p: seq<byte>, was: seq<byte>, now: seq<byte>, last: int, i: int)
    requires |p| <= 0xFF
  {
    && |now| == |was| && p <= was && -1 <= last < i <= |p| && (0 <= last ==> p[last] == 0)
    && (forall j :: last < j < i && 0 <= j ==> p[j] != 0)
    && (forall j :: 0 <= j < last ==> now[j] == EncodedAt(p, j))
    && (forall j :: last <= j < |was| && 0 <= j ==> now[j] == was[j])
  }

  /** The code of the last zero, once the next (or the end) is known. */
  function CodeFor(last: int, i: int): byte
    requires -1 <= last < i <= last + 0x100
  {
    (i - last) % 0x100
  }

  lemma CodeIs(p: seq<byte>, last: int, i: nat)
    requires |p| <= 0xFF && -1 <= last < i <= |p| && (i < |p| ==> p[i] == 0)
    requires forall j :: last < j < i && 0 <= j ==> p[j] != 0
    ensures CodeFor(last, i) == if last < 0 then FirstCode(p) else (NextZero(p, last + 1) - last) % 0x100
  {
    FoundZero(p, last + 1, i);
  }

  lemma CodedPlain(p: seq<byte>, was: seq<byte>, now: seq<byte>, last: int, i: nat)
    requires |p| <= 0xFF && Coded(p, was, now, last, i) && i < |p| && now[i] != 0
    ensures Coded(p, was, now, last, i + 1)
  {
    assert now[i] == was[i] == p[i];
  }

  lemma CodedSoFar(p: seq<byte>, was: seq<byte>, now: seq<byte>, last: int, i: nat, code: byte, j: nat)
    requires |p| <= 0xFF && Coded(p, was, now, last, i) && (i < |p| ==> p[i] == 0) && code == CodeFor(last, i) && j < i
    ensures WithCode(now, last, code)[j] == EncodedAt(p, j)
  {
    if j == last {
      CodeIs(p, last, i);
    } else if j > last {
      assert now[j] == was[j] == p[j];
    }
  }

  lemma CodedZero(p: seq<byte>, was: seq<byte>, now: seq<byte>, last: int, i: nat)
    requires |p| <= 0xFF && Coded(p, was, now, last, i) && i < |p| && now[i] == 0
    ensures last < 0 ==> CodeFor(last, i) == FirstCode(p)
    ensures Coded(p, was, WithCode(now, last, CodeFor(last, i)), i, i + 1)
  {
    assert now[i] == was[i] == p[i];
    CodeIs(p, last, i);
    forall j | 0 <= j < i
      ensures WithCode(now, last, CodeFor(last, i))[j] == EncodedAt(p, j)
    {
      CodedSoFar(p, was, now, last, i, CodeFor(last, i), j);
    }
  }

  lemma CodedEnd(p: seq<byte>, was: seq<byte>, now: seq<byte>, last: int)
    requires |p| <= 0xFF && Coded(p, was, now, last, |p|)
    ensures last < 0 ==> CodeFor(last, |p|) == FirstCode(p)
    ensures WithCode(now, last, CodeFor(last, |p|)) == Encoded(p) + was[|p|..]
  {
    CodeIs(p, last, |p|);
    var after := WithCode(now, last, CodeFor(last, |p|));
    forall j | 0 <= j < |p|
      ensures after[j] == Encoded(p)[j]
    {
      CodedSoFar(p, was, now, last, |p|, CodeFor(last, |p|), j);
    }
    assert forall j :: |p| <= j < |was| ==> after[j] == was[j];
  }

  // ---------- receiving ----------

  datatype Parser = Parser(state: State, headerPos: nat, header: seq<byte>, rxPos: nat, nextZero: byte,
    payload: seq<byte>, cap: nat)
  {
    /** Every index the next byte will use is in range. */
    predicate Valid() {
      && |header| == 5 && cap <= |payload| && cap <= 0x1_0000
      && (state == READ_HEADER ==> 1 <= headerPos <= 4)
      && (state == READ_PAYLOAD ==> rxPos <= header[2] && rxPos <= cap)
    }

    function Reset(): Parser {
      this.(state := HUNT_SYNC, rxPos := 0, headerPos := 0)
    }

    function Receive(b: byte): (r: (Parser, seq<Event>))
      requires Valid()
      ensures r.0.Valid() && r.0.cap == cap
    {
      match state
      case HUNT_SYNC =>
        (if b == 0 then this.(state := READ_HEADER, headerPos := 1, header := header[0 := 0]) else this, [])
      case READ_HEADER => ReceiveHeader(b)
      case READ_PAYLOAD =>
        var (p, events) := ReceivePart(b);
        if p.rxPos == p.header[2] then (p.Reset(), events + [OnFrame(p.header[1], p.payload[..p.rxPos])])
        else (p, events)
    }

    /** After the fifth byte a mismatch is reported, and the payload is read all the same. */
    function ReceiveHeader(b: byte): (r: (Parser, seq<Event>))
      requires Valid() && state == READ_HEADER
      ensures r.0.Valid() && r.0.cap == cap
    {
      var p := this.(header := header[headerPos := b]);
      if headerPos == 4 then
        var good := HeaderCrc(p.header[1], p.header[2], p.header[3]) == p.header[4];
        var q := if good then p else p.Reset();
        (q.(nextZero := p.header[3], state := READ_PAYLOAD, rxPos := 0, headerPos := q.headerPos + 1),
         if good then [] else [OnError(HEADER_CRC_MISMATCH)])
      else
        (p.(headerPos := headerPos + 1), [])
    }

    /** The first half of READ_PAYLOAD: the byte is taken unless the payload is complete. */
    function ReceivePart(b: byte): (r: (Parser, seq<Event>))
      requires Valid() && state == READ_PAYLOAD
      ensures r.0.Valid() && r.0.cap == cap && r.0.rxPos <= cap
      ensures r.0.header == header && r.0.rxPos <= header[2]
    {
      if rxPos < header[2] then ReceivePayload(b) else (this, [])
    }

    function ReceivePayload(b: byte): (r: (Parser, seq<Event>))
      requires Valid() && state == READ_PAYLOAD && rxPos < header[2]
      ensures r.0.Valid() && r.0.cap == cap && r.0.rxPos <= cap
      ensures r.0.header == header && r.0.rxPos <= header[2]
    {
      var p := if b == 0 then Reset() else this;
      var early := if b == 0 then [OnError(PAYLOAD_INCOMPLETE)] else [];
      if p.rxPos < cap then
        (if nextZero == 1 then p.(payload := payload[p.rxPos := 0], rxPos := p.rxPos + 1, nextZero := b)
         else p.(payload := payload[p.rxPos := b], rxPos := p.rxPos + 1, nextZero := (nextZero - 1) % 0x100), early)
      else
        (p.Reset(), early + [OnError(RX_BUFFER_SMALL)])
    }

    /** `process` on a whole buffer. */
    function Process(data: seq<byte>): (r: (Parser, seq<Event>))
      requires Valid()
      ensures r.0.Valid() && r.0.cap == cap
      decreases |data|
    {
      if data == [] then (this, [])
      else
        var (p, now) := Receive(data[0]);
        var (q, later) := p.Process(data[1..]);
        (q, now + later)
    }
  }

  /** Any chunking: two calls do what one call on the concatenation does. */
  lemma {:induction false} ProcessConcat(p: Parser, a: seq<byte>, b: seq<byte>)
    requires p.Valid()
    ensures p.Process(a + b) == (p.Process(a).0.Process(b).0, p.Process(a).1 + p.Process(a).0.Process(b).1)
    decreases |a|
  {
    if a == [] {
      assert a + b == b;
      assert [] + p.Process(b).1 == p.Process(b).1;
    } else {
      assert (a + b)[0] == a[0] && (a + b)[1..] == a[1..] + b;
      var (q, now) := p.Receive(a[0]);
      ProcessConcat(q, a[1..], b);
      Associate(now, q.Process(a[1..]).1, q.Process(a[1..]).0.Process(b).1);
    }
  }

  class Stream {
    const rxPayload: array<byte>
    const rxCapacity: nat
    var rxPos: nat
    var rxNextZero: byte
    const header: array<byte>
    var headerPos: nat
    var state: State
    ghost var log: seq<Event>

    ghost predicate Valid()
      reads this, rxPayload, header
    {
      && rxPayload != header && header.Length == 5 && rxCapacity <= rxPayload.Length
      && View().Valid()
    }

    ghost function View(): Parser
      reads this, rxPayload, header
    {
      Parser(state, headerPos, header[..], rxPos, rxNextZero, rxPayload[..], rxCapacity)
    }

    constructor (buffer: array<byte>, bufferSize: byte)
      requires bufferSize <= buffer.Length
      ensures Valid() && rxPayload == buffer && rxCapacity == bufferSize
      ensures state == HUNT_SYNC && log == [] && fresh(header)
    {
      rxPayload := buffer;
      rxCapacity := bufferSize;
      rxPos, rxNextZero, headerPos := 0, 0, 0;
      state := HUNT_SYNC;
      header := new byte[5](_ => 0);
      log := [];
    }

    method Reset()
      modifies this`state, this`rxPos, this`headerPos
      ensures View() == old(View()).Reset()
    {
      state := HUNT_SYNC;
      rxPos := 0;
      headerPos := 0;
    }

    /** Encode in place: `payload[..payloadLen]` becomes its encoding and `header` goes in front of it. */
    method Encode(header: array<byte>, payload: array<byte>, serviceId: byte, payloadLen: byte) returns (err: Err)
      requires header.Length >= 5 && payloadLen <= payload.Length && header != payload
      modifies header, payload
      ensures payloadLen == 0 || serviceId == 0 ==>
        err == UNKNOWN && header[..] == old(header[..]) && payload[..] == old(payload[..])
      ensures payloadLen != 0 && serviceId != 0 ==>
        var p := old(payload[..payloadLen]);
        err == OK && header[..5] == Header(serviceId, p) && payload[..payloadLen] == Encoded(p) &&
        payload[payloadLen..] == old(payload[payloadLen..]) && header[5..] == old(header[5..]) &&
        Checks(header[4], header[1..4])
    {
      if payloadLen == 0 { return UNKNOWN; }
      if serviceId == 0 { return UNKNOWN; }
      header[0] := 0;
      header[1] := serviceId;
      header[2] := payloadLen;
      EliminateZeros(header, payload, payloadLen);
      var headerCrc := ChecksumOf(header);
      header[4] := headerCrc;
      CrcCovers(header[..]);
      assert header[..][1..4] == header[1..4];
      err := OK;
    }

    /** `crc8Calculate(&header[1], 3)`, with zero replaced by 0xFF. */
    method ChecksumOf(header: array<byte>) returns (crc: byte)
      requires header.Length >= 5
      ensures crc == HeaderCrc(header[1], header[2], header[3])
    {
      var covered := [header[1] as bv8, header[2] as bv8, header[3] as bv8];
      assert covered[..3] == covered;
      var c := Crc8Calculate(covered, 3);
      crc := if c == 0 then 0xFF else c as int;
    }

    /**
      The loop of encode: every zero is overwritten by the distance to the next, the first
      distance goes to header[3].
    */
    method EliminateZeros(header: array<byte>, payload: array<byte>, payloadLen: byte)
      requires header.Length >= 5 && payloadLen <= payload.Length && header != payload
      modifies header, payload
      ensures var p := old(payload[..payloadLen]);
              header[..] == old(header[..])[3 := FirstCode(p)] &&
              payload[..] == Encoded(p) + old(payload[payloadLen..])
    {
      ghost var p, was, head := payload[..payloadLen], payload[..], header[..];
      var nextZeroPos: int := -1;  // header + 3, or else an index into payload
      var zeroDistance: byte := 0;
      var i := 0;
      while i < payloadLen
        invariant 0 <= i <= payloadLen && -1 <= nextZeroPos < i && zeroDistance == i - 1 - nextZeroPos
        invariant Coded(p, was, payload[..], nextZeroPos, i)
        invariant header[..] == if nextZeroPos < 0 then head else head[3 := FirstCode(p)]
      {
        zeroDistance := zeroDistance + 1;
        if payload[i] == 0 {
          CodedZero(p, was, payload[..], nextZeroPos, i);
          WriteCode(header, payload, nextZeroPos, zeroDistance);
          nextZeroPos := i;
          zeroDistance := 0;
        } else {
          CodedPlain(p, was, payload[..], nextZeroPos, i);
        }
        i := i + 1;
      }
      CodedEnd(p, was, payload[..], nextZeroPos);
      WriteCode(header, payload, nextZeroPos, (zeroDistance + 1) % 0x100);
    }

    /** `*nextZeroPos = code` */
    method WriteCode(header: array<byte>, payload: array<byte>, pos: int, code: byte)
      requires header.Length >= 5 && header != payload && -1 <= pos < payload.Length
      modifies header, payload
      ensures header[..] == if pos < 0 then old(header[..])[3 := code] else old(header[..])
      ensures payload[..] == WithCode(old(payload[..]), pos, code)
    {
      if pos < 0 {
        header[3] := code;
      } else {
        payload[pos] := code;
      }
    }

    method Process(data: seq<byte>) returns (err: Err)
      requires Valid() && |data| < 0x1_0000
      modifies this, rxPayload, header
      ensures Valid() && err == OK
      ensures (View(), log) == var (p, events) := old(View()).Process(data); (p, old(log) + events)
    {
      var i := 0;
      while i < |data|
        invariant 0 <= i <= |data| && Valid()
        invariant var (p, events) := old(View()).Process(data);
                  var (q, later) := View().Process(data[i..]);
                  p == q && old(log) + events == log + later
      {
        assert data[i..][0] == data[i] && data[i..][1..] == data[i + 1..];
        ghost var before := log;
        ghost var now := View().Receive(data[i]).1;
        ghost var later := View().Receive(data[i]).0.Process(data[i + 1..]).1;
        ReceiveByte(data[i]);
        Associate(before, now, later);
        i := i + 1;
      }
      assert data[i..] == [];
      EmptyRight(log);
      err := OK;
    }

    method ReceiveByte(b: byte)
      requires Valid()
      modifies this, rxPayload, header
      ensures Valid()
      ensures (View(), log) == var (p, events) := old(View()).Receive(b); (p, old(log) + events)
    {
      EmptyRight(log);
      match state {
        case HUNT_SYNC =>
          if b == 0 {
            state := READ_HEADER;
            headerPos := 0;
            header[headerPos] := 0;
            headerPos := headerPos + 1;
          }
        case READ_HEADER =>
          ReceiveHeader(b);
        case READ_PAYLOAD =>
          if rxPos < header[2] {
            ReceivePayload(b);
          }
          if rxPos == header[2] {
            ghost var before := old(View()).ReceivePart(b).1;
            Associate(old(log), before, [OnFrame(header[1], rxPayload[..rxPos])]);
            Reset();
            var serviceId := header[1];
            var payloadLength := header[2];
            log := log + [OnFrame(serviceId, rxPayload[..payloadLength])];
          }
      }
    }

    method ReceiveHeader(b: byte)
      requires Valid() && state == READ_HEADER
      modifies this, header
      ensures Valid()
      ensures (View(), log) == var (p, events) := old(View()).ReceiveHeader(b); (p, old(log) + events)
    {
      EmptyRight(log);
      header[headerPos] := b;
      if headerPos == 4 {
        var crc8 := ChecksumOf(header);
        if crc8 != header[4] {
          Reset();
          log := log + [OnError(HEADER_CRC_MISMATCH)];
        }
        rxNextZero := header[3];
        state := READ_PAYLOAD;
        rxPos := 0;
      }
      headerPos := headerPos + 1;
    }

    method ReceivePayload(b: byte)
      requires Valid() && state == READ_PAYLOAD && rxPos < header[2]
      modifies this, rxPayload
      ensures Valid()
      ensures (View(), log) == var (p, events) := old(View()).ReceivePayload(b); (p, old(log) + events)
    {
      EmptyRight(log);
      Associate(log, [OnError(PAYLOAD_INCOMPLETE)], [OnError(RX_BUFFER_SMALL)]);
      assert [] + [OnError(RX_BUFFER_SMALL)] == [OnError(RX_BUFFER_SMALL)];
      if b == 0 {
        Reset();
        log := log + [OnError(PAYLOAD_INCOMPLETE)];
      }
      if rxPos < rxCapacity {
        if rxNextZero == 1 {
          rxPayload[rxPos] := 0;
          rxPos := rxPos + 1;
          rxNextZero := b;
        } else {
          rxPayload[rxPos] := b;
          rxPos := rxPos + 1;
          rxNextZero := (rxNextZero - 1) % 0x100;
        }
      } else {
        Reset();
        log := log + [OnError(RX_BUFFER_SMALL)];
      }
    }
  }

  /** The first zero from i on is the one found, or the end, when nothing before it is zero. */
  lemma FoundZero(p: seq<byte>, i: nat, z: nat)
    requires i <= z <= |p| && (z < |p| ==> p[z] == 0) && forall j :: i <= j < z ==> p[j] != 0
    ensures NextZero(p, i) == z
  {
  }
}

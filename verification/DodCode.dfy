/**
  The sample code of fdlib/middleware/DAQCodec.h: wrapping delta-of-delta residuals,
  zigzag, and the 1/2/3-byte prefix code with the byte-level parser that undoes it.

  The writer gives a two-byte code to every zigzag value from 239 up, starting with
  byte 240 + high_bits, but the parser only takes bytes above 240 as such a prefix
  (lines 166-169 and 441). So the code round-trips exactly when no zigzag value lies
  in 239..255: `ParseExactly`.
*/
module DodCode {
  import opened Words

  const VIRTUAL_BITS_START := 240
  const VIRTUAL_BITS_END := 247
  const LARGE16_ESCAPE := 0xFE

  /** `dod_state`: the last sample and the last difference of one channel. */
  datatype ChannelState = ChannelState(sample: i16, delta: i16)

  type Frame = seq<i16>

  /** Which of the two kinds of segment readNext hands out. */
  datatype StreamType = Control | Samples

  const RESYNCDOD: byte := 0xFF
  const FLUSH: byte := 0xFE

  function SamplesOf(ccs: seq<ChannelState>): (f: Frame)
    ensures |f| == |ccs|
  {
    seq(|ccs|, i requires 0 <= i < |ccs| => ccs[i].sample)
  }

  function Advance(cs: ChannelState, sample: i16): ChannelState {
    ChannelState(sample, ToI16(sample - cs.sample))
  }

  /** `dod_encode` */
  function Residual(cs: ChannelState, sample: i16): i16 {
    ToI16(ToI16(sample - cs.sample) - cs.delta)
  }

  /** `dod_decode`; the sample returned is the `sample` of the new state. */
  function Restore(cs: ChannelState, dod: i16): ChannelState {
    var delta := ToI16(dod + cs.delta);
    ChannelState(ToI16(delta + cs.sample), delta)
  }

  lemma AddBack(x: i16, d: i16)
    ensures ToI16(ToI16(x - d) + d) == x
  {
  }

  lemma RestoreDelta(cs: ChannelState, delta: i16)
    ensures Restore(cs, ToI16(delta - cs.delta)) == ChannelState(ToI16(delta + cs.sample), delta)
  {
    AddBack(delta, cs.delta);
  }

  /** Decoding undoes encoding for all samples and all states: both sides wrap alike. */
  lemma RestoreResidual(cs: ChannelState, sample: i16)
    ensures Restore(cs, Residual(cs, sample)) == Advance(cs, sample)
  {
    RestoreDelta(cs, ToI16(sample - cs.sample));
    AddBack(sample, cs.sample);
  }

  lemma AddInjective(a: i16, b: i16, c: i16)
    requires ToI16(a + c) == ToI16(b + c)
    ensures a == b
  {
  }

  lemma RestoreInjective(cs: ChannelState, d: i16, e: i16)
    requires Restore(cs, d).sample == Restore(cs, e).sample
    ensures d == e
  {
    AddInjective(ToI16(d + cs.delta), ToI16(e + cs.delta), cs.sample);
    AddInjective(d, e, cs.delta);
  }

  /** |dod| as a `uint16_t`: 32768 for the most negative residual. */
  function Magnitude(dod: i16): u16 {
    if dod < 0 then -(dod as int) else dod
  }

  /** The value the writer splits into bytes: twice the magnitude, less one when negative. */
  function Zigzag(dod: i16): u16 {
    var sign := if dod < 0 then 1 else 0;
    2 * Magnitude(dod) - sign
  }

  function Unzigzag(val: u16): i16 {
    if val % 2 == 1 then -(val / 2) - 1 else val / 2
  }

  lemma UnzigzagZigzag(dod: i16)
    ensures Unzigzag(Zigzag(dod)) == dod
  {
  }

  /** The residuals the prefix code carries faithfully; a caller can test this before a push. */
  predicate Codable(dod: i16) {
    !(239 <= Zigzag(dod) <= 255)
  }

  /** What pushSample writes for one residual. */
  function Code(dod: i16): (bytes: seq<byte>)
    ensures 1 <= |bytes| <= 3
  {
    var mag := Magnitude(dod);
    var zz := Zigzag(dod);
    if mag < VIRTUAL_BITS_START / 2 then
      [zz]
    else if zz / 0x100 < 8 then
      [VIRTUAL_BITS_START + zz / 0x100, zz % 0x100]
    else
      [LARGE16_ESCAPE, zz / 0x100, zz % 0x100]
  }

  function Codes(dods: seq<i16>): (bytes: seq<byte>)
    ensures |bytes| <= 3 * |dods|
  {
    if dods == [] then [] else Code(dods[0]) + Codes(dods[1..])
  }

  lemma {:induction false} CodesConcat(xs: seq<i16>, ys: seq<i16>)
    ensures Codes(xs + ys) == Codes(xs) + Codes(ys)
  {
    if xs == [] {
      assert xs + ys == ys;
    } else {
      assert (xs + ys)[0] == xs[0] && (xs + ys)[1..] == xs[1..] + ys;
      CodesConcat(xs[1..], ys);
    }
  }

  datatype ReaderState = Sample | DOD | LARGE16 | VIRTUALBITS

  /** The part of the reader that turns bytes into residuals. */
  datatype Parser = Parser(state: ReaderState, rem: byte, scratch: seq<byte>)
  {
    predicate WellFormed() {
      && |scratch| == 64
      && (state == LARGE16 ==> 1 <= rem <= 2)
      && (state == VIRTUALBITS ==> rem == 1)
    }

    /**
      decodeDod, decodeLarge16 and decodeVirtualBits on one byte: the parser after it, and the
      residual it completes.
    */
    function Parse(b: byte): (r: (Parser, Option<i16>))
      requires WellFormed()
      ensures r.0.WellFormed()
    {
      match state
      case DOD =>
        if b > VIRTUAL_BITS_END then
          (if b == LARGE16_ESCAPE then this.(state := LARGE16, rem := 2) else this, None)
        else if b > VIRTUAL_BITS_START then
          (Parser(VIRTUALBITS, 1, scratch[0 := b - VIRTUAL_BITS_START]), None)
        else
          (this, Some(Unzigzag(b)))
      case LARGE16 =>
        var s := scratch[2 - rem := b];
        if rem == 1 then (Parser(DOD, 0, s), Some(Unzigzag(Word(s[0], s[1]))))
        else (Parser(LARGE16, rem - 1, s), None)
      case VIRTUALBITS =>
        var s := scratch[1 := b];
        (Parser(DOD, 0, s), Some(Unzigzag(Word(s[0], s[1]))))
      case Sample => (this, None)
    }

    function ParseAll(bytes: seq<byte>): (r: (Parser, seq<i16>))
      requires WellFormed()
      ensures r.0.WellFormed()
      decreases |bytes|
    {
      if bytes == [] then (this, [])
      else
        var (p, dod) := Parse(bytes[0]);
        var (q, dods) := p.ParseAll(bytes[1..]);
        (q, ToSeq(dod) + dods)
    }
  }

  function ToSeq<T>(o: Option<T>): seq<T> {
    match o
    case None => []
    case Some(x) => [x]
  }

  /** The parser may be stopped between any two bytes. */
  lemma {:induction false} ParseConcat(p: Parser, xs: seq<byte>, ys: seq<byte>)
    requires p.WellFormed()
    ensures p.ParseAll(xs + ys) ==
            (p.ParseAll(xs).0.ParseAll(ys).0, p.ParseAll(xs).1 + p.ParseAll(xs).0.ParseAll(ys).1)
    decreases |xs|
  {
    if xs == [] {
      assert xs + ys == ys;
      assert [] + p.ParseAll(ys).1 == p.ParseAll(ys).1;
    } else {
      assert (xs + ys)[0] == xs[0] && (xs + ys)[1..] == xs[1..] + ys;
      ParseConcat(p.Parse(xs[0]).0, xs[1..], ys);
      assert ToSeq(p.Parse(xs[0]).1) + (p.Parse(xs[0]).0.ParseAll(xs[1..]).1 + p.ParseAll(xs).0.ParseAll(ys).1)
          == p.ParseAll(xs).1 + p.ParseAll(xs).0.ParseAll(ys).1;
    }
  }

  lemma ParseOne(p: Parser, b: byte)
    requires p.WellFormed()
    ensures p.ParseAll([b]) == (p.Parse(b).0, ToSeq(p.Parse(b).1))
  {
    assert [b][1..] == [];
    assert ToSeq(p.Parse(b).1) + [] == ToSeq(p.Parse(b).1);
  }

  lemma ParseTwo(p: Parser, b: byte, c: byte)
    requires p.WellFormed()
    ensures var (q, d) := p.Parse(b); p.ParseAll([b, c]) == (q.Parse(c).0, ToSeq(d) + ToSeq(q.Parse(c).1))
  {
    ParseOne(p.Parse(b).0, c);
    assert [b, c][1..] == [c];
  }

  /** One codable residual comes back as itself and the parser is idle again. */
  lemma ParseCode(p: Parser, dod: i16)
    requires p.WellFormed() && p.state == DOD
    requires Codable(dod)
    ensures p.ParseAll(Code(dod)).0.state == DOD
    ensures p.ParseAll(Code(dod)).1 == [dod]
  {
    UnzigzagZigzag(dod);
    var code := Code(dod);
    var zz := Zigzag(dod);
    if |code| == 1 {
      ParseOne(p, code[0]);
    } else if |code| == 2 {
      ParseTwo(p, code[0], code[1]);
      assert zz / 0x100 * 0x100 + zz % 0x100 == zz;
    } else {
      var q := p.Parse(code[0]).0;
      ParseTwo(q, code[1], code[2]);
      assert code[1..] == [code[1], code[2]];
      assert zz / 0x100 * 0x100 + zz % 0x100 == zz;
    }
  }

  /** An uncodable residual is read as 120 whatever it was; only for 120 itself does its second byte read as 120 too. */
  lemma ParseUncodable(p: Parser, dod: i16, rest: seq<byte>)
    requires p.WellFormed() && p.state == DOD
    requires !Codable(dod)
    ensures |p.ParseAll(Code(dod) + rest).1| > 0 && p.ParseAll(Code(dod) + rest).1[0] == 120
    ensures dod == 120 ==> p.ParseAll(Code(dod) + rest).1 == [120, 120] + p.ParseAll(rest).1
  {
    var zz := Zigzag(dod);
    assert Code(dod) == [240, zz];
    var bytes := Code(dod) + rest;
    assert bytes[0] == 240 && bytes[1..] == [zz] + rest;
    assert p.Parse(240) == (p, Some(120));
    if dod == 120 {
      assert ([zz] + rest)[1..] == rest;
      assert p.Parse(240 as byte) == (p, Some(120));
      assert p.ParseAll([zz] + rest).1 == [120] + p.ParseAll(rest).1;
    }
  }

  /** A concrete loss: the residual 120 is written as 240, 240 and read back as two residuals. */
  lemma LosesOneResidual(p: Parser)
    requires p.WellFormed() && p.state == DOD
    ensures Zigzag(120) == 240 && Code(120) == [240, 240] && p.ParseAll(Code(120)).1 == [120, 120]
  {
    ParseUncodable(p, 120, []);
    assert Code(120) + [] == Code(120);
    assert [120, 120] + p.ParseAll([]).1 == [120, 120];
  }

  /** A parser that is k residuals of 120 ahead of the writer never falls back in step. */
  lemma {:induction false} AheadStaysAhead(p: Parser, dods: seq<i16>, lead: seq<i16>)
    requires p.WellFormed() && p.state == DOD
    requires |lead| > 0 && forall i :: 0 <= i < |lead| ==> lead[i] == 120
    ensures lead + p.ParseAll(Codes(dods)).1 != dods
    decreases |dods|
  {
    if dods != [] && dods[0] == 120 {
      ParseUncodable(p, dods[0], Codes(dods[1..]));
      var rest := p.ParseAll(Codes(dods[1..])).1;
      AheadStaysAhead(p, dods[1..], lead + [120]);
      assert (lead + ([120, 120] + rest))[1..] == (lead + [120]) + rest;
    } else if dods != [] {
      assert (lead + p.ParseAll(Codes(dods)).1)[0] == 120;
    }
  }

  predicate AllCodable(dods: seq<i16>) {
    forall i :: 0 <= i < |dods| ==> Codable(dods[i])
  }

  /** The exact boundary of the code, for a stream of any length: every residual survives iff all are codable. */
  lemma {:induction false} ParseExactly(p: Parser, dods: seq<i16>)
    requires p.WellFormed() && p.state == DOD
    ensures p.ParseAll(Codes(dods)).1 == dods <==> AllCodable(dods)
    ensures AllCodable(dods) ==> p.ParseAll(Codes(dods)).0.state == DOD
    decreases |dods|
  {
    if dods != [] {
      var d, rest := dods[0], Codes(dods[1..]);
      if Codable(d) {
        ParseCode(p, d);
        var q := p.ParseAll(Code(d)).0;
        ParseConcat(p, Code(d), rest);
        ParseExactly(q, dods[1..]);
        assert p.ParseAll(Codes(dods)).1 == [d] + q.ParseAll(rest).1;
        assert dods == [d] + dods[1..];
        assert ([d] + q.ParseAll(rest).1)[1..] == q.ParseAll(rest).1;
        assert AllCodable(dods) <==> AllCodable(dods[1..]) by {
          assert forall i :: 0 < i < |dods| ==> dods[i] == dods[1..][i - 1];
        }
      } else {
        ParseUncodable(p, d, rest);
        if d == 120 {
          AheadStaysAhead(p, dods[1..], [120]);
          assert ([120, 120] + p.ParseAll(rest).1)[1..] == [120] + p.ParseAll(rest).1;
        }
      }
    }
  }
}

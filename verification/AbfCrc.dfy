/**
  The header checksum of fdlib/middleware/ABFStream.cpp (lines 7-39): CRC-8/AUTOSAR,
  polynomial 0x2F, initial value and final XOR 0xFF (section 7.2.1.2 of the AUTOSAR
  Specification of CRC Routines).

  `Crc8` is the bitwise definition. The table-driven loop of the source is proved equal
  to it, and a change of any one byte is proved to change the result.
*/
module AbfCrc {
  import opened Words

  /** One bit of polynomial division. */
  function Shift(c: bv8): bv8 {
    if c & 0x80 != 0 then (c << 1) ^ 0x2F else c << 1
  }

  function Shift8(c: bv8): bv8 {
    Shift(Shift(Shift(Shift(Shift(Shift(Shift(Shift(c))))))))
  }

  /** The shift register takes in a byte, one bit at a time. */
  function TakeByte(crc: bv8, b: bv8): bv8 {
    Shift8(crc ^ b)
  }

  function Fold<R, B>(step: (R, B) -> R, start: R, data: seq<B>): R {
    if data == [] then start
    else step(Fold(step, start, data[..|data| - 1]), data[|data| - 1])
  }

  function Crc8(data: seq<bv8>): bv8 {
    Fold(TakeByte, 0xFF, data) ^ 0xFF
  }

  // CRC8_AUTOSAR_LUT, line by line: sixteen entries each, looked up by the low four bits.

  function Line0(k: bv8): bv8 {
    match k & 15
    case 0 => 0x00 case 1 => 0x2F case 2 => 0x5E case 3 => 0x71
    case 4 => 0xBC case 5 => 0x93 case 6 => 0xE2 case 7 => 0xCD
    case 8 => 0x57 case 9 => 0x78 case 10 => 0x09 case 11 => 0x26
    case 12 => 0xEB case 13 => 0xC4 case 14 => 0xB5 case _ => 0x9A
  }

  function Line1(k: bv8): bv8 {
    match k & 15
    case 0 => 0xAE case 1 => 0x81 case 2 => 0xF0 case 3 => 0xDF
    case 4 => 0x12 case 5 => 0x3D case 6 => 0x4C case 7 => 0x63
    case 8 => 0xF9 case 9 => 0xD6 case 10 => 0xA7 case 11 => 0x88
    case 12 => 0x45 case 13 => 0x6A case 14 => 0x1B case _ => 0x34
  }

  function Line2(k: bv8): bv8 {
    match k & 15
    case 0 => 0x73 case 1 => 0x5C case 2 => 0x2D case 3 => 0x02
    case 4 => 0xCF case 5 => 0xE0 case 6 => 0x91 case 7 => 0xBE
    case 8 => 0x24 case 9 => 0x0B case 10 => 0x7A case 11 => 0x55
    case 12 => 0x98 case 13 => 0xB7 case 14 => 0xC6 case _ => 0xE9
  }

  function Line3(k: bv8): bv8 {
    match k & 15
    case 0 => 0xDD case 1 => 0xF2 case 2 => 0x83 case 3 => 0xAC
    case 4 => 0x61 case 5 => 0x4E case 6 => 0x3F case 7 => 0x10
    case 8 => 0x8A case 9 => 0xA5 case 10 => 0xD4 case 11 => 0xFB
    case 12 => 0x36 case 13 => 0x19 case 14 => 0x68 case _ => 0x47
  }

  function Line4(k: bv8): bv8 {
    match k & 15
    case 0 => 0xE6 case 1 => 0xC9 case 2 => 0xB8 case 3 => 0x97
    case 4 => 0x5A case 5 => 0x75 case 6 => 0x04 case 7 => 0x2B
    case 8 => 0xB1 case 9 => 0x9E case 10 => 0xEF case 11 => 0xC0
    case 12 => 0x0D case 13 => 0x22 case 14 => 0x53 case _ => 0x7C
  }

  function Line5(k: bv8): bv8 {
    match k & 15
    case 0 => 0x48 case 1 => 0x67 case 2 => 0x16 case 3 => 0x39
    case 4 => 0xF4 case 5 => 0xDB case 6 => 0xAA case 7 => 0x85
    case 8 => 0x1F case 9 => 0x30 case 10 => 0x41 case 11 => 0x6E
    case 12 => 0xA3 case 13 => 0x8C case 14 => 0xFD case _ => 0xD2
  }

  function Line6(k: bv8): bv8 {
    match k & 15
    case 0 => 0x95 case 1 => 0xBA case 2 => 0xCB case 3 => 0xE4
    case 4 => 0x29 case 5 => 0x06 case 6 => 0x77 case 7 => 0x58
    case 8 => 0xC2 case 9 => 0xED case 10 => 0x9C case 11 => 0xB3
    case 12 => 0x7E case 13 => 0x51 case 14 => 0x20 case _ => 0x0F
  }

  function Line7(k: bv8): bv8 {
    match k & 15
    case 0 => 0x3B case 1 => 0x14 case 2 => 0x65 case 3 => 0x4A
    case 4 => 0x87 case 5 => 0xA8 case 6 => 0xD9 case 7 => 0xF6
    case 8 => 0x6C case 9 => 0x43 case 10 => 0x32 case 11 => 0x1D
    case 12 => 0xD0 case 13 => 0xFF case 14 => 0x8E case _ => 0xA1
  }

  function Line8(k: bv8): bv8 {
    match k & 15
    case 0 => 0xE3 case 1 => 0xCC case 2 => 0xBD case 3 => 0x92
    case 4 => 0x5F case 5 => 0x70 case 6 => 0x01 case 7 => 0x2E
    case 8 => 0xB4 case 9 => 0x9B case 10 => 0xEA case 11 => 0xC5
    case 12 => 0x08 case 13 => 0x27 case 14 => 0x56 case _ => 0x79
  }

  function Line9(k: bv8): bv8 {
    match k & 15
    case 0 => 0x4D case 1 => 0x62 case 2 => 0x13 case 3 => 0x3C
    case 4 => 0xF1 case 5 => 0xDE case 6 => 0xAF case 7 => 0x80
    case 8 => 0x1A case 9 => 0x35 case 10 => 0x44 case 11 => 0x6B
    case 12 => 0xA6 case 13 => 0x89 case 14 => 0xF8 case _ => 0xD7
  }

  function Line10(k: bv8): bv8 {
    match k & 15
    case 0 => 0x90 case 1 => 0xBF case 2 => 0xCE case 3 => 0xE1
    case 4 => 0x2C case 5 => 0x03 case 6 => 0x72 case 7 => 0x5D
    case 8 => 0xC7 case 9 => 0xE8 case 10 => 0x99 case 11 => 0xB6
    case 12 => 0x7B case 13 => 0x54 case 14 => 0x25 case _ => 0x0A
  }

  function Line11(k: bv8): bv8 {
    match k & 15
    case 0 => 0x3E case 1 => 0x11 case 2 => 0x60 case 3 => 0x4F
    case 4 => 0x82 case 5 => 0xAD case 6 => 0xDC case 7 => 0xF3
    case 8 => 0x69 case 9 => 0x46 case 10 => 0x37 case 11 => 0x18
    case 12 => 0xD5 case 13 => 0xFA case 14 => 0x8B case _ => 0xA4
  }

  function Line12(k: bv8): bv8 {
    match k & 15
    case 0 => 0x05 case 1 => 0x2A case 2 => 0x5B case 3 => 0x74
    case 4 => 0xB9 case 5 => 0x96 case 6 => 0xE7 case 7 => 0xC8
    case 8 => 0x52 case 9 => 0x7D case 10 => 0x0C case 11 => 0x23
    case 12 => 0xEE case 13 => 0xC1 case 14 => 0xB0 case _ => 0x9F
  }

  function Line13(k: bv8): bv8 {
    match k & 15
    case 0 => 0xAB case 1 => 0x84 case 2 => 0xF5 case 3 => 0xDA
    case 4 => 0x17 case 5 => 0x38 case 6 => 0x49 case 7 => 0x66
    case 8 => 0xFC case 9 => 0xD3 case 10 => 0xA2 case 11 => 0x8D
    case 12 => 0x40 case 13 => 0x6F case 14 => 0x1E case _ => 0x31
  }

  function Line14(k: bv8): bv8 {
    match k & 15
    case 0 => 0x76 case 1 => 0x59 case 2 => 0x28 case 3 => 0x07
    case 4 => 0xCA case 5 => 0xE5 case 6 => 0x94 case 7 => 0xBB
    case 8 => 0x21 case 9 => 0x0E case 10 => 0x7F case 11 => 0x50
    case 12 => 0x9D case 13 => 0xB2 case 14 => 0xC3 case _ => 0xEC
  }

  function Line15(k: bv8): bv8 {
    match k & 15
    case 0 => 0xD8 case 1 => 0xF7 case 2 => 0x86 case 3 => 0xA9
    case 4 => 0x64 case 5 => 0x4B case 6 => 0x3A case 7 => 0x15
    case 8 => 0x8F case 9 => 0xA0 case 10 => 0xD1 case 11 => 0xFE
    case 12 => 0x33 case 13 => 0x1C case 14 => 0x6D case _ => 0x42
  }

  function Table(x: bv8): bv8 {
    match x >> 4
    case 0 => Line0(x)
    case 1 => Line1(x)
    case 2 => Line2(x)
    case 3 => Line3(x)
    case 4 => Line4(x)
    case 5 => Line5(x)
    case 6 => Line6(x)
    case 7 => Line7(x)
    case 8 => Line8(x)
    case 9 => Line9(x)
    case 10 => Line10(x)
    case 11 => Line11(x)
    case 12 => Line12(x)
    case 13 => Line13(x)
    case 14 => Line14(x)
    case _ => Line15(x)
  }

  /** Every entry of the table is eight steps of the division. */
  lemma TableIsShift8(x: bv8)
    ensures Table(x) == Shift8(x)
  {
    match x >> 4 {
      case 0 => assert Line0(x) == Shift8(x);
      case 1 => assert Line1(x) == Shift8(x);
      case 2 => assert Line2(x) == Shift8(x);
      case 3 => assert Line3(x) == Shift8(x);
      case 4 => assert Line4(x) == Shift8(x);
      case 5 => assert Line5(x) == Shift8(x);
      case 6 => assert Line6(x) == Shift8(x);
      case 7 => assert Line7(x) == Shift8(x);
      case 8 => assert Line8(x) == Shift8(x);
      case 9 => assert Line9(x) == Shift8(x);
      case 10 => assert Line10(x) == Shift8(x);
      case 11 => assert Line11(x) == Shift8(x);
      case 12 => assert Line12(x) == Shift8(x);
      case 13 => assert Line13(x) == Shift8(x);
      case 14 => assert Line14(x) == Shift8(x);
      case _ => assert Line15(x) == Shift8(x);
    }
  }

  method LookUp(crc: bv8, b: bv8) returns (r: bv8)
    ensures r == TakeByte(crc, b)
  {
    r := Table(crc ^ b);
    TableIsShift8(crc ^ b);
  }

  lemma FoldSnoc<R, B>(step: (R, B) -> R, start: R, data: seq<B>, b: B)
    ensures Fold(step, start, data + [b]) == step(Fold(step, start, data), b)
  {
    assert (data + [b])[..|data|] == data;
  }

  lemma FoldPrefix<R, B>(step: (R, B) -> R, start: R, data: seq<B>, i: nat)
    requires i < |data|
    ensures Fold(step, start, data[..i + 1]) == step(Fold(step, start, data[..i]), data[i])
  {
    assert data[..i + 1] == data[..i] + [data[i]];
    FoldSnoc(step, start, data[..i], data[i]);
  }

  /** crc8Calculate: `len` is a `uint8_t`. */
  method Crc8Calculate(data: seq<bv8>, len: byte) returns (crc: bv8)
    requires len <= |data|
    ensures crc == Crc8(data[..len])
  {
    crc := 0xFF;
    var i := 0;
    while i < len
      invariant 0 <= i <= len
      invariant crc == Fold(TakeByte, 0xFF, data[..i])
    {
      FoldPrefix(TakeByte, 0xFF, data, i);
      crc := LookUp(crc, data[i]);
      i := i + 1;
    }
    crc := crc ^ 0xFF;
  }

  /** The division is invertible, because 0x2F has its low bit set. */
  lemma Shift8Injective(a: bv8, b: bv8)
    requires Shift8(a) == Shift8(b)
    ensures a == b
  {
  }

  ghost predicate KeepsApart<R(!new), B(!new)>(step: (R, B) -> R) {
    && (forall r, s, b :: r != s ==> step(r, b) != step(s, b))
    && (forall r, a, b :: a != b ==> step(r, a) != step(r, b))
  }

  lemma TakeByteKeepsApart()
    ensures KeepsApart(TakeByte)
  {
    forall r, s, b | TakeByte(r, b) == TakeByte(s, b)
      ensures r == s
    {
      Shift8Injective(r ^ b, s ^ b);
    }
    forall r, a, b | TakeByte(r, a) == TakeByte(r, b)
      ensures a == b
    {
      Shift8Injective(r ^ a, r ^ b);
    }
  }

  /** Two registers that differ before the same bytes differ after them. */
  lemma {:induction false} DifferenceStays<R(!new), B(!new)>(step: (R, B) -> R, start: R, a: seq<B>, b: seq<B>,
    rest: seq<B>)
    requires KeepsApart(step) && Fold(step, start, a) != Fold(step, start, b)
    ensures Fold(step, start, a + rest) != Fold(step, start, b + rest)
    decreases |rest|
  {
    if rest == [] {
      EmptyRight(a);
      EmptyRight(b);
    } else {
      var init, x := rest[..|rest| - 1], rest[|rest| - 1];
      DifferenceStays(step, start, a, b, init);
      Associate(a, init, [x]);
      Associate(b, init, [x]);
      assert rest == init + [x];
      FoldSnoc(step, start, a + init, x);
      FoldSnoc(step, start, b + init, x);
    }
  }

  lemma OneByteInFold<R(!new), B(!new)>(step: (R, B) -> R, start: R, before: seq<B>, a: B, b: B, after: seq<B>)
    requires KeepsApart(step) && a != b
    ensures Fold(step, start, before + [a] + after) != Fold(step, start, before + [b] + after)
  {
    FoldSnoc(step, start, before, a);
    FoldSnoc(step, start, before, b);
    DifferenceStays(step, start, before + [a], before + [b], after);
  }

  /** Changing any one byte of a message of any length changes its CRC. */
  lemma OneByteChanges(data: seq<bv8>, i: nat, b: bv8)
    requires i < |data| && data[i] != b
    ensures Crc8(data[i := b]) != Crc8(data)
  {
    assert data == data[..i] + [data[i]] + data[i + 1..] && data[i := b] == data[..i] + [b] + data[i + 1..];
    TakeByteKeepsApart();
    OneByteInFold(TakeByte, 0xFF, data[..i], data[i], b, data[i + 1..]);
    XorInjective(Fold(TakeByte, 0xFF, data[i := b]), Fold(TakeByte, 0xFF, data));
  }

  lemma XorInjective(a: bv8, b: bv8)
    ensures a ^ 0xFF == b ^ 0xFF ==> a == b
  {
  }

  /** The register after each character of "123456789". */
  lemma Registers()
    ensures TakeByte(0xFF, 0x31) == 0xB0 && TakeByte(0xB0, 0x32) == 0xBD && TakeByte(0xBD, 0x33) == 0x56
    ensures TakeByte(0x56, 0x34) == 0xCB && TakeByte(0xCB, 0x35) == 0x6D && TakeByte(0x6D, 0x36) == 0x6E
    ensures TakeByte(0x6E, 0x37) == 0x30 && TakeByte(0x30, 0x38) == 0x57 && TakeByte(0x57, 0x39) == 0x20
  {
  }

  /** A fold ends with the last of its registers. */
  lemma {:induction false} FoldTrace<R, B>(step: (R, B) -> R, data: seq<B>, r: seq<R>)
    requires |r| == |data| + 1 && forall i :: 0 <= i < |data| ==> step(r[i], data[i]) == r[i + 1]
    ensures Fold(step, r[0], data) == r[|data|]
    decreases |data|
  {
    if data != [] {
      FoldTrace(step, data[..|data| - 1], r[..|data|]);
    }
  }

  /** The check value the standard gives: the CRC of the nine characters "123456789". */
  lemma CheckValue(digits: seq<bv8>)
    requires digits == [0x31, 0x32, 0x33, 0x34, 0x35, 0x36, 0x37, 0x38, 0x39]
    ensures Crc8(digits) == 0xDF
  {
    Registers();
    var r: seq<bv8> := [0xFF, 0xB0, 0xBD, 0x56, 0xCB, 0x6D, 0x6E, 0x30, 0x57, 0x20];
    FoldTrace(TakeByte, digits, r);
  }

  /** Two messages that differ in one byte, with the sums 0x00 and 0xFF. */
  lemma SumsCollide(a: seq<bv8>, b: seq<bv8>)
    requires a == [10, 4, 1] && b == [75, 4, 1]
    ensures Crc8(a) == 0 && Crc8(b) == 0xFF
  {
    var r: seq<bv8> := [0xFF, 0x4B, 0x7C, 0xFF];
    var s: seq<bv8> := [0xFF, 0x82, 0x01, 0x00];
    FoldTrace(TakeByte, a, r);
    FoldTrace(TakeByte, b, s);
  }
}

/** Fixed-width integers of the firmware, as ranges of `int`; conversions wrap explicitly. */
module Words {

  type byte = x: int | 0 <= x < 0x100
  type u16 = x: int | 0 <= x < 0x1_0000
  type u32 = x: int | 0 <= x < 0x1_0000_0000
  type i16 = x: int | -0x8000 <= x < 0x8000

  datatype Option<+T> = None | Some(value: T)

  predicate IsQ31(x: int) {
    -0x8000_0000 <= x < 0x8000_0000
  }

  /** The value kept by a 32-bit signed integer. */
  function Q31(x: int): (q: int)
    ensures IsQ31(q) && (IsQ31(x) ==> q == x)
  {
    (x + 0x8000_0000) % 0x1_0000_0000 - 0x8000_0000
  }

  function Max(x: int, y: int): int {
    if x > y then x else y
  }

  function Min(x: int, y: int): int {
    if x < y then x else y
  }

  /** The value an `int16_t` holds after `x` is stored in it. */
  function ToI16(x: int): i16 {
    (x + 0x8000) % 0x1_0000 - 0x8000
  }

  /** The two bytes of an `int16_t`, high byte first. */
  function Hi(x: i16): byte {
    (x % 0x1_0000) / 0x100
  }

  function Lo(x: i16): byte {
    x % 0x100
  }

  function Word(hi: byte, lo: byte): u16 {
    hi * 0x100 + lo
  }

  function Join16(hi: byte, lo: byte): i16 {
    ToI16(Word(hi, lo))
  }

  lemma JoinSplit(x: i16)
    ensures Join16(Hi(x), Lo(x)) == x
  {
    assert x % 0x1_0000 == if x < 0 then x + 0x1_0000 else x;
  }

  /** The four bytes of a `uint32_t`, most significant first: shifts by 24, 16, 8 and 0. */
  function BigEndian32(x: u32): (b: seq<byte>)
    ensures |b| == 4
  {
    var by8 := x / 0x100;
    var by16 := by8 / 0x100;
    [by16 / 0x100, by16 % 0x100, by8 % 0x100, x % 0x100]
  }

  function FromBigEndian32(a: byte, b: byte, c: byte, d: byte): u32 {
    ((a * 0x100 + b) * 0x100 + c) * 0x100 + d
  }

  lemma BigEndianRoundTrip(x: u32)
    ensures var b := BigEndian32(x); FromBigEndian32(b[0], b[1], b[2], b[3]) == x
  {
    var by8 := x / 0x100;
    var by16 := by8 / 0x100;
    assert by16 / 0x100 * 0x100 + by16 % 0x100 == by16;
    assert by16 * 0x100 + by8 % 0x100 == by8;
  }

  lemma ModOnce(x: int, m: int)
    requires 0 < m
    ensures (x + m) % m == x % m
  {
    assert x + m == (x / m + 1) * m + x % m;
    ModUnique(x + m, x / m + 1, x % m, m);
  }

  lemma ModUnique(x: int, q: int, r: int, m: int)
    requires 0 < m && x == q * m + r && 0 <= r < m
    ensures x % m == r
  {
    var d := q - x / m;
    assert x == x / m * m + x % m;
    assert d * m == x % m - r;
    assert d >= 1 ==> d * m >= m;
    assert d <= -1 ==> d * m <= -m;
  }

  /** Eight bits hold a byte. */
  lemma ByteBack(a: byte)
    ensures (a as bv8) as int == a
  {
    assert a % 0x100 == a;
  }

  lemma Associate<T>(a: seq<T>, b: seq<T>, c: seq<T>)
    ensures a + b + c == a + (b + c)
  {
  }

  lemma EmptyRight<T>(a: seq<T>)
    ensures a + [] == a
  {
  }

  /** n * k by repeated addition: a product the solver takes as a symbol until `TimesIsProduct` is called. */
  function Times(n: int, k: int): int
    decreases if n < 0 then -n else n
  {
    if n == 0 then 0 else if n > 0 then Times(n - 1, k) + k else Times(n + 1, k) - k
  }

  lemma {:induction false} TimesIsProduct(n: int, k: int)
    ensures Times(n, k) == n * k
    decreases if n < 0 then -n else n
  {
    if n > 0 {
      TimesIsProduct(n - 1, k);
      assert n * k == (n - 1) * k + k;
    } else if n < 0 {
      TimesIsProduct(n + 1, k);
      assert n * k == (n + 1) * k - k;
    }
  }

  lemma TimesSplit(a: int, b: int, k: int)
    ensures Times(a + b, k) == Times(a, k) + Times(b, k) && Times(a - b, k) == Times(a, k) - Times(b, k)
  {
    TimesIsProduct(a, k);
    TimesIsProduct(b, k);
    TimesIsProduct(a + b, k);
    TimesIsProduct(a - b, k);
    assert (a + b) * k == a * k + b * k && (a - b) * k == a * k - b * k;
  }
}

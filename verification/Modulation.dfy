/**
  Two pieces of fixed-point arithmetic from ForgeDriveMC/PmsmControl/PmsmControlCore_Foc.cpp:
  the max-plus-min estimate of a vector's magnitude, and the scaling of a voltage vector
  that exceeds the modulation limit.
*/
module Modulation {
  import opened Words

  /** The filter coefficients, each a fraction of INT32_MAX cut to an integer. */
  const A0 := 0x7eff_ffff
  const A1 := 0x6bff_ffff
  const B0 := 0x17ff_ffff
  const B1 := 0x46ff_ffff

  const SQRT3_Q3P12 := 7094

  predicate IsI64(x: int) {
    -0x8000_0000_0000_0000 <= x < 0x8000_0000_0000_0000
  }

  function Abs(x: int): (r: int)
    ensures 0 <= r && (r == x || r == -x)
  {
    if x < 0 then -x else x
  }

  /** Both linear estimates, shifted right by 31. */
  function Z0(max: int, min: int): int {
    (A0 * max + B0 * min) / 0x8000_0000
  }

  function Z1(max: int, min: int): int {
    (A1 * max + B1 * min) / 0x8000_0000
  }

  /** The estimate as computed, from the larger and the smaller component. */
  function Estimate(max: int, min: int): int {
    Max(Z0(max, min), Z1(max, min))
  }

  /** The same with both linear estimates stored in 32 bits before they are compared, as the code does. */
  function Stored(max: int, min: int): (r: int)
    ensures IsQ31(r)
  {
    Max(Q31(Z0(max, min)), Q31(Z1(max, min)))
  }

  /** Both sums stay below 2^62: a caller can check this on the components. */
  predicate EstimateFits(max: int, min: int) {
    A0 * max + B0 * min < 0x4000_0000_0000_0000 && A1 * max + B1 * min < 0x4000_0000_0000_0000
  }

  /** The exact reach of the estimate: it survives the 32-bit stores exactly when both sums are below 2^62. */
  lemma StoredExactly(max: int, min: int)
    requires 0 <= min <= max < 0x8000_0000
    ensures Stored(max, min) == Estimate(max, min) <==> EstimateFits(max, min)
    ensures IsQ31(Estimate(max, min)) <==> EstimateFits(max, min)
  {
    Linear(max, min);
  }

  /** Neither sum stays below 2^62. */
  predicate BothWrap(max: int, min: int) {
    0x4000_0000_0000_0000 <= A0 * max + B0 * min && 0x4000_0000_0000_0000 <= A1 * max + B1 * min
  }

  /** The estimate comes out negative exactly when neither sum stays below 2^62. */
  lemma NegativeExactly(max: int, min: int)
    requires 0 <= min <= max < 0x8000_0000
    ensures Stored(max, min) < 0 <==> BothWrap(max, min)
  {
    Linear(max, min);
  }

  /** The longest vector comes out negative. */
  lemma LongestIsNegative()
    ensures !EstimateFits(0x7fff_ffff, 0x7fff_ffff) && Stored(0x7fff_ffff, 0x7fff_ffff) == -0x4d00_0004
  {
  }

  function Square(x: int): int {
    Times(x, x)
  }

  /**
    Within 1.2% of the length of the vector, on the squares: 16705/16384 above, 32041/32768
    below but for 3 counts of rounding.
  */
  predicate NearLength(r: int, x: int, y: int) {
    && 16384 * Square(r) <= 16705 * (Square(x) + Square(y))
    && 32041 * (Square(x) + Square(y)) <= 32768 * Square(r + 3)
  }

  /** The estimate for two signed components, before the stores. */
  function Magnitude(i1: int, i2: int): int {
    Estimate(Max(Abs(i1), Abs(i2)), Min(Abs(i1), Abs(i2)))
  }

  predicate MagnitudeFits(i1: int, i2: int) {
    EstimateFits(Max(Abs(i1), Abs(i2)), Min(Abs(i1), Abs(i2)))
  }

  /** What the code has. */
  function StoredMagnitude(i1: int, i2: int): (r: int)
    ensures IsQ31(r)
  {
    Stored(Max(Abs(i1), Abs(i2)), Min(Abs(i1), Abs(i2)))
  }

  /** maxa_minb_q31; negating the smallest 32-bit value is left to the caller to avoid. */
  method MaxaMinb(i1: int, i2: int) returns (r: int)
    requires IsQ31(i1) && IsQ31(i2) && -0x8000_0000 < i1 && -0x8000_0000 < i2
    ensures r == StoredMagnitude(i1, i2)
    ensures r == Magnitude(i1, i2) <==> MagnitudeFits(i1, i2)
    ensures MagnitudeFits(i1, i2) ==> 0 <= r && NearLength(r, i1, i2)
  {
    r := LargerEstimate(if i1 < 0 then -i1 else i1, if i2 < 0 then -i2 else i2);
    MagnitudeBounds(i1, i2);
  }

  /** The part of maxa_minb_q31 after both components have been made positive. */
  method LargerEstimate(a: int, b: int) returns (r: int)
    requires 0 <= a < 0x8000_0000 && 0 <= b < 0x8000_0000
    ensures r == Stored(Max(a, b), Min(a, b))
  {
    var max, min;
    if a > b {
      max, min := a, b;
    } else {
      max, min := b, a;
    }
    assert max == Max(a, b) && min == Min(a, b);
    Products(max, min);
    var z0 := Q31(Z0(max, min));
    var z1 := Q31(Z1(max, min));
    r := if z0 > z1 then z0 else z1;
  }

  lemma MagnitudeBounds(i1: int, i2: int)
    requires IsQ31(i1) && IsQ31(i2) && -0x8000_0000 < i1 && -0x8000_0000 < i2
    ensures StoredMagnitude(i1, i2) == Magnitude(i1, i2) <==> MagnitudeFits(i1, i2)
    ensures MagnitudeFits(i1, i2) ==> 0 <= StoredMagnitude(i1, i2) && NearLength(StoredMagnitude(i1, i2), i1, i2)
  {
    var max, min := Max(Abs(i1), Abs(i2)), Min(Abs(i1), Abs(i2));
    StoredExactly(max, min);
    EstimateBounds(max, min);
    EitherOrder(Magnitude(i1, i2), i1, i2);
  }

  /** The length does not depend on the signs or on the order of the components. */
  lemma EitherOrder(r: int, i1: int, i2: int)
    requires NearLength(r, Max(Abs(i1), Abs(i2)), Min(Abs(i1), Abs(i2)))
    ensures NearLength(r, i1, i2)
  {
    SameSquare(i1);
    SameSquare(i2);
  }

  lemma SameSquare(i: int)
    ensures Square(Abs(i)) == Square(i)
  {
    SquareIs(i);
    SquareIs(-i);
  }

  /** The sums stay far inside 64 bits. */
  lemma Products(max: int, min: int)
    requires 0 <= min <= max < 0x8000_0000
    ensures IsI64(A0 * max + B0 * min) && IsI64(A1 * max + B1 * min)
  {
  }

  /** Each linear estimate is below 127/128 max + 24/128 min (108/128, 71/128) by less than 3. */
  lemma Linear(max: int, min: int)
    requires 0 <= min <= max < 0x8000_0000
    ensures 0 <= 128 * Z0(max, min) <= 127 * max + 24 * min <= 128 * (Z0(max, min) + 3)
    ensures 0 <= 128 * Z1(max, min) <= 108 * max + 71 * min <= 128 * (Z1(max, min) + 3)
  {
  }

  lemma SquareIs(x: int)
    ensures Square(x) == x * x
  {
    TimesIsProduct(x, x);
  }

  /** The square of a linear form in squares and one product. */
  lemma SquareOfSum(p: int, q: int, x: int, y: int)
    ensures Square(p * x + q * y) == p * p * Square(x) + 2 * p * q * Times(x, y) + q * q * Square(y)
  {
    SquareIs(x);
    SquareIs(y);
    SquareIs(p * x + q * y);
    TimesIsProduct(x, y);
    Expand(p, q, x, y);
  }

  lemma Expand(p: int, q: int, x: int, y: int)
    ensures (p * x + q * y) * (p * x + q * y) == p * p * (x * x) + 2 * p * q * (x * y) + q * q * (y * y)
  {
    var a, b := p * x, q * y;
    assert (a + b) * (a + b) == a * a + 2 * (a * b) + b * b;
    assert a * a == p * p * (x * x) && b * b == q * q * (y * y) && a * b == p * q * (x * y);
  }

  lemma SquareNotNegative(x: int)
    ensures 0 <= Square(x)
  {
    SquareIs(x);
  }

  /** (px + qy)^2 <= (p^2 + q^2)(x^2 + y^2), for both pairs of coefficients: 16705 in either case. */
  lemma Upper(x: int, y: int)
    ensures Square(127 * x + 24 * y) <= 16705 * (Square(x) + Square(y))
    ensures Square(108 * x + 71 * y) <= 16705 * (Square(x) + Square(y))
  {
    SquareOfSum(127, 24, x, y);
    SquareOfSum(-24, 127, x, y);
    SquareNotNegative(-24 * x + 127 * y);
    SquareOfSum(108, 71, x, y);
    SquareOfSum(-71, 108, x, y);
    SquareNotNegative(-71 * x + 108 * y);
  }

  lemma ProductOrdered(a: int, x: int, y: int)
    requires 0 <= a && x <= y
    ensures Times(a, x) <= Times(a, y)
  {
    TimesIsProduct(a, x);
    TimesIsProduct(a, y);
    assert a * (y - x) >= 0;
  }

  lemma Symmetric(x: int, y: int)
    ensures Times(x, y) == Times(y, x)
  {
    TimesIsProduct(x, y);
    TimesIsProduct(y, x);
  }

  lemma ScaledProduct(a: int, k: int, x: int)
    ensures Times(a, k * x) == k * Times(a, x)
  {
    TimesIsProduct(a, k * x);
    TimesIsProduct(a, x);
  }

  /** Near the axis 127x + 24y is long enough. */
  lemma LowerNearAxis(x: int, y: int)
    requires 0 <= y <= x && 47 * y <= 19 * x
    ensures 32041 * (Square(x) + Square(y)) <= 2 * Square(127 * x + 24 * y)
  {
    SquareOfSum(127, 24, x, y);
    ProductOrdered(y, 47 * y, 19 * x);
    ProductOrdered(x, 47 * y, 19 * x);
    ScaledProduct(y, 47, y);
    ScaledProduct(y, 19, x);
    ScaledProduct(x, 47, y);
    ScaledProduct(x, 19, x);
    Symmetric(x, y);
    SquareNotNegative(x);
  }

  /** Near the diagonal 108x + 71y is, with equality on it. */
  lemma LowerNearDiagonal(x: int, y: int)
    requires 0 <= y <= x && 19 * x <= 47 * y
    ensures 32041 * (Square(x) + Square(y)) <= 2 * Square(108 * x + 71 * y)
  {
    SquareOfSum(108, 71, x, y);
    ProductOrdered(x - y, 8713 * x, 21959 * y);
    ScaledProduct(x - y, 8713, x);
    ScaledProduct(x - y, 21959, y);
    TimesSplit(x, y, x);
    TimesSplit(x, y, y);
    Symmetric(x, y);
  }

  lemma Ordered(a: int, b: int)
    requires 0 <= a <= b
    ensures Square(a) <= Square(b)
  {
    ProductOrdered(a, a, b);
    ProductOrdered(b, a, b);
    Symmetric(a, b);
  }

  lemma SquareScaled(k: int, x: int)
    ensures Square(k * x) == k * k * Square(x)
  {
    SquareIs(k * x);
    SquareIs(x);
    assert (k * x) * (k * x) == k * k * (x * x);
  }

  lemma UpperScaled(r: int, p: int, m: int)
    requires 0 <= 128 * r <= p && Square(p) <= 16705 * m
    ensures 16384 * Square(r) <= 16705 * m
  {
    Ordered(128 * r, p);
    SquareScaled(128, r);
  }

  lemma LowerScaled(r: int, p: int, m: int)
    requires 0 <= p <= 128 * (r + 3) && 32041 * m <= 2 * Square(p)
    ensures 32041 * m <= 32768 * Square(r + 3)
  {
    Ordered(p, 128 * (r + 3));
    SquareScaled(128, r + 3);
  }

  lemma EstimateBounds(max: int, min: int)
    requires 0 <= min <= max < 0x8000_0000
    ensures 0 <= Estimate(max, min) && NearLength(Estimate(max, min), max, min)
  {
    var r, m := Estimate(max, min), Square(max) + Square(min);
    Linear(max, min);
    Upper(max, min);
    UpperScaled(r, if Z0(max, min) > Z1(max, min) then 127 * max + 24 * min else 108 * max + 71 * min, m);
    if 47 * min <= 19 * max {
      LowerNearAxis(max, min);
      LowerScaled(r, 127 * max + 24 * min, m);
    } else {
      LowerNearDiagonal(max, min);
      LowerScaled(r, 108 * max + 71 * min, m);
    }
  }

  // ---------- overmodulation ----------

  /** C division: towards zero. */
  function Truncated(a: int, b: int): int
    requires b != 0
    decreases b < 0
  {
    if b < 0 then Truncated(-a, -b) else if a >= 0 then a / b else -(-a / b)
  }

  /** The bus voltage limit in the upper half of 32 bits. */
  function Volts(vbusLim: int): int {
    vbusLim / 0x1_0000
  }

  /** The modulation index in q3.12: the magnitude against the bus voltage limit. */
  function ModIndex(vmag: int, vbusLim: int): int
    requires Volts(vbusLim) != 0
  {
    Truncated(vmag / 0x1_0000 * SQRT3_Q3P12, Volts(vbusLim))
  }

  /** The index is the square root of 3 times magnitude over bus limit, in 4096ths and rounded down. */
  lemma IndexIsRatio(vmag: int, vbusLim: int)
    requires 0 <= vmag && 0x1_0000 <= vbusLim
    ensures SQRT3_Q3P12 * SQRT3_Q3P12 <= 3 * 4096 * 4096 < (SQRT3_Q3P12 + 1) * (SQRT3_Q3P12 + 1)
    ensures var m, mag, bus := ModIndex(vmag, vbusLim), vmag / 0x1_0000, vbusLim / 0x1_0000;
      0 <= m && Times(m, bus) <= SQRT3_Q3P12 * mag < Times(m + 1, bus)
  {
    var m, mag, bus := ModIndex(vmag, vbusLim), vmag / 0x1_0000, vbusLim / 0x1_0000;
    TimesIsProduct(m, bus);
    TimesIsProduct(m + 1, bus);
    Quotient(mag * SQRT3_Q3P12, bus);
  }

  lemma Quotient(x: int, m: int)
    requires 0 <= x && 0 < m
    ensures 0 <= x / m && x - m + 1 <= x / m * m <= x
  {
    assert x == x / m * m + x % m;
  }

  lemma FactorBelow(f: int, k: int, m: int)
    requires 0 < m && f * m < k * m
    ensures f < k
  {
    assert (f - k) * m == f * m - k * m;
    assert f >= k ==> (f - k) * m >= 0;
  }

  /** The factor both voltages are scaled by, in q12. */
  function Factor(modMax: int, m: int): (f: int)
    requires 0 <= modMax < m
    ensures 0 <= f < 0x1000
    ensures modMax * 0x1000 - (m - 1) <= f * m <= modMax * 0x1000
  {
    Quotient(modMax * 0x1000, m);
    FactorBelow(modMax * 0x1000 / m, 0x1000, m);
    modMax * 0x1000 / m
  }

  function Scaled(v: int, f: int): int {
    v / 0x1000 * f
  }

  /**
    What scaling by modMax / m leaves of a voltage: between the exact product and one short
    of it by the rounding of both divisions.
  */
  ghost predicate ScaledBy(v: int, r: int, modMax: int, m: int) {
    && (if v >= 0 then 0 <= r <= v else v - 4095 <= r <= 0)
    && Times(v - 4095, modMax) - (if v >= 0 then Times(v / 0x1000, m - 1) else 0) <= Times(r, m)
    && Times(r, m) <= Times(v, modMax) - (if v >= 0 then 0 else Times(v / 0x1000, m - 1))
  }

  lemma ScaledProducts(v: int, r: int, modMax: int, m: int)
    ensures Times(v - 4095, modMax) == (v - 4095) * modMax && Times(v, modMax) == v * modMax
    ensures Times(v / 0x1000, m - 1) == v / 0x1000 * (m - 1) && Times(r, m) == r * m
  {
    TimesIsProduct(v - 4095, modMax);
    TimesIsProduct(v, modMax);
    TimesIsProduct(v / 0x1000, m - 1);
    TimesIsProduct(r, m);
  }

  /** What a quantity above the limit must at least do: r is x scaled by modMax / m, or less. */
  ghost predicate Shrunk(r: int, x: int, modMax: int, m: int) {
    Times(r, m) <= Times(x, modMax)
  }

  lemma ShrunkProducts(r: int, x: int, modMax: int, m: int)
    ensures Shrunk(r, x, modMax, m) <==> r * m <= x * modMax
  {
    TimesIsProduct(r, m);
    TimesIsProduct(x, modMax);
  }

  lemma Between(q: int, lo: int, x: int, hi: int)
    requires lo <= x <= hi
    ensures q >= 0 ==> q * lo <= q * x <= q * hi
    ensures q <= 0 ==> q * hi <= q * x <= q * lo
  {
  }

  lemma Regroup(q: int, f: int, m: int, d: int)
    ensures q * f * m == q * (f * m) && q * (d - (m - 1)) == q * d - q * (m - 1)
  {
  }

  lemma SameProduct(q: int, modMax: int)
    ensures q * (modMax * 0x1000) == modMax * (0x1000 * q)
  {
  }

  lemma ScaleBounds(v: int, modMax: int, m: int)
    requires 0 <= modMax < m
    ensures ScaledBy(v, Scaled(v, Factor(modMax, m)), modMax, m)
  {
    var q, f := v / 0x1000, Factor(modMax, m);
    Regroup(q, f, m, modMax * 0x1000);
    SameProduct(q, modMax);
    Between(q, modMax * 0x1000 - (m - 1), f * m, modMax * 0x1000);
    Between(modMax, v - 4095, 0x1000 * q, v);
    Between(q, 0, f, 0x1000);
    ScaledProducts(v, q * f, modMax, m);
  }

  method ScaleOne(v: int, modMax: int, m: int) returns (r: int)
    requires IsQ31(v) && 0 <= modMax < m
    ensures r == Scaled(v, Factor(modMax, m)) && ScaledBy(v, r, modMax, m) && IsQ31(r)
  {
    ScaleBounds(v, modMax, m);
    Between(v / 0x1000, 0, Factor(modMax, m), 0xfff);
    r := v / 0x1000 * (modMax * 0x1000 / m);
  }

  /**
    The cross product of the vector before and after is what the 12 bits shifted out
    contribute: the direction is kept to within those.
  */
  ghost predicate SameDirection(vd: int, vq: int, vd1: int, vq1: int) {
    && Times(vd1, vq) - Times(vq1, vd) == Times(vd1, vq % 0x1000) - Times(vq1, vd % 0x1000)
    && -4095 * (Abs(vd1) + Abs(vq1)) <= Times(vd1, vq) - Times(vq1, vd) <= 4095 * (Abs(vd1) + Abs(vq1))
  }

  /**
    The index of the scaled vector is within the limit but for one count and the weight of
    two counts of the magnitude.
  */
  ghost predicate WithinLimit(vd1: int, vq1: int, vbusLim: int, modMax: int)
    requires 0 < Volts(vbusLim)
  {
    Times(ModIndex(Magnitude(vd1, vq1), vbusLim) - modMax - 1, Volts(vbusLim)) < 2 * SQRT3_Q3P12
  }

  /** The components of a vector whose estimate comes out negative. */
  predicate WrapsBoth(vd: int, vq: int) {
    BothWrap(Max(Abs(vd), Abs(vq)), Min(Abs(vd), Abs(vq)))
  }

  /**
    The clamp of Foc_pwmLoop: exactly when the modulation index is above the limit, both
    voltages are scaled by the quotient, each keeping its sign and staying within 32 bits.
    When the magnitude has survived its stores the result is within the limit and points
    the same way; when it has come out negative nothing is clamped.
  */
  method Clamp(vd: int, vq: int, vbusLim: int, modMax: int) returns (vd1: int, vq1: int)
    requires IsQ31(vd) && IsQ31(vq) && -0x8000_0000 < vd && -0x8000_0000 < vq && 0 <= modMax < 0x8000
    requires IsQ31(vbusLim) && Volts(vbusLim) != 0
    ensures var m := ModIndex(StoredMagnitude(vd, vq), vbusLim);
      if m > modMax then ScaledBy(vd, vd1, modMax, m) && ScaledBy(vq, vq1, modMax, m) && SameDirection(vd, vq, vd1, vq1)
      else vd1 == vd && vq1 == vq
    ensures IsQ31(vd1) && IsQ31(vq1)
    ensures 0 < Volts(vbusLim) && MagnitudeFits(vd, vq) ==> WithinLimit(vd1, vq1, vbusLim, modMax)
    ensures 0 < Volts(vbusLim) && WrapsBoth(vd, vq) ==> vd1 == vd && vq1 == vq
  {
    var vmag := MaxaMinb(vd, vq);
    var m := ModIndex(vmag, vbusLim);
    vd1, vq1 := vd, vq;
    if m > modMax {
      vd1 := ScaleOne(vd, modMax, m);
      vq1 := ScaleOne(vq, modMax, m);
      DirectionKept(vd, vq, Factor(modMax, m));
    }
    if 0 < Volts(vbusLim) {
      ClampReaches(vd, vq, vd1, vq1, modMax, m, vbusLim);
    }
  }

  /** What the clamp has done to the vector. */
  ghost predicate Clamped(vd: int, vq: int, vd1: int, vq1: int, modMax: int, m: int) {
    if m > modMax then ScaledBy(vd, vd1, modMax, m) && ScaledBy(vq, vq1, modMax, m) else vd1 == vd && vq1 == vq
  }

  lemma ClampReaches(vd: int, vq: int, vd1: int, vq1: int, modMax: int, m: int, vbusLim: int)
    requires IsQ31(vd) && IsQ31(vq) && -0x8000_0000 < vd && -0x8000_0000 < vq && IsQ31(vd1) && IsQ31(vq1)
    requires 0 < Volts(vbusLim) && 0 <= modMax && m == ModIndex(StoredMagnitude(vd, vq), vbusLim)
      && Clamped(vd, vq, vd1, vq1, modMax, m)
    ensures MagnitudeFits(vd, vq) ==> WithinLimit(vd1, vq1, vbusLim, modMax)
    ensures WrapsBoth(vd, vq) ==> m <= 0 && vd1 == vd && vq1 == vq
  {
    if MagnitudeFits(vd, vq) {
      if m > modMax {
        LimitReached(vd, vq, vd1, vq1, modMax, m, vbusLim);
      } else {
        MagnitudeBounds(vd, vq);
        Below(m - modMax - 1, Volts(vbusLim));
      }
    }
    if WrapsBoth(vd, vq) {
      NegativeNotClamped(vd, vq, vbusLim);
    }
  }

  /** A negative magnitude has no index above any limit. */
  lemma NegativeNotClamped(vd: int, vq: int, vbusLim: int)
    requires IsQ31(vd) && IsQ31(vq) && -0x8000_0000 < vd && -0x8000_0000 < vq && 0 < Volts(vbusLim)
    ensures StoredMagnitude(vd, vq) < 0 <==> WrapsBoth(vd, vq)
    ensures WrapsBoth(vd, vq) ==> ModIndex(StoredMagnitude(vd, vq), vbusLim) <= 0
  {
    NegativeExactly(Max(Abs(vd), Abs(vq)), Min(Abs(vd), Abs(vq)));
    if WrapsBoth(vd, vq) {
      NotNegativeQuotient(-(StoredMagnitude(vd, vq) / 0x1_0000 * SQRT3_Q3P12), Volts(vbusLim));
    }
  }

  lemma QuotientAtLeast(x: int, v: int, k: int)
    requires 0 < v && 0 <= k && k * v <= x
    ensures k <= x / v
  {
    Quotient(x, v);
    Cancel(k, x / v + 1, v);
  }

  /**
    The clamp is switched off for exactly the vectors both of whose sums reach 2^62: there,
    and only there, the magnitude is negative, and then nothing is clamped although the
    index of the true magnitude is at least 7094 for every bus limit.
  */
  lemma NegativeIsNotClamped(vd: int, vq: int, vbusLim: int)
    requires IsQ31(vd) && IsQ31(vq) && -0x8000_0000 < vd && -0x8000_0000 < vq && 0 < Volts(vbusLim) < 0x8000
    ensures StoredMagnitude(vd, vq) < 0 <==> WrapsBoth(vd, vq)
    ensures WrapsBoth(vd, vq) ==>
      ModIndex(StoredMagnitude(vd, vq), vbusLim) <= 0 && SQRT3_Q3P12 <= ModIndex(Magnitude(vd, vq), vbusLim)
  {
    NegativeNotClamped(vd, vq, vbusLim);
    if WrapsBoth(vd, vq) {
      var g := Magnitude(vd, vq) / 0x1_0000;
      Linear(Max(Abs(vd), Abs(vq)), Min(Abs(vd), Abs(vq)));
      assert 0x8000 <= g;
      QuotientAtLeast(g * SQRT3_Q3P12, Volts(vbusLim), SQRT3_Q3P12);
    }
  }

  /**
    The input of `LongestIsNegative`: with the greatest bus limit and the default limit of
    4095 it should be clamped, and is not.
  */
  lemma LongestIsNotClamped()
    ensures WrapsBoth(0x7fff_ffff, 0x7fff_ffff) && 7094 <= ModIndex(Magnitude(0x7fff_ffff, 0x7fff_ffff), 0x7fff_ffff)
    ensures ModIndex(StoredMagnitude(0x7fff_ffff, 0x7fff_ffff), 0x7fff_ffff) <= 0
  {
    LongestIsNegative();
    NegativeIsNotClamped(0x7fff_ffff, 0x7fff_ffff, 0x7fff_ffff);
  }

  lemma NotNegativeQuotient(a: int, b: int)
    requires 0 <= a && 0 < b
    ensures 0 <= a / b
  {
  }

  lemma Below(k: int, v: int)
    requires k < 0 && 0 <= v
    ensures Times(k, v) <= 0
  {
    TimesIsProduct(k, v);
    assert k * v <= 0;
  }

  lemma CrossTerm(a: int, r: int)
    requires 0 <= r < 0x1000
    ensures -4095 * Abs(a) <= a * r <= 4095 * Abs(a)
  {
    Between(a, 0, r, 4095);
  }

  lemma DirectionKept(vd: int, vq: int, f: int)
    ensures SameDirection(vd, vq, Scaled(vd, f), Scaled(vq, f))
  {
    var qd, qq, rd, rq := vd / 0x1000, vq / 0x1000, vd % 0x1000, vq % 0x1000;
    var a, b := qd * f, qq * f;
    assert a * vq == a * (0x1000 * qq) + a * rq;
    assert b * vd == b * (0x1000 * qd) + b * rd;
    Crossing(qd, qq, f);
    CrossTerm(a, rq);
    CrossTerm(b, rd);
    TimesIsProduct(a, vq);
    TimesIsProduct(b, vd);
    TimesIsProduct(a, rq);
    TimesIsProduct(b, rd);
  }

  lemma Crossing(x: int, y: int, f: int)
    ensures (x * f) * (0x1000 * y) == (y * f) * (0x1000 * x)
  {
    assert (x * f) * y == (y * f) * x;
  }

  // ---------- the scaled vector is within the limit ----------

  lemma NotSmaller(k: int, n: int, m: int)
    ensures 0 < m && k >= n ==> k * m >= n * m
  {
    if 0 < m && k >= n {
      assert (k - n) * m >= 0;
    }
  }

  lemma Cancel(k: int, n: int, m: int)
    requires 0 < m && k * m < n * m
    ensures k < n
  {
    NotSmaller(k, n, m);
  }

  /** a (b c) in any order. */
  lemma Reorder(a: int, b: int, c: int)
    ensures a * (b * c) == b * (a * c) && a * (b * c) == (a * b) * c && (a * b) * c == (a * c) * b
  {
  }

  lemma Spread(a: int, b: int, c: int)
    ensures (a + b) * c == a * c + b * c && c * (a + b) == c * a + c * b
  {
  }

  /** A component shrinks by modMax / m, but for the 12 bits shifted out. */
  lemma ComponentShrinks(v: int, r: int, modMax: int, m: int)
    requires 0 <= modMax < m && ScaledBy(v, r, modMax, m)
    ensures Shrunk(Abs(r), Abs(v) + 4095, modMax, m)
  {
    ScaledProducts(v, r, modMax, m);
    ShrunkProducts(Abs(r), Abs(v) + 4095, modMax, m);
    Between(v / 0x1000, 0, m - 1, m);
    assert (v - 4095) * modMax == v * modMax - 4095 * modMax;
    if v >= 0 {
      assert (v + 4095) * modMax == v * modMax + 4095 * modMax;
    } else {
      assert (-v + 4095) * modMax == -((v - 4095) * modMax);
      assert -r * m == -(r * m);
    }
  }

  /** More may be left of more. */
  lemma ShrunkLess(r: int, x: int, y: int, modMax: int, m: int)
    requires 0 <= modMax && Shrunk(r, x, modMax, m) && x <= y
    ensures Shrunk(r, y, modMax, m)
  {
    ShrunkProducts(r, x, modMax, m);
    ShrunkProducts(r, y, modMax, m);
    Between(modMax, x, x, y);
  }

  lemma ShrunkSmaller(r: int, s: int, x: int, modMax: int, m: int)
    requires 0 < m && Shrunk(r, x, modMax, m) && s <= r
    ensures Shrunk(s, x, modMax, m)
  {
    ShrunkProducts(r, x, modMax, m);
    ShrunkProducts(s, x, modMax, m);
    Between(m, s, s, r);
  }

  lemma Larger(a: int, b: int, x: int, y: int, modMax: int, m: int)
    requires 0 <= modMax && 0 < m && Shrunk(a, x + 4095, modMax, m) && Shrunk(b, y + 4095, modMax, m)
    ensures Shrunk(Max(a, b), Max(x, y) + 4095, modMax, m) && Shrunk(Min(a, b), Min(x, y) + 4095, modMax, m)
  {
    ShrunkLess(a, x + 4095, Max(x, y) + 4095, modMax, m);
    ShrunkLess(b, y + 4095, Max(x, y) + 4095, modMax, m);
    ShrunkSmaller(a, Min(a, b), x + 4095, modMax, m);
    ShrunkSmaller(b, Min(a, b), y + 4095, modMax, m);
  }

  /** The two terms of a linear estimate, each shrunk. */
  lemma TermsShrink(p: int, q: int, a: int, b: int, x: int, y: int, modMax: int, m: int)
    requires 0 <= p && 0 <= q && a * m <= (x + 4095) * modMax && b * m <= (y + 4095) * modMax
    ensures (p * a + q * b) * m <= (p * x + q * y + 4095 * (p + q)) * modMax
  {
    Spread(p * a, q * b, m);
    Reorder(p, a, m);
    Reorder(q, b, m);
    Between(p, a * m, a * m, (x + 4095) * modMax);
    Between(q, b * m, b * m, (y + 4095) * modMax);
    Reorder(p, x + 4095, modMax);
    Reorder(q, y + 4095, modMax);
    Spread(x, 4095, p);
    Spread(y, 4095, q);
    Spread(p * (x + 4095), q * (y + 4095), modMax);
  }

  lemma QuotientsShrink(t: int, t1: int, z: int, z1: int, slack: int, modMax: int, m: int)
    requires 0 <= modMax < m && slack <= 5733 * 0x8000_0000 && t1 * m <= (t + slack) * modMax
    requires 0x8000_0000 * z1 <= t1 && t < 0x8000_0000 * (z + 1)
    ensures z1 * m <= (z + 5734) * modMax
  {
    Between(m, 0x8000_0000 * z1, 0x8000_0000 * z1, t1);
    Between(modMax, t + slack, t + slack, 0x8000_0000 * (z + 5734));
    Reorder(m, 0x8000_0000, z1);
    Reorder(modMax, 0x8000_0000, z + 5734);
  }

  /** One linear estimate with coefficients p and q: t and t1 are its sums before and after. */
  lemma LinearShrinks(t: int, t1: int, slack: int, modMax: int, m: int)
    requires 0 <= modMax < m && slack <= 5733 * 0x8000_0000 && Shrunk(t1, t + slack, modMax, m)
    ensures Shrunk(t1 / 0x8000_0000, t / 0x8000_0000 + 5734, modMax, m)
  {
    var z, z1 := t / 0x8000_0000, t1 / 0x8000_0000;
    ShrunkProducts(t1, t + slack, modMax, m);
    QuotientsShrink(t, t1, z, z1, slack, modMax, m);
    ShrunkProducts(z1, z + 5734, modMax, m);
  }

  lemma MagnitudeShrinks(vd: int, vq: int, vd1: int, vq1: int, modMax: int, m: int)
    requires 0 <= modMax < m && ScaledBy(vd, vd1, modMax, m) && ScaledBy(vq, vq1, modMax, m)
    ensures Shrunk(Magnitude(vd1, vq1), Magnitude(vd, vq) + 5734, modMax, m)
  {
    ComponentShrinks(vd, vd1, modMax, m);
    ComponentShrinks(vq, vq1, modMax, m);
    Larger(Abs(vd1), Abs(vq1), Abs(vd), Abs(vq), modMax, m);
    EstimateShrinks(Max(Abs(vd), Abs(vq)), Min(Abs(vd), Abs(vq)), Max(Abs(vd1), Abs(vq1)), Min(Abs(vd1), Abs(vq1)),
      modMax, m);
  }

  lemma EstimateShrinks(x: int, y: int, a: int, b: int, modMax: int, m: int)
    requires 0 <= modMax < m && Shrunk(a, x + 4095, modMax, m) && Shrunk(b, y + 4095, modMax, m)
    ensures Shrunk(Estimate(a, b), Estimate(x, y) + 5734, modMax, m)
  {
    SumShrinks(A0, B0, x, y, a, b, modMax, m);
    SumShrinks(A1, B1, x, y, a, b, modMax, m);
    LinearShrinks(A0 * x + B0 * y, A0 * a + B0 * b, 4095 * (A0 + B0), modMax, m);
    LinearShrinks(A1 * x + B1 * y, A1 * a + B1 * b, 4095 * (A1 + B1), modMax, m);
    LargerShrinks(Z0(x, y), Z1(x, y), Z0(a, b), Z1(a, b), modMax, m);
  }

  lemma SumShrinks(p: int, q: int, x: int, y: int, a: int, b: int, modMax: int, m: int)
    requires 0 <= p && 0 <= q && Shrunk(a, x + 4095, modMax, m) && Shrunk(b, y + 4095, modMax, m)
    ensures Shrunk(p * a + q * b, p * x + q * y + 4095 * (p + q), modMax, m)
  {
    ShrunkProducts(a, x + 4095, modMax, m);
    ShrunkProducts(b, y + 4095, modMax, m);
    TermsShrink(p, q, a, b, x, y, modMax, m);
    ShrunkProducts(p * a + q * b, p * x + q * y + 4095 * (p + q), modMax, m);
  }

  lemma LargerShrinks(z0: int, z1: int, y0: int, y1: int, modMax: int, m: int)
    requires 0 <= modMax < m && Shrunk(y0, z0 + 5734, modMax, m) && Shrunk(y1, z1 + 5734, modMax, m)
    ensures Shrunk(Max(y0, y1), Max(z0, z1) + 5734, modMax, m)
  {
    ShrunkLess(y0, z0 + 5734, Max(z0, z1) + 5734, modMax, m);
    ShrunkLess(y1, z1 + 5734, Max(z0, z1) + 5734, modMax, m);
  }

  /** The upper halves shrink alike, but for two counts. */
  lemma UpperShrinks(e: int, e1: int, modMax: int, m: int)
    requires 0 <= modMax < m && 0 <= e && 0 <= e1 && Shrunk(e1, e + 5734, modMax, m)
    ensures Shrunk(e1 / 0x1_0000, e / 0x1_0000 + 2, modMax, m)
  {
    var g, g1 := e / 0x1_0000, e1 / 0x1_0000;
    ShrunkProducts(e1, e + 5734, modMax, m);
    ShrunkProducts(g1, g + 2, modMax, m);
    Between(m, 0x1_0000 * g1, 0x1_0000 * g1, e1);
    Between(modMax, e + 5734, e + 5734, 0x1_0000 * (g + 2));
    assert 0x1_0000 * (g1 * m) == 0x1_0000 * g1 * m;
    assert 0x1_0000 * ((g + 2) * modMax) == 0x1_0000 * (g + 2) * modMax;
  }

  lemma IndexShrinks(g: int, g1: int, v: int, modMax: int, m: int, m1: int)
    requires 0 <= modMax < m && 0 <= g && 0 <= g1 && 0 < v && Shrunk(g1, g + 2, modMax, m)
    requires m == g * SQRT3_Q3P12 / v && m1 == g1 * SQRT3_Q3P12 / v
    ensures Times(m1 - modMax - 1, v) < 2 * SQRT3_Q3P12
  {
    ShrunkProducts(g1, g + 2, modMax, m);
    TimesIsProduct(m1 - modMax - 1, v);
    Quotient(g * SQRT3_Q3P12, v);
    Quotient(g1 * SQRT3_Q3P12, v);
    IndexProduct(g, g1, v, modMax, m, m1);
    Reorder(m, v, modMax);
    ExcessSmall(m1 * v, v * modMax, m * v, modMax, m, v + 2 * SQRT3_Q3P12);
    Spread(m1 - modMax, -1, v);
    Spread(m1, -modMax, v);
  }

  /** From p m <= (mv + slack) modMax, where mv modMax is limit m. */
  lemma ExcessSmall(p: int, limit: int, mv: int, modMax: int, m: int, slack: int)
    requires 0 <= modMax < m && 0 < slack && mv * modMax == limit * m && p * m <= (mv + slack) * modMax
    ensures p - limit < slack
  {
    Spread(mv, slack, modMax);
    Between(slack, modMax, modMax, m - 1);
    Spread(m, -1, slack);
    Spread(p, -limit, m);
    Cancel(p - limit, slack, m);
  }

  /** m1 v m <= g1 s m <= (g + 2) s modMax <= (m v + v + 2 s) modMax. */
  lemma IndexProduct(g: int, g1: int, v: int, modMax: int, m: int, m1: int)
    requires 0 <= modMax < m && g1 * m <= (g + 2) * modMax
    requires m1 * v <= g1 * SQRT3_Q3P12 && g * SQRT3_Q3P12 <= m * v + v
    ensures (m1 * v) * m <= (m * v + (v + 2 * SQRT3_Q3P12)) * modMax
  {
    Between(m, m1 * v, m1 * v, g1 * SQRT3_Q3P12);
    Reorder(m, g1, SQRT3_Q3P12);
    Reorder(modMax, g + 2, SQRT3_Q3P12);
    Between(modMax, (g + 2) * SQRT3_Q3P12, (g + 2) * SQRT3_Q3P12, m * v + v + 2 * SQRT3_Q3P12);
  }

  lemma LimitReached(vd: int, vq: int, vd1: int, vq1: int, modMax: int, m: int, vbusLim: int)
    requires IsQ31(vd) && IsQ31(vq) && -0x8000_0000 < vd && -0x8000_0000 < vq && IsQ31(vd1) && IsQ31(vq1)
    requires 0 < Volts(vbusLim) && MagnitudeFits(vd, vq) && m == ModIndex(StoredMagnitude(vd, vq), vbusLim)
    requires 0 <= modMax < m && ScaledBy(vd, vd1, modMax, m) && ScaledBy(vq, vq1, modMax, m)
    ensures WithinLimit(vd1, vq1, vbusLim, modMax)
  {
    MagnitudeBounds(vd, vq);
    NotNegativeMagnitude(vd1, vq1);
    var e, e1 := Magnitude(vd, vq), Magnitude(vd1, vq1);
    MagnitudeShrinks(vd, vq, vd1, vq1, modMax, m);
    UpperShrinks(e, e1, modMax, m);
    IndexShrinks(e / 0x1_0000, e1 / 0x1_0000, Volts(vbusLim), modMax, m, ModIndex(e1, vbusLim));
  }

  lemma NotNegativeMagnitude(i1: int, i2: int)
    ensures 0 <= Magnitude(i1, i2)
  {
  }
}

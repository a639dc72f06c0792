/**
  Space-vector PWM of ForgeDriveMC/platform/host/fd_mc3p.cpp: two 16-bit coordinates to
  three phase duties, in integer arithmetic with arithmetic shifts.

  `WriteSvm` is the code with its locals and stores; the lemmas say what its numbers mean.
  A shift right is a division rounded down, and a 16-bit store keeps the low 16 bits.
*/
module SpaceVector {
  import opened Words

  const HALF := 16384
  const SQRT3_BY_2 := 28378

  /** The coefficient is the nearest there is to 32768 times half the square root of 3. */
  lemma CoefficientIsNearest()
    ensures (2 * SQRT3_BY_2 - 1) * (2 * SQRT3_BY_2 - 1) <= 3 * 32768 * 32768
    ensures 3 * 32768 * 32768 <= (2 * SQRT3_BY_2 + 1) * (2 * SQRT3_BY_2 + 1)
  {
  }

  predicate IsI16(x: int) {
    -0x8000 <= x < 0x8000
  }

  predicate IsI32(x: int) {
    -0x8000_0000 <= x < 0x8000_0000
  }

  /** SSAT(x, 16): the 16-bit value nearest to x. */
  function Saturate16(x: int): (r: int)
    ensures IsI16(r) && forall y :: IsI16(y) ==> (y <= x ==> y <= r) && (x <= y ==> r <= y)
  {
    if x > 0x7fff then 0x7fff else if x < -0x8000 then -0x8000 else x
  }

  function Shift15(x: int): int {
    x / 0x8000
  }

  datatype Triple = Triple(u: int, v: int, w: int)
  {
    function Highest(): int {
      Max(Max(u, v), w)
    }

    function Lowest(): int {
      Min(Min(u, v), w)
    }

    function Span(): int {
      Highest() - Lowest()
    }
  }

  /** The coordinates as phase values. */
  function Phases(alpha: int, beta: int): Triple {
    Triple(alpha, Shift15(-HALF * alpha + SQRT3_BY_2 * beta), Shift15(-HALF * alpha - SQRT3_BY_2 * beta))
  }

  datatype Sector = Float | Svm1 | Svm2 | Svm3 | Svm4 | Svm5 | Svm6

  /** By the signs of the phases; `Float` is the code's default for both impossible codes. */
  function SectorOf(p: Triple): Sector {
    match (p.u >= 0, p.v >= 0, p.w >= 0)
    case (true, false, false) => Svm1
    case (true, true, false) => Svm2
    case (false, true, false) => Svm3
    case (false, true, true) => Svm4
    case (false, false, true) => Svm5
    case (true, false, true) => Svm6
    case (_, _, _) => Float
  }

  /** The zero-sequence offset. */
  function Offset(p: Triple): int {
    (p.Highest() + p.Lowest()) / 2
  }

  function Centred(p: Triple): Triple {
    Triple(p.u - Offset(p) + HALF, p.v - Offset(p) + HALF, p.w - Offset(p) + HALF)
  }

  /** The duties as stored in 16 bits. */
  function Stored(p: Triple): Triple {
    Triple(ToI16(p.u), ToI16(p.v), ToI16(p.w))
  }

  // ---------- phases and sectors ----------

  lemma SumsFit(alpha: int, beta: int)
    requires IsI16(alpha) && IsI16(beta)
    ensures -0x5800_0000 <= -HALF * alpha + SQRT3_BY_2 * beta <= 0x5800_0000
    ensures -0x5800_0000 <= -HALF * alpha - SQRT3_BY_2 * beta <= 0x5800_0000
  {
  }

  /** No intermediate value leaves 32 bits. */
  lemma PhasesFit(alpha: int, beta: int)
    requires IsI16(alpha) && IsI16(beta)
    ensures IsI32(-HALF * alpha + SQRT3_BY_2 * beta) && IsI32(-HALF * alpha - SQRT3_BY_2 * beta)
    ensures var c := Centred(Phases(alpha, beta)); IsI32(c.u) && IsI32(c.v) && IsI32(c.w)
  {
    SumsFit(alpha, beta);
  }

  /** The phases sum to zero, up to the rounding of the two shifts. */
  lemma PhasesSum(alpha: int, beta: int)
    ensures var p := Phases(alpha, beta); p.u + p.v + p.w == 0 || p.u + p.v + p.w == -1
  {
    var x, y := -HALF * alpha + SQRT3_BY_2 * beta, -HALF * alpha - SQRT3_BY_2 * beta;
    assert x + y == -0x8000 * alpha;
    assert x == 0x8000 * Shift15(x) + x % 0x8000 && y == 0x8000 * Shift15(y) + y % 0x8000;
  }

  /** Only the zero vector leaves the phases floating; every other one is in one of the six sectors. */
  lemma FloatsExactlyAtZero(alpha: int, beta: int)
    ensures SectorOf(Phases(alpha, beta)) == Float <==> alpha == 0 && beta == 0
  {
    PhasesSum(alpha, beta);
  }

  /** Rounding the phases never moves a vector to another sector: the exact projections have the same signs. */
  lemma SectorIsExact(alpha: int, beta: int)
    ensures SectorOf(Phases(alpha, beta)) ==
      SectorOf(Triple(alpha, -HALF * alpha + SQRT3_BY_2 * beta, -HALF * alpha - SQRT3_BY_2 * beta))
  {
  }

  /** The angle of a sector's middle, in steps of 60 degrees. */
  function Middle(s: Sector): int
    requires s != Float
  {
    match s
    case Svm1 => 0
    case Svm2 => 1
    case Svm3 => 2
    case Svm4 => 3
    case Svm5 => 4
    case Svm6 => 5
  }

  /** Twice the projection of a vector on the direction of k steps of 60 degrees, in units of 1/32768. */
  function Along(k: int, alpha: int, beta: int): int {
    if k == 0 then 65536 * alpha
    else if k == 1 then 32768 * alpha + 2 * SQRT3_BY_2 * beta
    else if k == 2 then -32768 * alpha + 2 * SQRT3_BY_2 * beta
    else if k == 3 then -65536 * alpha
    else if k == 4 then -32768 * alpha - 2 * SQRT3_BY_2 * beta
    else 32768 * alpha - 2 * SQRT3_BY_2 * beta
  }

  /** A vector is in the sector whose middle it points along most. */
  lemma SectorIsNearest(alpha: int, beta: int, k: int)
    requires 0 <= k < 6 && (alpha != 0 || beta != 0)
    ensures var s := SectorOf(Phases(alpha, beta)); s != Float && Along(k, alpha, beta) <= Along(Middle(s), alpha, beta)
  {
    SectorIsExact(alpha, beta);
  }

  function Opposite(s: Sector): Sector {
    match s
    case Float => Float
    case Svm1 => Svm4
    case Svm2 => Svm5
    case Svm3 => Svm6
    case Svm4 => Svm1
    case Svm5 => Svm2
    case Svm6 => Svm3
  }

  /** Half a turn leads to the opposite sector, except from a line between two sectors. */
  lemma HalfTurn(alpha: int, beta: int)
    requires alpha != 0 && HALF * alpha != SQRT3_BY_2 * beta && HALF * alpha != -SQRT3_BY_2 * beta
    ensures SectorOf(Phases(-alpha, -beta)) == Opposite(SectorOf(Phases(alpha, beta)))
  {
    SectorIsExact(alpha, beta);
    SectorIsExact(-alpha, -beta);
    PhasesSum(alpha, beta);
  }

  // ---------- zero-sequence injection ----------

  /** All line-to-line values are kept, and the duties are centred on one half to within one count. */
  lemma InjectionKeepsLines(p: Triple)
    ensures var c := Centred(p);
      && c.u - c.v == p.u - p.v && c.v - c.w == p.v - p.w && c.w - c.u == p.w - p.u
      && (c.Highest() + c.Lowest() == 2 * HALF || c.Highest() + c.Lowest() == 2 * HALF + 1)
  {
  }

  /** Storing the duties in 16 bits loses nothing exactly when the phases span at most 32766. */
  lemma StoreIsExact(p: Triple)
    ensures Stored(Centred(p)) == Centred(p) <==> p.Span() <= 0x7ffe
    ensures p.Span() <= 0x7ffe ==> var c := Centred(p); 0 < c.Lowest() && c.Highest() <= 0x7fff
  {
    var c := Centred(p);
    InjectionKeepsLines(p);
    KeptWhenInRange(c.u);
    KeptWhenInRange(c.v);
    KeptWhenInRange(c.w);
    SpanCentred(p);
    assert Stored(c) == c <==> IsI16(c.u) && IsI16(c.v) && IsI16(c.w);
  }

  lemma SpanCentred(p: Triple)
    ensures var c := Centred(p);
      c.Span() == p.Span() && (IsI16(c.u) && IsI16(c.v) && IsI16(c.w) <==> p.Span() <= 0x7ffe)
  {
    InjectionKeepsLines(p);
  }

  lemma KeptWhenInRange(x: int)
    ensures ToI16(x) == x <==> IsI16(x)
  {
  }

  lemma Square(a: int, b: int)
    ensures (a + b) * (a + b) == a * a + 2 * (a * b) + b * b
    ensures (a - b) * (a - b) == a * a - 2 * (a * b) + b * b
  {
  }

  lemma Crossed(p: int, q: int, a: int, b: int)
    ensures (p * a) * (q * b) == (p * b) * (q * a)
    ensures (p * a) * (p * a) == (p * p) * (a * a) && (q * b) * (q * b) == (q * q) * (b * b)
    ensures (p * b) * (p * b) == (p * p) * (b * b) && (q * a) * (q * a) == (q * q) * (a * a)
  {
    Regroup(p, a, q, b);
    Regroup(p, b, q, a);
    Regroup(p, a, p, a);
    Regroup(q, b, q, b);
    Regroup(p, b, p, b);
    Regroup(q, a, q, a);
    assert (p * q) * (a * b) == (p * q) * (b * a);
  }

  lemma Regroup(a: int, b: int, c: int, d: int)
    ensures (a * b) * (c * d) == (a * c) * (b * d)
  {
    assert (a * b) * (c * d) == a * (b * (c * d)) == a * (c * (b * d)) == (a * c) * (b * d);
  }

  lemma Spread(m: int, n: int, x: int, y: int)
    ensures (m + n) * (x + y) == m * x + m * y + n * x + n * y
  {
  }

  /** (pa + qb)^2 <= (p^2 + q^2)(a^2 + b^2). */
  lemma CauchySchwarz(p: int, q: int, a: int, b: int)
    ensures (p * a + q * b) * (p * a + q * b) <= (p * p + q * q) * (a * a + b * b)
  {
    Square(p * a, q * b);
    Square(p * b, q * a);
    Crossed(p, q, a, b);
    Spread(p * p, q * q, a * a, b * b);
    Positive(p * b - q * a);
  }

  lemma Positive(x: int)
    ensures x * x >= 0
  {
  }

  lemma Monotone(m: int, a: int, b: int)
    requires 0 <= m && a <= b
    ensures m * a <= m * b
  {
  }

  lemma Bigger(x: int, k: int)
    ensures x > k >= 0 ==> x * x >= (k + 1) * (k + 1)
  {
    if x > k >= 0 {
      assert x * x >= (k + 1) * x >= (k + 1) * (k + 1);
    }
  }

  lemma Root(x: int, k: int)
    requires 0 <= k && x * x < (k + 1) * (k + 1)
    ensures -k <= x <= k
  {
    Bigger(x, k);
    Bigger(-x, k);
    assert (-x) * (-x) == x * x;
  }

  /** A line value with coefficients p and q stays within k on the disc of squared radius r. */
  lemma LineBound(p: int, q: int, a: int, b: int, r: int, k: int)
    requires a * a + b * b <= r && 0 <= k && (p * p + q * q) * r < (k + 1) * (k + 1)
    ensures -k <= p * a + q * b <= k
  {
    CauchySchwarz(p, q, a, b);
    Positive(p);
    Positive(q);
    Monotone(p * p + q * q, a * a + b * b, r);
    Root(p * a + q * b, k);
  }

  const RADIUS := 18917
  const LINE := 0x7ffe * 0x8000

  /** Rounding the phases down adds less than one count to a line value. */
  lemma LinesRounded(a: int, b: int)
    requires -LINE <= 49152 * a + -SQRT3_BY_2 * b <= LINE && -LINE <= 49152 * a + SQRT3_BY_2 * b <= LINE
    requires -LINE <= 0 * a + 2 * SQRT3_BY_2 * b <= LINE
    ensures Phases(a, b).Span() <= 0x7ffe
  {
    var p := Phases(a, b);
    assert -0x7ffe <= p.u - p.v <= 0x7ffe;
    assert -0x7ffe <= p.u - p.w <= 0x7ffe;
    assert -0x7ffe <= p.v - p.w <= 0x7ffe;
  }

  /** The largest integer radius within which all duties are stored exactly: about 2^15 / sqrt(3). */
  lemma CircleIsExact(alpha: int, beta: int)
    requires alpha * alpha + beta * beta <= RADIUS * RADIUS
    ensures var p := Phases(alpha, beta);
      && p.Span() <= 0x7ffe && Stored(Centred(p)) == Centred(p)
      && 0 < Centred(p).Lowest() && Centred(p).Highest() <= 0x7fff
  {
    LineBound(49152, -SQRT3_BY_2, alpha, beta, RADIUS * RADIUS, LINE);
    LineBound(49152, SQRT3_BY_2, alpha, beta, RADIUS * RADIUS, LINE);
    LineBound(0, 2 * SQRT3_BY_2, alpha, beta, RADIUS * RADIUS, LINE);
    LinesRounded(alpha, beta);
    StoreIsExact(Phases(alpha, beta));
  }

  /** One count further out a duty of 32768 is stored as -32768. */
  lemma CircleIsSharp()
    ensures Centred(Phases(0, RADIUS + 1)).v == 0x8000 && ToI16(0x8000) == -0x8000
  {
  }

  // ---------- the handle ----------

  datatype Phase = Floating | Complementary | HighOn | LowOn | HighPwm | LowPwm

  datatype Mode = NoMode | Trap | Svm

  /** Which sector was written last; the trapezoidal ones all count alike here. */
  datatype LastSector = Six(sector: Sector) | Trapezoidal

  predicate Allowed(duty: int, min: int, max: int) {
    duty == 0 || min <= duty <= max
  }

  /**
    SATURATE of the source: below the minimum it gives 0, not the minimum. So it is the
    greatest duty allowed that is not above x, where 0 is always allowed.
  */
  function Limit(x: int, min: int, max: int): (r: int)
    requires 0 <= min <= max
    ensures Allowed(r, min, max) && (r == 0 || r <= x)
    ensures forall y :: Allowed(y, min, max) && y <= x ==> y <= r
  {
    if x > max then max else if x < min then 0 else x
  }

  /** The duty a phase gets, in 32767ths: the limited one, unless the phase is held on one side. */
  function Applied(x: int, state: Phase, min: int, max: int): (r: int)
    requires 0 <= min <= max
    ensures if state == HighOn then r == 0x7fff else if state == LowOn then r == 0 else Allowed(r, min, max)
  {
    if state == LowOn then 0 else if state == HighOn then 0x7fff else Limit(x, min, max)
  }

  /** Dead-time compensation, where it is compiled in: saturated, not wrapped. */
  function Compensated(active: bool, positive: (bool, bool, bool), comp: int, c: Triple): Triple {
    if active then
      Triple(Saturate16(c.u + if positive.0 then comp else -comp), Saturate16(c.v + if positive.1 then comp else -comp),
             Saturate16(c.w + if positive.2 then comp else -comp))
    else
      Stored(c)
  }

  /** Compensation never lowers the duty of a phase with positive current, nor raises another. */
  lemma CompensationHelps(positive: (bool, bool, bool), comp: int, c: Triple)
    requires 0 <= comp
    ensures var d, plain := Compensated(true, positive, comp, c), Compensated(true, positive, 0, c);
      && (if positive.0 then plain.u <= d.u else d.u <= plain.u)
      && (if positive.1 then plain.v <= d.v else d.v <= plain.v)
      && (if positive.2 then plain.w <= d.w else d.w <= plain.w)
    ensures IsI16(c.u) && IsI16(c.v) && IsI16(c.w) ==> Compensated(true, positive, 0, c) == c
    ensures var d := Compensated(true, positive, comp, c); IsI16(d.u) && IsI16(d.v) && IsI16(d.w)
  {
  }

  function AppliedAll(d: Triple, states: (Phase, Phase, Phase), min: int, max: int): Triple
    requires 0 <= min <= max
  {
    Triple(Applied(d.u, states.0, min, max), Applied(d.v, states.1, min, max), Applied(d.w, states.2, min, max))
  }

  class Handle {
    const dtcActive: bool
    const dutyMin: int
    const dutyMax: int
    var dtcPositive: (bool, bool, bool)
    var dtcComp: int
    var mode: Mode
    var sectorLast: LastSector
    var phaseState: (Phase, Phase, Phase)
    var duties: Triple
    var applied: Triple

    constructor (dtcActive: bool, dutyMin: int, dutyMax: int, dtcComp: int)
      ensures this.dtcActive == dtcActive && this.dutyMin == dutyMin && this.dutyMax == dutyMax
        && this.dtcComp == dtcComp
      ensures sectorLast == Six(Float)
    {
      this.dtcActive, this.dutyMin, this.dutyMax, this.dtcComp := dtcActive, dutyMin, dutyMax, dtcComp;
      dtcPositive := (false, false, false);
      mode := NoMode;
      sectorLast := Six(Float);
      phaseState := (Floating, Floating, Floating);
      duties, applied := Triple(0, 0, 0), Triple(0, 0, 0);
    }

    predicate InSvm()
      reads this
    {
      sectorLast.Six? && sectorLast.sector != Float
    }

    method WritePhaseDuty(d: Triple)
      requires 0 <= dutyMin <= dutyMax
      modifies this`applied
      ensures applied == AppliedAll(d, phaseState, dutyMin, dutyMax)
    {
      var u, v, w := Limit(d.u, dutyMin, dutyMax), Limit(d.v, dutyMin, dutyMax), Limit(d.w, dutyMin, dutyMax);
      if phaseState.0 == LowOn { u := 0; } else if phaseState.0 == HighOn { u := 0x7fff; }
      if phaseState.1 == LowOn { v := 0; } else if phaseState.1 == HighOn { v := 0x7fff; }
      if phaseState.2 == LowOn { w := 0; } else if phaseState.2 == HighOn { w := 0x7fff; }
      applied := Triple(u, v, w);
    }

    /** fd_mc3p_write_svm. */
    method WriteSvm(alpha: int, beta: int)
      requires IsI16(alpha) && IsI16(beta) && 0 <= dutyMin <= dutyMax
      modifies this`mode, this`sectorLast, this`phaseState, this`duties, this`applied
      ensures sectorLast == Six(SectorOf(Phases(alpha, beta)))
      ensures duties == Compensated(dtcActive, dtcPositive, dtcComp, Centred(Phases(alpha, beta)))
      ensures old(InSvm()) ==> phaseState == old(phaseState) && mode == old(mode)
      ensures !old(InSvm()) ==> phaseState == (Complementary, Complementary, Complementary) && mode == Svm
      ensures applied == AppliedAll(duties, phaseState, dutyMin, dutyMax)
    {
      if !InSvm() {
        phaseState := (Complementary, Complementary, Complementary);
        mode := Svm;
      }
      var d, sector := FindDuties(alpha, beta);
      duties := Compensated(dtcActive, dtcPositive, dtcComp, d);
      WritePhaseDuty(duties);
      sectorLast := Six(sector);
    }
  }

  /** The arithmetic of fd_mc3p_write_svm; by `PhasesFit` no intermediate value leaves 32 bits. */
  method FindDuties(alpha: int, beta: int) returns (d: Triple, sector: Sector)
    requires IsI16(alpha) && IsI16(beta)
    ensures d == Centred(Phases(alpha, beta)) && sector == SectorOf(Phases(alpha, beta))
  {
    var u := alpha;
    var v := Shift15(-HALF * alpha + SQRT3_BY_2 * beta);
    var w := Shift15(-HALF * alpha - SQRT3_BY_2 * beta);
    sector := FindSector(u, v, w);
    var voff := FindOffset(u, v, w);
    d := Triple(u - voff + HALF, v - voff + HALF, w - voff + HALF);
  }

  /** The sector from the three sign bits. */
  method FindSector(u: int, v: int, w: int) returns (sector: Sector)
    ensures sector == SectorOf(Triple(u, v, w))
  {
    var code := (if w >= 0 then 4 else 0) + (if v >= 0 then 2 else 0) + (if u >= 0 then 1 else 0);
    sector := Float;
    if code == 1 {
      sector := Svm1;
    } else if code == 3 {
      sector := Svm2;
    } else if code == 2 {
      sector := Svm3;
    } else if code == 6 {
      sector := Svm4;
    } else if code == 4 {
      sector := Svm5;
    } else if code == 5 {
      sector := Svm6;
    }
  }

  /** Half the sum of the highest and the lowest phase. */
  method FindOffset(u: int, v: int, w: int) returns (voff: int)
    ensures voff == Offset(Triple(u, v, w))
  {
    var vmax := u;
    if v > vmax {
      vmax := v;
    }
    if w > vmax {
      vmax := w;
    }
    var vmin := u;
    if v < vmin {
      vmin := v;
    }
    if w < vmin {
      vmin := w;
    }
    voff := (vmax + vmin) / 2;
  }
}

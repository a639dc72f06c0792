/**
  The skyline of thirdparty/imgui/imstb_rectpack.h as a value: a list of steps, each
  from its x to the x of the next, ending in a sentinel at the width of the target.

  `HeightAt` reads it column by column, and everything the packer computes is stated in
  those terms: `Top` is the height a rectangle must clear, `Place` raises exactly the
  columns it takes, and a list of rectangles is safe when none pokes out of the skyline.
*/
module Skyline {
  import opened Words

  datatype Step = Step(x: int, y: int)

  type Sky = seq<Step>

  const SENTINEL_Y := 0x4000_0000

  /** Strictly increasing x from 0 to the width, and no negative height before the sentinel. */
  predicate SkyOk(s: Sky, width: int) {
    && |s| >= 2 && s[0].x == 0 && s[|s| - 1].x == width
    && (forall i, j :: 0 <= i < j < |s| ==> s[i].x < s[j].x)
    && (forall i :: 0 <= i < |s| - 1 ==> 0 <= s[i].y)
  }

  predicate Covers(s: Sky, i: int, c: int) {
    0 <= i < |s| - 1 && s[i].x <= c < s[i + 1].x
  }

  /** The step over column c, searching from step i on. */
  function StepFrom(s: Sky, i: nat, c: int): (k: nat)
    requires i < |s| - 1 && s[i].x <= c < s[|s| - 1].x
    ensures i <= k && Covers(s, k, c)
    decreases |s| - i
  {
    if c < s[i + 1].x then i else StepFrom(s, i + 1, c)
  }

  function StepAt(s: Sky, width: int, c: int): (k: nat)
    requires SkyOk(s, width) && 0 <= c < width
    ensures Covers(s, k, c)
  {
    StepFrom(s, 0, c)
  }

  lemma StepsDisjoint(s: Sky, width: int, i: nat, k: nat, c: int)
    requires SkyOk(s, width) && Covers(s, i, c) && i < k < |s| - 1
    ensures c < s[k].x
  {
    assert i + 1 == k || s[i + 1].x < s[k].x;
  }

  lemma StepUnique(s: Sky, width: int, c: int, k: int)
    requires SkyOk(s, width) && 0 <= c < width && Covers(s, k, c)
    ensures StepAt(s, width, c) == k
  {
    var i := StepAt(s, width, c);
    if i < k {
      StepsDisjoint(s, width, i, k, c);
    } else if k < i {
      StepsDisjoint(s, width, k, i, c);
    }
  }

  function HeightAt(s: Sky, width: int, c: int): int
    requires SkyOk(s, width) && 0 <= c < width
  {
    s[StepAt(s, width, c)].y
  }

  /** The highest column of [x0, x1), and at least 0. */
  function Top(s: Sky, width: int, x0: int, x1: int): (t: int)
    requires SkyOk(s, width) && 0 <= x0 && x1 <= width
    ensures 0 <= t
    decreases x1 - x0
  {
    if x0 >= x1 then 0 else Max(Top(s, width, x0, x1 - 1), HeightAt(s, width, x1 - 1))
  }

  /** The area between the skyline and height y over [x0, x1). */
  function Waste(s: Sky, width: int, x0: int, x1: int, y: int): int
    requires SkyOk(s, width) && 0 <= x0 && x1 <= width
    decreases x1 - x0
  {
    if x0 >= x1 then 0 else Waste(s, width, x0, x1 - 1, y) + (y - HeightAt(s, width, x1 - 1))
  }

  lemma {:induction false} TopIsHighest(s: Sky, width: int, x0: int, x1: int)
    requires SkyOk(s, width) && 0 <= x0 && x1 <= width
    ensures forall c :: x0 <= c < x1 ==> HeightAt(s, width, c) <= Top(s, width, x0, x1)
    ensures Top(s, width, x0, x1) == 0 || exists c :: x0 <= c < x1 && HeightAt(s, width, c) == Top(s, width, x0, x1)
    decreases x1 - x0
  {
    if x0 < x1 {
      TopIsHighest(s, width, x0, x1 - 1);
      assert HeightAt(s, width, x1 - 1) <= Top(s, width, x0, x1);
    }
  }

  // ---------- skyline_find_min_y ----------

  /** The three running values of the loop in skyline_find_min_y. */
  datatype Scan = Scan(minY: int, visited: int, waste: int)

  /** Its body on a step a that ends at `end`. */
  function Visit(a: Step, end: int, x0: int, w: int, v: Scan): Scan {
    if a.y > v.minY then
      Scan(a.y, v.visited + (if a.x < x0 then end - x0 else end - a.x), v.waste + Times(v.visited, a.y - v.minY))
    else
      var under := end - a.x;
      var clipped := if under + v.visited > w then w - v.visited else under;
      Scan(v.minY, v.visited + clipped, v.waste + Times(clipped, v.minY - a.y))
  }

  function ScanStep(s: Sky, i: nat, x0: int, w: int, v: Scan): Scan
    requires i + 1 < |s|
  {
    Visit(s[i], s[i + 1].x, x0, w, v)
  }

  function ScanFrom(s: Sky, i: nat, x0: int, w: int, v: Scan): Scan
    requires i < |s|
    decreases |s| - i
  {
    if s[i].x >= x0 + w || i + 1 == |s| then v else ScanFrom(s, i + 1, x0, w, ScanStep(s, i, x0, w, v))
  }

  /** The height and the waste the packer computes at x0, starting from step i. */
  function FindMinY(s: Sky, i: nat, x0: int, w: int): Scan
    requires i < |s|
  {
    ScanFrom(s, i, x0, w, Scan(0, 0, 0))
  }

  lemma HeightOnStep(s: Sky, width: int, i: nat, c: int)
    requires SkyOk(s, width) && Covers(s, i, c)
    ensures 0 <= c < width && HeightAt(s, width, c) == s[i].y
  {
    assert i > 0 ==> s[0].x < s[i].x;
    assert i + 1 < |s| - 1 ==> s[i + 1].x < s[|s| - 1].x;
    StepUnique(s, width, c, i);
  }

  lemma TopOneColumn(s: Sky, width: int, i: nat, x0: int, b: int)
    requires SkyOk(s, width) && Covers(s, i, b - 1) && 0 <= x0 < b <= width
    ensures Top(s, width, x0, b) == Max(Top(s, width, x0, b - 1), s[i].y)
  {
    HeightOnStep(s, width, i, b - 1);
  }

  /** One step's columns added to the right. */
  lemma {:induction false} TopAcrossStep(s: Sky, width: int, i: nat, x0: int, a: int, b: int)
    requires SkyOk(s, width) && i < |s| - 1 && 0 <= x0 <= a < b <= s[i + 1].x && s[i].x <= a && b <= width
    ensures Top(s, width, x0, b) == Max(Top(s, width, x0, a), s[i].y)
    decreases b - a
  {
    TopOneColumn(s, width, i, x0, b);
    if b - 1 > a {
      TopAcrossStep(s, width, i, x0, a, b - 1);
    }
  }

  lemma WasteOneColumn(s: Sky, width: int, i: nat, x0: int, b: int, y: int)
    requires SkyOk(s, width) && Covers(s, i, b - 1) && 0 <= x0 < b <= width
    ensures Waste(s, width, x0, b, y) == Waste(s, width, x0, b - 1, y) + (y - s[i].y)
  {
    HeightOnStep(s, width, i, b - 1);
  }

  lemma {:induction false} WasteAcrossStep(s: Sky, width: int, i: nat, x0: int, a: int, b: int, y: int)
    requires SkyOk(s, width) && i < |s| - 1 && 0 <= x0 <= a <= b <= s[i + 1].x && s[i].x <= a && b <= width
    ensures Waste(s, width, x0, b, y) == Waste(s, width, x0, a, y) + Times(b - a, y - s[i].y)
    decreases b - a
  {
    if a < b {
      WasteOneColumn(s, width, i, x0, b, y);
      WasteAcrossStep(s, width, i, x0, a, b - 1, y);
    }
  }

  /** Raising the level adds the same to every column. */
  lemma {:induction false} WasteRaised(s: Sky, width: int, x0: int, x1: int, y: int, z: int)
    requires SkyOk(s, width) && 0 <= x0 <= x1 <= width
    ensures Waste(s, width, x0, x1, z) == Waste(s, width, x0, x1, y) + Times(x1 - x0, z - y)
    decreases x1 - x0
  {
    if x0 < x1 {
      WasteRaised(s, width, x0, x1 - 1, y, z);
    }
  }

  /** Where the visited columns end when the loop stands at step i. */
  function Edge(s: Sky, i: nat, x0: int, w: int): int
    requires i < |s|
  {
    if s[i].x < x0 then x0 else if s[i].x > x0 + w then x0 + w else s[i].x
  }

  /** The loop may stand at step i: the first step reaches past x0, and minY is the height of the columns visited. */
  ghost predicate Seen(s: Sky, width: int, i: nat, x0: int, w: int, minY: int) {
    && SkyOk(s, width) && i < |s| && 0 <= x0 && 0 < w && x0 + w <= width
    && (i < |s| - 1 ==> s[i + 1].x > x0)
    && minY == Top(s, width, x0, Edge(s, i, x0, w))
  }

  lemma SeenNext(s: Sky, width: int, i: nat, x0: int, w: int, minY: int)
    requires Seen(s, width, i, x0, w, minY) && s[i].x < x0 + w
    ensures i < |s| - 1 && Seen(s, width, i + 1, x0, w, Max(minY, s[i].y))
  {
    assert i < |s| - 1;
    TopAcrossStep(s, width, i, x0, Edge(s, i, x0, w), Edge(s, i + 1, x0, w));
    assert i + 1 < |s| - 1 ==> s[i + 1].x < s[i + 2].x;
  }

  /** The height found is exact: the highest column under the rectangle. */
  lemma {:induction false} HeightExact(s: Sky, width: int, i: nat, x0: int, w: int, v: Scan)
    requires Seen(s, width, i, x0, w, v.minY)
    ensures ScanFrom(s, i, x0, w, v).minY == Top(s, width, x0, x0 + w)
    decreases |s| - i
  {
    if s[i].x < x0 + w {
      SeenNext(s, width, i, x0, w, v.minY);
      HeightExact(s, width, i + 1, x0, w, ScanStep(s, i, x0, w, v));
    }
  }

  /** skyline_find_min_y is exact in height; what it finds as waste is the subject of module SkylineWaste. */
  lemma FindMinYExact(s: Sky, width: int, i: nat, x0: int, w: int)
    requires SkyOk(s, width) && Covers(s, i, x0) && 0 < w && x0 + w <= width
    ensures 0 <= x0 && FindMinY(s, i, x0, w).minY == Top(s, width, x0, x0 + w)
  {
    assert i > 0 ==> s[0].x < s[i].x;
    assert Edge(s, i, x0, w) == x0;
    HeightExact(s, width, i, x0, w, Scan(0, 0, 0));
  }

  // ---------- the lowest position ----------

  lemma {:induction false} TopAtMost(s: Sky, width: int, x0: int, x1: int, t: int)
    requires SkyOk(s, width) && 0 <= x0 && x1 <= width && 0 <= t
    requires forall c :: x0 <= c < x1 ==> HeightAt(s, width, c) <= t
    ensures Top(s, width, x0, x1) <= t
    decreases x1 - x0
  {
    if x0 < x1 {
      TopAtMost(s, width, x0, x1 - 1, t);
    }
  }

  lemma UnderTop(s: Sky, width: int, x: int, w: int, c: int)
    requires SkyOk(s, width) && 0 <= x <= c < x + w <= width
    ensures HeightAt(s, width, c) <= Top(s, width, x, x + w)
  {
    TopIsHighest(s, width, x, x + w);
  }

  /** Sliding a rectangle left to the start of the step under its left edge never raises it. */
  lemma LeftAlignedIsLowest(s: Sky, width: int, x: int, w: int)
    requires SkyOk(s, width) && 0 <= x && 0 < w && x + w <= width
    ensures var left := s[StepAt(s, width, x)].x;
      0 <= left <= x && Top(s, width, left, left + w) <= Top(s, width, x, x + w)
  {
    var k := StepAt(s, width, x);
    var left := s[k].x;
    assert k > 0 ==> s[0].x < s[k].x;
    forall c | left <= c < left + w
      ensures HeightAt(s, width, c) <= Top(s, width, x, x + w)
    {
      UnderTop(s, width, x, w, if c < x then x else c);
      if c < x {
        HeightOnStep(s, width, k, c);
        HeightOnStep(s, width, k, x);
      }
    }
    TopAtMost(s, width, left, left + w, Top(s, width, x, x + w));
  }

  // ---------- the splice of skyline_pack_rectangle ----------

  /** The step left standing at the right edge: the loop that frees nodes stops there. */
  function SkipTo(s: Sky, m: nat, end: int): (r: nat)
    requires m < |s|
    ensures m <= r < |s| && (r + 1 < |s| ==> s[r + 1].x > end) && (r > m ==> s[r].x <= end)
    decreases |s| - m
  {
    if m + 1 < |s| && s[m + 1].x <= end then SkipTo(s, m + 1, end) else m
  }

  /** The steps kept on the left of the new one. */
  function Kept(s: Sky, k: nat, x: int): nat
    requires k < |s|
  {
    if s[k].x < x then k + 1 else k
  }

  function Place(s: Sky, k: nat, x: int, w: int, top: int): Sky
    requires k < |s| && Kept(s, k, x) < |s|
  {
    var m := Kept(s, k, x);
    var r := SkipTo(s, m, x + w);
    s[..m] + [Step(x, top), Step(Max(s[r].x, x + w), s[r].y)] + s[r + 1..]
  }

  /** Where the packer puts a rectangle: over step k, and reaching past that step unless it starts with it. */
  predicate Spot(s: Sky, width: int, k: int, x: int, w: int) {
    SkyOk(s, width) && Covers(s, k, x) && 0 <= x && 0 < w && x + w <= width && (s[k].x == x || s[k + 1].x <= x + w)
  }

  lemma Spliced<T>(a: seq<T>, p: T, q: T, b: seq<T>, j: nat)
    requires j < |a| + 2 + |b|
    ensures (a + [p, q] + b)[j] ==
      if j < |a| then a[j] else if j == |a| then p else if j == |a| + 1 then q else b[j - |a| - 2]
  {
  }

  /** The right edge falls within the step left standing, or at the sentinel. */
  lemma SkipStopsAtEdge(s: Sky, width: int, k: nat, x: int, w: int)
    requires Spot(s, width, k, x, w)
    ensures Kept(s, k, x) < |s|
    ensures var r := SkipTo(s, Kept(s, k, x), x + w); s[r].x <= x + w && (r == |s| - 1 ==> x + w == width)
  {
  }

  /** The step at each index of the new skyline. */
  function PlacedStep(s: Sky, k: nat, x: int, w: int, top: int, j: nat): Step
    requires k < |s| && Kept(s, k, x) < |s|
    requires j < |Place(s, k, x, w, top)|
  {
    var m := Kept(s, k, x);
    var r := SkipTo(s, m, x + w);
    if j < m then s[j] else if j == m then Step(x, top)
    else if j == m + 1 then Step(Max(s[r].x, x + w), s[r].y) else s[j - (m + 2) + (r + 1)]
  }

  lemma PlaceAt(s: Sky, k: nat, x: int, w: int, top: int, j: nat)
    requires k < |s| && Kept(s, k, x) < |s|
    requires j < |Place(s, k, x, w, top)|
    ensures Place(s, k, x, w, top)[j] == PlacedStep(s, k, x, w, top, j)
  {
    var m := Kept(s, k, x);
    var r := SkipTo(s, m, x + w);
    Spliced(s[..m], Step(x, top), Step(Max(s[r].x, x + w), s[r].y), s[r + 1..], j);
  }

  lemma {:induction false} AdjacentIncreasing(t: Sky, i: nat, j: nat)
    requires i < j < |t|
    requires forall n: nat :: i <= n && n + 1 <= j ==> t[n].x < t[n + 1].x
    ensures t[i].x < t[j].x
    decreases j
  {
    if i < j - 1 {
      AdjacentIncreasing(t, i, j - 1);
    }
    assert t[j - 1].x < t[j - 1 + 1].x;
  }

  lemma PlaceAdjacent(s: Sky, width: int, k: nat, x: int, w: int, top: int, n: nat)
    requires Spot(s, width, k, x, w) && n + 1 < |Place(s, k, x, w, top)|
    ensures Place(s, k, x, w, top)[n].x < Place(s, k, x, w, top)[n + 1].x
  {
    PlaceAt(s, k, x, w, top, n);
    PlaceAt(s, k, x, w, top, n + 1);
    SkipStopsAtEdge(s, width, k, x, w);
  }

  lemma PlaceSorted(s: Sky, width: int, k: nat, x: int, w: int, top: int, i: nat, j: nat)
    requires Spot(s, width, k, x, w) && i < j < |Place(s, k, x, w, top)|
    ensures Place(s, k, x, w, top)[i].x < Place(s, k, x, w, top)[j].x
  {
    forall n: nat | n + 1 < |Place(s, k, x, w, top)|
      ensures Place(s, k, x, w, top)[n].x < Place(s, k, x, w, top)[n + 1].x
    {
      PlaceAdjacent(s, width, k, x, w, top, n);
    }
    AdjacentIncreasing(Place(s, k, x, w, top), i, j);
  }

  lemma PlaceEnds(s: Sky, width: int, k: nat, x: int, w: int, top: int)
    requires Spot(s, width, k, x, w)
    ensures var t := Place(s, k, x, w, top); |t| >= 2 && t[0].x == 0 && t[|t| - 1].x == width
  {
    SkipStopsAtEdge(s, width, k, x, w);
    PlaceAt(s, k, x, w, top, 0);
    PlaceAt(s, k, x, w, top, |Place(s, k, x, w, top)| - 1);
  }

  /** The result is a skyline again. */
  lemma PlaceOk(s: Sky, width: int, k: nat, x: int, w: int, top: int)
    requires Spot(s, width, k, x, w) && 0 <= top
    ensures SkyOk(Place(s, k, x, w, top), width)
  {
    var t := Place(s, k, x, w, top);
    PlaceEnds(s, width, k, x, w, top);
    forall i, j | 0 <= i < j < |t|
      ensures t[i].x < t[j].x
    {
      PlaceSorted(s, width, k, x, w, top, i, j);
    }
    forall i | 0 <= i < |t| - 1
      ensures 0 <= t[i].y
    {
      PlaceNotNegative(s, width, k, x, w, top, i);
    }
  }

  lemma PlaceNotNegative(s: Sky, width: int, k: nat, x: int, w: int, top: int, i: nat)
    requires Spot(s, width, k, x, w) && 0 <= top && i + 1 < |Place(s, k, x, w, top)|
    ensures 0 <= Place(s, k, x, w, top)[i].y
  {
    PlaceAt(s, k, x, w, top, i);
  }

  lemma ColumnBefore(s: Sky, width: int, i: nat, k: nat, c: int, x: int)
    requires SkyOk(s, width) && Covers(s, i, c) && Covers(s, k, x) && c < x
    ensures i <= k && (i == k ==> s[k].x < x)
  {
    if k < i { StepsDisjoint(s, width, k, i, x); }
  }

  lemma ColumnAfter(s: Sky, width: int, i: nat, r: nat, c: int)
    requires SkyOk(s, width) && Covers(s, i, c) && r < |s| && s[r].x <= c
    ensures r <= i
  {
  }

  /** Step n of the new skyline covers column c and has the height promised. */
  ghost predicate NewStep(t: Sky, n: int, c: int, y: int) {
    Covers(t, n, c) && t[n].y == y
  }

  lemma NewStepLeft(s: Sky, width: int, k: nat, x: int, w: int, top: int, c: int)
    requires Spot(s, width, k, x, w) && 0 <= c < x
    ensures Kept(s, k, x) < |s| && NewStep(Place(s, k, x, w, top), StepAt(s, width, c), c, HeightAt(s, width, c))
  {
    var i := StepAt(s, width, c);
    ColumnBefore(s, width, i, k, c, x);
    PlaceAt(s, k, x, w, top, i);
    PlaceAt(s, k, x, w, top, i + 1);
  }

  lemma NewStepInside(s: Sky, width: int, k: nat, x: int, w: int, top: int, c: int)
    requires Spot(s, width, k, x, w) && x <= c < x + w
    ensures Kept(s, k, x) < |s| && NewStep(Place(s, k, x, w, top), Kept(s, k, x), c, top)
  {
    SkipStopsAtEdge(s, width, k, x, w);
    PlaceAt(s, k, x, w, top, Kept(s, k, x));
    PlaceAt(s, k, x, w, top, Kept(s, k, x) + 1);
  }

  /** At the step left standing, whose start has moved to the right edge. */
  lemma NewStepAtEdge(s: Sky, width: int, k: nat, x: int, w: int, top: int, c: int)
    requires Spot(s, width, k, x, w) && x + w <= c < width && Kept(s, k, x) < |s|
    requires StepAt(s, width, c) == SkipTo(s, Kept(s, k, x), x + w)
    ensures NewStep(Place(s, k, x, w, top), Kept(s, k, x) + 1, c, HeightAt(s, width, c))
  {
    SkipStopsAtEdge(s, width, k, x, w);
    PlaceAt(s, k, x, w, top, Kept(s, k, x) + 1);
    PlaceAt(s, k, x, w, top, Kept(s, k, x) + 2);
  }

  /** Steps after the one left standing are moved along unchanged. */
  lemma PlaceBeyond(s: Sky, k: nat, x: int, w: int, top: int, i: nat)
    requires k < |s| && Kept(s, k, x) < |s| && SkipTo(s, Kept(s, k, x), x + w) < i < |s|
    ensures var n := i - SkipTo(s, Kept(s, k, x), x + w) + (Kept(s, k, x) + 1);
            n < |Place(s, k, x, w, top)| && Place(s, k, x, w, top)[n] == s[i]
  {
    PlaceAt(s, k, x, w, top, i - SkipTo(s, Kept(s, k, x), x + w) + (Kept(s, k, x) + 1));
  }

  lemma NewStepBeyond(s: Sky, width: int, k: nat, x: int, w: int, top: int, c: int)
    requires Spot(s, width, k, x, w) && x + w <= c < width && Kept(s, k, x) < |s|
    requires StepAt(s, width, c) > SkipTo(s, Kept(s, k, x), x + w)
    ensures NewStep(Place(s, k, x, w, top), StepAt(s, width, c) - SkipTo(s, Kept(s, k, x), x + w) + (Kept(s, k, x) + 1),
      c, HeightAt(s, width, c))
  {
    PlaceBeyond(s, k, x, w, top, StepAt(s, width, c));
    PlaceBeyond(s, k, x, w, top, StepAt(s, width, c) + 1);
  }

  lemma NewStepRight(s: Sky, width: int, k: nat, x: int, w: int, top: int, c: int) returns (n: nat)
    requires Spot(s, width, k, x, w) && x + w <= c < width
    ensures Kept(s, k, x) < |s| && NewStep(Place(s, k, x, w, top), n, c, HeightAt(s, width, c))
  {
    var m, i := Kept(s, k, x), StepAt(s, width, c);
    SkipStopsAtEdge(s, width, k, x, w);
    var r := SkipTo(s, m, x + w);
    ColumnAfter(s, width, i, r, c);
    n := i - r + (m + 1);
    if i == r {
      NewStepAtEdge(s, width, k, x, w, top, c);
    } else {
      NewStepBeyond(s, width, k, x, w, top, c);
    }
  }

  /** Exactly the columns [x, x + w) are raised, to exactly `top`. */
  ghost predicate Raises(s: Sky, t: Sky, width: int, x: int, w: int, top: int) {
    && SkyOk(s, width) && SkyOk(t, width)
    && forall c :: 0 <= c < width ==> HeightAt(t, width, c) == if x <= c < x + w then top else HeightAt(s, width, c)
  }

  lemma PlaceRaises(s: Sky, width: int, k: nat, x: int, w: int, top: int)
    requires Spot(s, width, k, x, w) && 0 <= top
    ensures Kept(s, k, x) < |s| && Raises(s, Place(s, k, x, w, top), width, x, w, top)
  {
    var t := Place(s, k, x, w, top);
    PlaceOk(s, width, k, x, w, top);
    forall c | 0 <= c < width
      ensures HeightAt(t, width, c) == if x <= c < x + w then top else HeightAt(s, width, c)
    {
      var n;
      if c < x {
        n := StepAt(s, width, c);
        NewStepLeft(s, width, k, x, w, top, c);
      } else if c < x + w {
        n := Kept(s, k, x);
        NewStepInside(s, width, k, x, w, top, c);
      } else {
        n := NewStepRight(s, width, k, x, w, top, c);
      }
      HeightOnStep(t, width, n, c);
    }
  }

  // ---------- rectangles under a skyline ----------

  datatype Placed = Placed(x: int, y: int, w: int, h: int)

  predicate Inside(r: Placed, width: int, height: int) {
    0 <= r.x && 0 <= r.y && 0 < r.w && 0 < r.h && r.x + r.w <= width && r.y + r.h <= height
  }

  predicate Apart(a: Placed, b: Placed) {
    a.x + a.w <= b.x || b.x + b.w <= a.x || a.y + a.h <= b.y || b.y + b.h <= a.y
  }

  /** No column of the rectangle pokes out of the skyline. */
  ghost predicate Under(r: Placed, s: Sky, width: int)
    requires SkyOk(s, width)
  {
    forall c :: r.x <= c < r.x + r.w && 0 <= c < width ==> r.y + r.h <= HeightAt(s, width, c)
  }

  /** Inside the target, below the skyline, and no two overlapping. */
  ghost predicate Safe(rects: seq<Placed>, s: Sky, width: int, height: int) {
    && SkyOk(s, width)
    && (forall i :: 0 <= i < |rects| ==> Inside(rects[i], width, height) && Under(rects[i], s, width))
    && (forall i, j :: 0 <= i < j < |rects| ==> Apart(rects[i], rects[j]))
  }

  /** No column of [x, x + w) is higher than y. */
  ghost predicate Clears(s: Sky, width: int, x: int, w: int, y: int)
    requires SkyOk(s, width)
  {
    forall c :: x <= c < x + w && 0 <= c < width ==> HeightAt(s, width, c) <= y
  }

  /** A rectangle on top of the columns that are raised to its top keeps everything safe. */
  lemma RaiseSafe(rects: seq<Placed>, s: Sky, t: Sky, width: int, height: int, x: int, y: int, rw: int, h: int, w: int)
    requires Safe(rects, s, width, height) && Inside(Placed(x, y, rw, h), width, height) && rw <= w && x + w <= width
    requires Clears(s, width, x, w, y) && Raises(s, t, width, x, w, y + h)
    ensures Safe(rects + [Placed(x, y, rw, h)], t, width, height)
  {
    var p := Placed(x, y, rw, h);
    var all := rects + [p];
    forall i | 0 <= i < |all|
      ensures Inside(all[i], width, height) && Under(all[i], t, width)
    {
      if i < |rects| {
        assert Inside(rects[i], width, height) && Under(rects[i], s, width);
        UnderStays(rects[i], s, t, width, p, w);
      }
    }
    forall i, j | 0 <= i < j < |all|
      ensures Apart(all[i], all[j])
    {
      if j == |rects| {
        assert Inside(rects[i], width, height) && Under(rects[i], s, width);
        ApartFromNew(rects[i], p, s, width, w);
      }
    }
  }

  lemma UnderStays(r: Placed, s: Sky, t: Sky, width: int, p: Placed, w: int)
    requires 0 < p.h && Raises(s, t, width, p.x, w, p.y + p.h) && Clears(s, width, p.x, w, p.y) && Under(r, s, width)
    ensures Under(r, t, width)
  {
    forall c | r.x <= c < r.x + r.w && 0 <= c < width
      ensures r.y + r.h <= HeightAt(t, width, c)
    {
      assert r.y + r.h <= HeightAt(s, width, c);
      assert HeightAt(t, width, c) == if p.x <= c < p.x + w then p.y + p.h else HeightAt(s, width, c);
    }
  }

  lemma ApartFromNew(r: Placed, p: Placed, s: Sky, width: int, w: int)
    requires SkyOk(s, width) && Under(r, s, width) && 0 <= r.x && 0 < r.w && r.x + r.w <= width
    requires 0 <= p.x && 0 < p.w <= w && p.x + w <= width && Clears(s, width, p.x, w, p.y)
    ensures Apart(r, p)
  {
    if !(r.x + r.w <= p.x || p.x + p.w <= r.x) {
      var c := Max(r.x, p.x);
      assert HeightAt(s, width, c) <= p.y;
    }
  }

  // ---------- one packed rectangle ----------

  /**
    Where a rectangle of aligned width `w` may go: left-aligned with step k, or right-aligned
    with the start of a later step.
  */
  ghost predicate Candidate(s: Sky, width: int, k: int, x: int, w: int) {
    && SkyOk(s, width) && Covers(s, k, x) && 0 <= x && 0 < w && x + w <= width
    && (s[k].x == x || exists t :: k < t < |s| && s[t].x == x + w)
  }

  /** The columns actually raised by a rectangle of width `rw`: up to the next step when the spot is inside step k. */
  function RaisedWidth(s: Sky, k: nat, x: int, rw: int): int
    requires k < |s| && Kept(s, k, x) < |s|
  {
    Max(x + rw, s[Kept(s, k, x)].x) - x
  }

  /** Splicing a narrower rectangle inside step k is splicing one that reaches the next step. */
  lemma PlaceReaches(s: Sky, width: int, k: nat, x: int, rw: int, e: int, top: int)
    requires SkyOk(s, width) && Covers(s, k, x) && 0 < rw && e == RaisedWidth(s, k, x, rw)
    ensures Place(s, k, x, rw, top) == Place(s, k, x, e, top)
  {
    var m := Kept(s, k, x);
    if x + rw < s[m].x {
      assert m + 1 < |s| ==> s[m].x < s[m + 1].x;
      assert SkipTo(s, m, x + rw) == m && SkipTo(s, m, x + e) == m;
    }
  }

  lemma RaisedWithinCandidate(s: Sky, width: int, k: nat, x: int, w: int, rw: int)
    requires Candidate(s, width, k, x, w) && 0 < rw <= w
    ensures Kept(s, k, x) < |s| && rw <= RaisedWidth(s, k, x, rw) <= w
    ensures Spot(s, width, k, x, RaisedWidth(s, k, x, rw))
  {
    if s[k].x < x {
      var t :| k < t < |s| && s[t].x == x + w;
      assert k + 1 == t || s[k + 1].x < s[t].x;
    }
  }

  /**
    skyline_pack_rectangle aligns the width for the search only and splices with the
    rectangle's own width, so between `rw` and `w` columns are raised.
  */
  lemma PlaceAtCandidate(s: Sky, t: Sky, width: int, k: nat, x: int, w: int, rw: int, top: int, e: int)
    requires Candidate(s, width, k, x, w) && 0 < rw <= w && 0 <= top
    requires Kept(s, k, x) < |s| && t == Place(s, k, x, rw, top) && e == RaisedWidth(s, k, x, rw)
    ensures rw <= e <= w && Raises(s, t, width, x, e, top)
  {
    RaisedWithinCandidate(s, width, k, x, w, rw);
    PlaceReaches(s, width, k, x, rw, e, top);
    PlaceRaises(s, width, k, x, e, top);
  }

  lemma ClearsTop(s: Sky, width: int, x: int, w: int, e: int)
    requires SkyOk(s, width) && 0 <= x && x + w <= width && e <= w
    ensures Clears(s, width, x, e, Top(s, width, x, x + w))
  {
    TopIsHighest(s, width, x, x + w);
  }

  /** A rectangle packed at a candidate, on the height found there, keeps everything safe. */
  lemma PackSafe(rects: seq<Placed>, s: Sky, t: Sky, width: int, height: int, k: nat, x: int, w: int, rw: int,
    h: int, e: int)
    requires Safe(rects, s, width, height) && Candidate(s, width, k, x, w) && 0 < rw <= e <= w && 0 < h
    requires FindMinY(s, k, x, w).minY + h <= height
    requires Raises(s, t, width, x, e, FindMinY(s, k, x, w).minY + h)
    ensures Safe(rects + [Placed(x, FindMinY(s, k, x, w).minY, rw, h)], t, width, height)
  {
    FindMinYExact(s, width, k, x, w);
    ClearsTop(s, width, x, w, e);
    RaiseSafe(rects, s, t, width, height, x, Top(s, width, x, x + w), rw, h, e);
  }

  // ---------- counting nodes ----------

  /** Distinct integer x from 0 to the width: at most width + 1 steps. */
  lemma {:induction false} StepsSpread(s: Sky, width: int, i: nat)
    requires SkyOk(s, width) && i < |s|
    ensures i <= s[i].x
    decreases i
  {
    if i > 0 {
      StepsSpread(s, width, i - 1);
      assert s[i - 1].x < s[i].x;
    }
  }

  lemma StepCount(s: Sky, width: int)
    requires SkyOk(s, width)
    ensures |s| <= width + 1
  {
    StepsSpread(s, width, |s| - 1);
  }
}

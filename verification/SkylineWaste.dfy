/**
  What skyline_find_min_y (thirdparty/imgui/imstb_rectpack.h) computes as wasted area.

  A scan that starts inside a step of height 0 counts that step's columns left of the
  rectangle too. These surplus columns are carried along and dropped again, from the
  right, whenever a step no higher than the level so far would take the count past the
  rectangle's width. In the end each has cost the height of the step it was dropped at,
  or the level of the rectangle if it never was: `WasteFound`. So the waste is the exact
  area exactly when `NoSurplus` holds of the skyline: `WasteExactly`.

  The packer never builds a skyline with a surplus: `EveryScanExact` in SkylineRun.
*/
module SkylineWaste {
  import opened Words
  import opened Skyline

  lemma TimesDiff(n: int, a: int, b: int)
    ensures Times(n, a - b) == Times(n, a) - Times(n, b)
  {
    TimesIsProduct(n, a);
    TimesIsProduct(n, b);
    TimesIsProduct(n, a - b);
    assert n * (a - b) == n * a - n * b;
  }

  lemma {:induction false} TimesSign(n: nat, k: nat)
    ensures 0 <= Times(n, k) && (Times(n, k) == 0 <==> n == 0 || k == 0)
    decreases n
  {
    if n > 0 {
      TimesSign(n - 1, k);
    }
  }

  /** The columns of the rectangle right of step j. */
  function Beyond(s: Sky, j: nat, x0: int, w: int): (n: int)
    requires j + 1 < |s|
    ensures 0 <= n
  {
    if s[j + 1].x < x0 + w then x0 + w - s[j + 1].x else 0
  }

  /** What e surplus columns, carried to step j at level minY, cost in the end. */
  function Surplus(s: Sky, j: nat, x0: int, w: int, minY: int, e: nat): int
    requires j < |s|
    decreases |s| - j
  {
    if s[j].x >= x0 + w || j + 1 == |s| then Times(e, minY)
    else if s[j].y > minY then Surplus(s, j + 1, x0, w, s[j].y, e)
    else
      var kept := Min(e, Beyond(s, j, x0, w));
      Times(e - kept, s[j].y) + Surplus(s, j + 1, x0, w, minY, kept)
  }

  /** The loop stands at step j, past the left edge, e columns ahead of what it has really visited. */
  ghost predicate Ahead(s: Sky, width: int, j: nat, x0: int, w: int, v: Scan, e: nat) {
    && Seen(s, width, j, x0, w, v.minY) && x0 <= s[j].x
    && (s[j].x < x0 + w ==> v.visited == s[j].x - x0 + e)
  }

  /** What the waste so far is over or under the true one. */
  ghost function Error(s: Sky, width: int, j: nat, x0: int, w: int, v: Scan): int
    requires Seen(s, width, j, x0, w, v.minY)
  {
    v.waste - Waste(s, width, x0, Edge(s, j, x0, w), v.minY)
  }

  lemma RaiseAhead(s: Sky, width: int, j: nat, x0: int, w: int, v: Scan, e: nat)
    requires Ahead(s, width, j, x0, w, v, e) && s[j].x < x0 + w && s[j].y > v.minY
    ensures j + 1 < |s| && Ahead(s, width, j + 1, x0, w, ScanStep(s, j, x0, w, v), e)
  {
    SeenNext(s, width, j, x0, w, v.minY);
  }

  lemma RaiseCost(s: Sky, width: int, j: nat, x0: int, a: int, b: int, minY: int, e: nat)
    requires SkyOk(s, width) && j + 1 < |s| && 0 <= x0 <= s[j].x == a <= b <= s[j + 1].x && b <= width
    ensures Times(a - x0 + e, s[j].y - minY) - Waste(s, width, x0, b, s[j].y) - Times(e, s[j].y) ==
      -Waste(s, width, x0, a, minY) - Times(e, minY)
  {
    WasteRaised(s, width, x0, a, minY, s[j].y);
    WasteAcrossStep(s, width, j, x0, a, b, s[j].y);
    TimesIsProduct(b - a, 0);
    TimesSplit(a - x0, e, s[j].y - minY);
    TimesDiff(e, s[j].y, minY);
  }

  lemma RaiseError(s: Sky, width: int, j: nat, x0: int, w: int, v: Scan, e: nat)
    requires Ahead(s, width, j, x0, w, v, e) && s[j].x < x0 + w && s[j].y > v.minY
    requires j + 1 < |s| && Ahead(s, width, j + 1, x0, w, ScanStep(s, j, x0, w, v), e)
    ensures Error(s, width, j + 1, x0, w, ScanStep(s, j, x0, w, v)) - Times(e, s[j].y) ==
      Error(s, width, j, x0, w, v) - Times(e, v.minY)
  {
    RaiseCost(s, width, j, x0, s[j].x, Edge(s, j + 1, x0, w), v.minY, e);
  }

  lemma LevelAhead(s: Sky, width: int, j: nat, x0: int, w: int, v: Scan, e: nat)
    requires Ahead(s, width, j, x0, w, v, e) && s[j].x < x0 + w && s[j].y <= v.minY
    ensures j + 1 < |s| && Ahead(s, width, j + 1, x0, w, ScanStep(s, j, x0, w, v), Min(e, Beyond(s, j, x0, w)))
  {
    SeenNext(s, width, j, x0, w, v.minY);
  }

  lemma LevelCost(s: Sky, width: int, j: nat, x0: int, a: int, b: int, minY: int, d: int)
    requires SkyOk(s, width) && j + 1 < |s| && 0 <= x0 <= s[j].x == a <= b <= s[j + 1].x && b <= width
    ensures Times(b - a - d, minY - s[j].y) - Waste(s, width, x0, b, minY) ==
      -Waste(s, width, x0, a, minY) - Times(d, minY - s[j].y)
  {
    WasteAcrossStep(s, width, j, x0, a, b, minY);
    TimesSplit(b - a, d, minY - s[j].y);
  }

  lemma LevelError(s: Sky, width: int, j: nat, x0: int, w: int, v: Scan, e: nat)
    requires Ahead(s, width, j, x0, w, v, e) && s[j].x < x0 + w && s[j].y <= v.minY
    requires j + 1 < |s| && Ahead(s, width, j + 1, x0, w, ScanStep(s, j, x0, w, v), Min(e, Beyond(s, j, x0, w)))
    ensures Error(s, width, j + 1, x0, w, ScanStep(s, j, x0, w, v))
      == Error(s, width, j, x0, w, v) - Times(e - Min(e, Beyond(s, j, x0, w)), v.minY - s[j].y)
  {
    LevelCost(s, width, j, x0, s[j].x, Edge(s, j + 1, x0, w), v.minY, e - Min(e, Beyond(s, j, x0, w)));
  }

  /** From step j on: the error already made, and what the surplus columns carried there still cost. */
  ghost predicate Foretold(s: Sky, width: int, j: nat, x0: int, w: int, v: Scan, e: nat)
    requires Seen(s, width, j, x0, w, v.minY)
  {
    var r := ScanFrom(s, j, x0, w, v);
    r.waste == Waste(s, width, x0, x0 + w, r.minY) + Error(s, width, j, x0, w, v)
      + Surplus(s, j, x0, w, v.minY, e) - Times(e, v.minY)
  }

  lemma RaiseForetold(s: Sky, width: int, j: nat, x0: int, w: int, v: Scan, e: nat)
    requires Ahead(s, width, j, x0, w, v, e) && s[j].x < x0 + w && s[j].y > v.minY && j + 1 < |s|
    requires Ahead(s, width, j + 1, x0, w, ScanStep(s, j, x0, w, v), e)
    requires Foretold(s, width, j + 1, x0, w, ScanStep(s, j, x0, w, v), e)
    ensures Foretold(s, width, j, x0, w, v, e)
  {
    RaiseError(s, width, j, x0, w, v, e);
  }

  lemma LevelForetold(s: Sky, width: int, j: nat, x0: int, w: int, v: Scan, e: nat)
    requires Ahead(s, width, j, x0, w, v, e) && s[j].x < x0 + w && s[j].y <= v.minY && j + 1 < |s|
    requires Ahead(s, width, j + 1, x0, w, ScanStep(s, j, x0, w, v), Min(e, Beyond(s, j, x0, w)))
    requires Foretold(s, width, j + 1, x0, w, ScanStep(s, j, x0, w, v), Min(e, Beyond(s, j, x0, w)))
    ensures Foretold(s, width, j, x0, w, v, e)
  {
    var kept := Min(e, Beyond(s, j, x0, w));
    LevelError(s, width, j, x0, w, v, e);
    TimesDiff(e - kept, v.minY, s[j].y);
    TimesSplit(e, kept, v.minY);
  }

  lemma {:induction false} WasteFrom(s: Sky, width: int, j: nat, x0: int, w: int, v: Scan, e: nat)
    requires Ahead(s, width, j, x0, w, v, e)
    ensures Foretold(s, width, j, x0, w, v, e)
    decreases |s| - j
  {
    if s[j].x < x0 + w {
      var next := ScanStep(s, j, x0, w, v);
      if s[j].y > v.minY {
        RaiseAhead(s, width, j, x0, w, v, e);
        WasteFrom(s, width, j + 1, x0, w, next, e);
        RaiseForetold(s, width, j, x0, w, v, e);
      } else {
        LevelAhead(s, width, j, x0, w, v, e);
        WasteFrom(s, width, j + 1, x0, w, next, Min(e, Beyond(s, j, x0, w)));
        LevelForetold(s, width, j, x0, w, v, e);
      }
    }
  }

  /**
    The surplus columns a scan from step i starts with: none, unless it starts inside a step
    of height 0 that ends under the rectangle.
  */
  function Extra(s: Sky, i: nat, x0: int, w: int): (e: nat)
    requires i + 1 < |s|
  {
    if s[i].x < x0 && s[i].y == 0 then Min(x0 - s[i].x, Beyond(s, i, x0, w)) else 0
  }

  /** The scan after its first step, which starts at or left of the rectangle. */
  lemma FirstStep(s: Sky, width: int, i: nat, x0: int, w: int)
    requires SkyOk(s, width) && Covers(s, i, x0) && 0 <= x0 && 0 < w && x0 + w <= width
    ensures var v := ScanStep(s, i, x0, w, Scan(0, 0, 0));
      && v.minY == s[i].y && Ahead(s, width, i + 1, x0, w, v, Extra(s, i, x0, w))
        && Error(s, width, i + 1, x0, w, v) == 0
  {
    assert Edge(s, i, x0, w) == x0;
    SeenNext(s, width, i, x0, w, 0);
    WasteAcrossStep(s, width, i, x0, x0, Edge(s, i + 1, x0, w), s[i].y);
    TimesIsProduct(Edge(s, i + 1, x0, w) - x0, s[i].y - s[i].y);
    var under := s[i + 1].x - s[i].x;
    TimesIsProduct(if under > w then w else under, 0);
    TimesIsProduct(0, s[i].y - 0);
  }

  /** The waste found, for every start: the exact area, and what the surplus columns cost. */
  lemma WasteFound(s: Sky, width: int, i: nat, x0: int, w: int)
    requires SkyOk(s, width) && Covers(s, i, x0) && 0 <= x0 && 0 < w && x0 + w <= width
    ensures FindMinY(s, i, x0, w).waste ==
      Waste(s, width, x0, x0 + w, Top(s, width, x0, x0 + w)) + Surplus(s, i + 1, x0, w, s[i].y, Extra(s, i, x0, w))
  {
    FindMinYExact(s, width, i, x0, w);
    FirstStep(s, width, i, x0, w);
    var v, e := ScanStep(s, i, x0, w, Scan(0, 0, 0)), Extra(s, i, x0, w);
    WasteFrom(s, width, i + 1, x0, w, v, e);
    assert ScanFrom(s, i, x0, w, Scan(0, 0, 0)) == ScanFrom(s, i + 1, x0, w, v);
    TimesIsProduct(e, s[i].y);
  }

  // ---------- when the surplus costs nothing ----------

  /**
    Step j costs none of e surplus columns anything: it leaves them alone, or is at height
    0, or is higher than all left of it and not the last.
  */
  ghost predicate Harmless(s: Sky, width: int, j: nat, x0: int, w: int, e: nat)
    requires SkyOk(s, width) && 0 <= x0 && x0 + w <= width && j + 1 < |s| && s[j].x < x0 + w
  {
    s[j + 1].x <= x0 + w - e || s[j].y == 0 || (s[j].y > Top(s, width, x0, s[j].x) && s[j + 1].x < x0 + w)
  }

  ghost predicate AllHarmless(s: Sky, width: int, j: nat, x0: int, w: int, e: nat)
    requires SkyOk(s, width) && 0 <= x0 && x0 + w <= width
  {
    forall k: nat :: j <= k && k + 1 < |s| && s[k].x < x0 + w ==> Harmless(s, width, k, x0, w, e)
  }

  /** Columns dropped at step j do not matter to the steps after it. */
  lemma DroppedElsewhere(s: Sky, width: int, j: nat, x0: int, w: int, e: nat)
    requires SkyOk(s, width) && 0 <= x0 && x0 + w <= width && j + 1 < |s| && s[j + 1].x < x0 + w
    ensures AllHarmless(s, width, j + 1, x0, w, e) <==> AllHarmless(s, width, j + 1, x0, w, Min(e, Beyond(s, j, x0, w)))
  {
    forall k: nat | j + 1 <= k && k + 1 < |s| && s[k].x < x0 + w
      ensures Harmless(s, width, k, x0, w, e) <==> Harmless(s, width, k, x0, w, Min(e, Beyond(s, j, x0, w)))
    {
      assert s[j + 1].x < s[k + 1].x;
    }
  }

  lemma OneHarmless(s: Sky, width: int, j: nat, x0: int, w: int, e: nat)
    requires SkyOk(s, width) && 0 <= x0 && x0 + w <= width && j + 1 < |s| && s[j].x < x0 + w
    ensures AllHarmless(s, width, j, x0, w, e) <==>
      Harmless(s, width, j, x0, w, e) && AllHarmless(s, width, j + 1, x0, w, e)
  {
  }

  lemma NoneLeft(s: Sky, width: int, j: nat, x0: int, w: int, e: nat)
    requires SkyOk(s, width) && 0 <= x0 && x0 + w <= width && j < |s| && x0 + w <= s[j].x
    ensures AllHarmless(s, width, j, x0, w, e)
  {
    assert forall k: nat :: j < k < |s| ==> s[j].x < s[k].x;
    assert forall k: nat :: j <= k < |s| ==> !(s[k].x < x0 + w);
  }

  lemma {:induction false} SurplusNotNegative(s: Sky, width: int, j: nat, x0: int, w: int, minY: int, e: nat)
    requires SkyOk(s, width) && j < |s| && x0 + w <= width && 0 <= minY
    ensures 0 <= Surplus(s, j, x0, w, minY, e)
    decreases |s| - j
  {
    TimesSign(e, minY);
    if s[j].x < x0 + w && j + 1 < |s| {
      var kept := if s[j].y > minY then e else Min(e, Beyond(s, j, x0, w));
      TimesSign(e - kept, s[j].y);
      SurplusNotNegative(s, width, j + 1, x0, w, Max(minY, s[j].y), kept);
    }
  }

  /** The loop stands at step j under the rectangle, with e surplus columns. */
  ghost predicate Standing(s: Sky, width: int, j: nat, x0: int, w: int, minY: int, e: nat) {
    Seen(s, width, j, x0, w, minY) && x0 <= s[j].x < x0 + w && 0 < e && j + 1 < |s|
  }

  /** What is to be shown of the step after. */
  ghost predicate FreeIffHarmless(s: Sky, width: int, j: nat, x0: int, w: int, minY: int, e: nat)
    requires SkyOk(s, width) && 0 <= x0 && x0 + w <= width && j < |s|
  {
    0 < e && s[j].x < x0 + w ==> (Surplus(s, j, x0, w, minY, e) == 0 <==> AllHarmless(s, width, j, x0, w, e))
  }

  /** A step higher than all left of it costs the surplus something only if the rectangle ends on it. */
  lemma RaisedFree(s: Sky, width: int, j: nat, x0: int, w: int, minY: int, e: nat)
    requires Standing(s, width, j, x0, w, minY, e) && 0 <= minY < s[j].y
    requires FreeIffHarmless(s, width, j + 1, x0, w, s[j].y, e)
    ensures FreeIffHarmless(s, width, j, x0, w, minY, e)
  {
    OneHarmless(s, width, j, x0, w, e);
    TimesSign(e, s[j].y);
    assert Edge(s, j, x0, w) == s[j].x;
  }

  lemma HarmlessLevel(s: Sky, width: int, j: nat, x0: int, w: int, minY: int, e: nat)
    requires Standing(s, width, j, x0, w, minY, e) && s[j].y <= minY && s[j + 1].x < x0 + w
    ensures Harmless(s, width, j, x0, w, e) <==> e <= Beyond(s, j, x0, w) || s[j].y == 0
  {
    assert Edge(s, j, x0, w) == s[j].x;
  }

  /** A step no higher than the level costs the height of the columns dropped at it. */
  lemma LevelFree(s: Sky, width: int, j: nat, x0: int, w: int, minY: int, e: nat)
    requires Standing(s, width, j, x0, w, minY, e) && s[j].y <= minY && s[j + 1].x < x0 + w
    requires FreeIffHarmless(s, width, j + 1, x0, w, minY, Min(e, Beyond(s, j, x0, w)))
    ensures FreeIffHarmless(s, width, j, x0, w, minY, e)
  {
    var kept := Min(e, Beyond(s, j, x0, w));
    OneHarmless(s, width, j, x0, w, e);
    DroppedElsewhere(s, width, j, x0, w, e);
    SurplusNotNegative(s, width, j + 1, x0, w, minY, kept);
    TimesSign(e - kept, s[j].y);
    HarmlessLevel(s, width, j, x0, w, minY, e);
    assert Surplus(s, j, x0, w, minY, e) == Times(e - kept, s[j].y) + Surplus(s, j + 1, x0, w, minY, kept);
  }

  /** At the last step under the rectangle all of them are dropped. */
  lemma LastFree(s: Sky, width: int, j: nat, x0: int, w: int, minY: int, e: nat)
    requires Standing(s, width, j, x0, w, minY, e) && s[j].y <= minY && x0 + w <= s[j + 1].x
    ensures FreeIffHarmless(s, width, j, x0, w, minY, e)
  {
    OneHarmless(s, width, j, x0, w, e);
    NoneLeft(s, width, j + 1, x0, w, e);
    TimesSign(e, s[j].y);
  }

  lemma {:induction false} SurplusFree(s: Sky, width: int, j: nat, x0: int, w: int, minY: int, e: nat)
    requires Seen(s, width, j, x0, w, minY) && x0 <= s[j].x && 0 <= minY
    ensures FreeIffHarmless(s, width, j, x0, w, minY, e)
    decreases |s| - j
  {
    if 0 < e && s[j].x < x0 + w {
      SeenNext(s, width, j, x0, w, minY);
      if s[j].y > minY {
        SurplusFree(s, width, j + 1, x0, w, s[j].y, e);
        if s[j + 1].x >= x0 + w {
          NoneLeft(s, width, j + 1, x0, w, e);
        }
        RaisedFree(s, width, j, x0, w, minY, e);
      } else if s[j + 1].x < x0 + w {
        SurplusFree(s, width, j + 1, x0, w, minY, Min(e, Beyond(s, j, x0, w)));
        LevelFree(s, width, j, x0, w, minY, e);
      } else {
        LastFree(s, width, j, x0, w, minY, e);
      }
    }
  }

  /**
    A caller can check this on the skyline: no surplus columns, or none that a step under
    the rectangle makes cost anything.
  */
  ghost predicate NoSurplus(s: Sky, width: int, i: nat, x0: int, w: int)
    requires SkyOk(s, width) && i + 1 < |s| && 0 <= x0 && x0 + w <= width
  {
    Extra(s, i, x0, w) == 0 || AllHarmless(s, width, i + 1, x0, w, Extra(s, i, x0, w))
  }

  /** The waste found is never less than the area lost, and is exactly that area if and only if there is no surplus. */
  lemma WasteExactly(s: Sky, width: int, i: nat, x0: int, w: int)
    requires SkyOk(s, width) && Covers(s, i, x0) && 0 <= x0 && 0 < w && x0 + w <= width
    ensures var area := Waste(s, width, x0, x0 + w, Top(s, width, x0, x0 + w));
      && area <= FindMinY(s, i, x0, w).waste
      && (FindMinY(s, i, x0, w).waste == area <==> NoSurplus(s, width, i, x0, w))
  {
    WasteFound(s, width, i, x0, w);
    FirstStep(s, width, i, x0, w);
    SurplusNotNegative(s, width, i + 1, x0, w, s[i].y, Extra(s, i, x0, w));
    SurplusFree(s, width, i + 1, x0, w, s[i].y, Extra(s, i, x0, w));
    if Extra(s, i, x0, w) == 0 {
      NoExtra(s, i + 1, x0, w, s[i].y);
    }
  }

  lemma {:induction false} NoExtra(s: Sky, j: nat, x0: int, w: int, minY: int)
    requires j < |s|
    ensures Surplus(s, j, x0, w, minY, 0) == 0
    decreases |s| - j
  {
    if s[j].x < x0 + w && j + 1 < |s| {
      NoExtra(s, j + 1, x0, w, if s[j].y > minY then s[j].y else minY);
    }
  }

  // ---------- two inputs ----------

  lemma FoundFifty()
    ensures var s := [Step(0, 0), Step(10, 5), Step(20, SENTINEL_Y)];
      SkyOk(s, 20) && Covers(s, 0, 5) && FindMinY(s, 0, 5, 10) == Scan(5, 20, 50)
  {
    var s := [Step(0, 0), Step(10, 5), Step(20, SENTINEL_Y)];
    TimesIsProduct(10, 0);
    TimesIsProduct(10, 5);
    assert ScanStep(s, 0, 5, 10, Scan(0, 0, 0)) == Scan(0, 10, 0);
    assert ScanStep(s, 1, 5, 10, Scan(0, 10, 0)) == Scan(5, 20, 50);
    assert ScanFrom(s, 2, 5, 10, Scan(5, 20, 50)) == Scan(5, 20, 50);
    assert ScanFrom(s, 1, 5, 10, Scan(0, 10, 0)) == Scan(5, 20, 50);
  }

  lemma TopIsFive(s: Sky)
    requires s == [Step(0, 0), Step(10, 5), Step(20, SENTINEL_Y)] && SkyOk(s, 20)
    ensures Top(s, 20, 5, 15) == 5
  {
    TopAcrossStep(s, 20, 0, 5, 5, 10);
    TopAcrossStep(s, 20, 1, 5, 10, 15);
  }

  lemma ReallyTwentyFive(s: Sky)
    requires s == [Step(0, 0), Step(10, 5), Step(20, SENTINEL_Y)] && SkyOk(s, 20)
    ensures Waste(s, 20, 5, 15, 5) == 25
  {
    WasteAcrossStep(s, 20, 0, 5, 5, 10, 5);
    WasteAcrossStep(s, 20, 1, 5, 10, 15, 5);
    TimesIsProduct(5, 5);
    TimesIsProduct(5, 0);
  }

  /**
    Starting inside a step of height 0: the waste found here is 50 where the area lost is 25.
    No run of the packer has such a step other than the last, so none sees this difference.
  */
  lemma WasteOvercounted()
    ensures var s := [Step(0, 0), Step(10, 5), Step(20, SENTINEL_Y)];
      && SkyOk(s, 20) && Covers(s, 0, 5) && Top(s, 20, 5, 15) == 5
      && FindMinY(s, 0, 5, 10) == Scan(5, 20, 50) && Waste(s, 20, 5, 15, 5) == 25
  {
    var s := [Step(0, 0), Step(10, 5), Step(20, SENTINEL_Y)];
    FoundFifty();
    TopIsFive(s);
    ReallyTwentyFive(s);
  }
}

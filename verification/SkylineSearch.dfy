/**
  What skyline_find_best_pos (thirdparty/imgui/imstb_rectpack.h) looks for, on the value
  of the skyline.

  `BestPos` follows its two loops; `Chosen` says what they find: a candidate position that
  no other candidate beats in the order of the heuristic, so one as low as any position
  allows, or none because nothing fits. `PackSky` is the skyline after one rectangle.
*/
module SkylineSearch {
  import opened Words
  import opened Skyline

  datatype Heuristic = SkylineBL | SkylineBF

  /** The width skyline_find_best_pos searches with: the least multiple of `align` that is enough. */
  function AlignedWidth(w: int, align: int): (r: int)
    requires 1 <= align
    ensures w <= r && (0 < w ==> r < w + align)
    decreases w
  {
    if w <= 0 then 0 else align + AlignedWidth(w - align, align)
  }

  /** As the code computes it. */
  lemma {:induction false} AlignFormula(w: int, align: int)
    requires 0 <= w && 1 <= align
    ensures AlignedWidth(w, align) == w + align - 1 - (w + align - 1) % align
    decreases w
  {
    if w > align {
      AlignFormula(w - align, align);
      ModOnce(w - 1, align);
    } else if w > 0 {
      ModOnce(w - 1, align);
      ModUnique(w - 1, 0, w - 1, align);
    } else {
      ModUnique(align - 1, 0, align - 1, align);
    }
  }

  /** Step j of the skyline, with the rectangle's left edge at its start. */
  ghost predicate LeftFits(s: Sky, width: int, j: int, w: int) {
    0 <= j < |s| - 1 && s[j].x + w <= width
  }

  /** The start of step t, with the rectangle's right edge there. */
  ghost predicate RightFits(s: Sky, t: int, w: int) {
    0 <= t < |s| && w <= s[t].x
  }

  /** The scan of a right-aligned position. */
  ghost function RightScan(s: Sky, width: int, t: int, w: int): Scan
    requires SkyOk(s, width) && 0 < w && RightFits(s, t, w)
  {
    assert s[t].x <= width by { if t < |s| - 1 { assert s[t].x < s[|s| - 1].x; } }
    FindMinY(s, StepAt(s, width, s[t].x - w), s[t].x - w, w)
  }

  ghost function LeftScan(s: Sky, j: int, w: int): Scan
    requires 0 <= j < |s|
  {
    FindMinY(s, j, s[j].x, w)
  }

  /** Lower, or as low with less waste, or equal in both and no further right. */
  predicate NoWorse(y: int, waste: int, x: int, v: Scan, vx: int) {
    y < v.minY || (y == v.minY && (waste < v.waste || (waste == v.waste && x <= vx)))
  }

  lemma FlatIsSafe(width: int, height: int)
    requires 1 <= width
    ensures var s := [Step(0, 0), Step(width, SENTINEL_Y)]; SkyOk(s, width) && Safe([], s, width, height)
  {
  }

  lemma AlignPositive(width: int, numNodes: int)
    requires 1 <= width && 1 <= numNodes
    ensures 1 <= (width + numNodes - 1) / numNodes
    ensures width <= numNodes ==> (width + numNodes - 1) / numNodes == 1
  {
    var q := (width + numNodes - 1) / numNodes;
    assert q * numNodes + (width + numNodes - 1) % numNodes == width + numNodes - 1;
    assert q <= 0 ==> q * numNodes <= 0;
    assert 2 <= q ==> 2 * numNodes <= q * numNodes;
  }

  /** Every height but the sentinel's is at most the target's, so every position found is. */
  ghost predicate Low(s: Sky, height: int) {
    height < SENTINEL_Y && 0 <= height && forall i :: 0 <= i < |s| - 1 ==> s[i].y <= height
  }

  lemma LowTop(s: Sky, width: int, height: int, x: int, w: int)
    requires SkyOk(s, width) && Low(s, height) && 0 <= x && x + w <= width
    ensures Top(s, width, x, x + w) <= height
  {
    TopAtMost(s, width, x, x + w, height);
  }

  lemma LeftScanExact(s: Sky, width: int, height: int, j: int, w: int)
    requires SkyOk(s, width) && Low(s, height) && LeftFits(s, width, j, w) && 0 < w
    ensures Covers(s, j, s[j].x) && 0 <= s[j].x
    ensures LeftScan(s, j, w).minY == Top(s, width, s[j].x, s[j].x + w) <= height
  {
    assert j > 0 ==> s[0].x < s[j].x;
    FindMinYExact(s, width, j, s[j].x, w);
    LowTop(s, width, height, s[j].x, w);
  }

  /** Step i is under the left edge of the rectangle whose right edge is at the start of step t. */
  lemma RightScanAt(s: Sky, width: int, height: int, t: int, i: int, w: int)
    requires SkyOk(s, width) && Low(s, height) && RightFits(s, t, w) && 0 < w && Covers(s, i, s[t].x - w)
    ensures RightScan(s, width, t, w) == FindMinY(s, i, s[t].x - w, w)
    ensures Candidate(s, width, i, s[t].x - w, w) && StepAt(s, width, s[t].x - w) == i
    ensures RightScan(s, width, t, w).minY <= height
  {
    assert t < |s| - 1 ==> s[t].x < s[|s| - 1].x;
    StepUnique(s, width, s[t].x - w, i);
    FindMinYExact(s, width, i, s[t].x - w, w);
    LowTop(s, width, height, s[t].x - w, w);
  }

  /** The sentinel stands at the width and every other step before it. */
  ghost predicate Bounded(s: Sky, width: int) {
    |s| >= 1 && s[|s| - 1].x == width && forall i :: 0 <= i < |s| - 1 ==> s[i].x < width
  }

  // ---------- what skyline_find_best_pos looks for ----------

  /** The running values of its two loops: best_x, best_y and best_waste, and the step k that *best leads to. */
  datatype Best = Best(found: bool, k: int, x: int, y: int, waste: int)

  /** The request: aligned width, height, the target's height and the heuristic. */
  datatype Job = Job(w: int, h: int, height: int, heuristic: Heuristic)

  /** The test that makes a left-aligned step the new best. */
  predicate Better(job: Job, b: Best, v: Scan) {
    match job.heuristic
    case SkylineBL => v.minY < b.y
    case SkylineBF => v.minY + job.h <= job.height && (v.minY < b.y || (v.minY == b.y && v.waste < b.waste))
  }

  ghost function LeftStep(s: Sky, job: Job, b: Best, j: nat): Best
    requires j < |s|
  {
    var v := LeftScan(s, j, job.w);
    if Better(job, b, v)
      then Best(true, j, s[j].x, v.minY, if job.heuristic.SkylineBF? then v.waste else b.waste) else b
  }

  /** The left-aligned loop after steps 0 .. n - 1. */
  ghost function LeftSearch(s: Sky, job: Job, n: nat): (b: Best)
    requires n <= |s|
    ensures if b.found then 0 <= b.k < |s| && b.x == s[b.k].x else b.x == 0
  {
    if n == 0 then Best(false, 0, 0, SENTINEL_Y, SENTINEL_Y) else LeftStep(s, job, LeftSearch(s, job, n - 1), n - 1)
  }

  /** The test that makes a right-aligned position the new best. */
  predicate BetterRight(job: Job, b: Best, v: Scan, x: int) {
    v.minY + job.h <= job.height && v.minY <= b.y
      && (v.minY < b.y || v.waste < b.waste || (v.waste == b.waste && x < b.x))
  }

  /** The step under column c, moving on from step i. */
  ghost function AdvanceTo(s: Sky, i: nat, c: int): (k: nat)
    requires i < |s|
    ensures i <= k < |s| && (k + 1 < |s| ==> c < s[k + 1].x)
    decreases |s| - i
  {
    if i + 1 < |s| && s[i + 1].x <= c then AdvanceTo(s, i + 1, c) else i
  }

  /** The right-aligned loop's state: the best position, and the step `node` stands at. */
  datatype Sweep = Sweep(best: Best, i: nat)

  ghost function RightStep(s: Sky, job: Job, v: Sweep, t: nat): (r: Sweep)
    requires t < |s| && v.i < |s|
    ensures r.i < |s|
  {
    var x := s[t].x - job.w;
    var i := AdvanceTo(s, v.i, x);
    var scan := FindMinY(s, i, x, job.w);
    Sweep(if BetterRight(job, v.best, scan, x) then Best(true, i, x, scan.minY, scan.waste) else v.best, i)
  }

  /** The right-aligned loop after right edges at the steps from t0 to n - 1, from what the left-aligned one found. */
  ghost function RightSearch(s: Sky, job: Job, left: Best, t0: nat, n: nat): (r: Sweep)
    requires t0 <= n <= |s| && |s| > 0
    ensures r.i < |s|
  {
    if n == t0 then Sweep(left, 0) else RightStep(s, job, RightSearch(s, job, left, t0, n - 1), n - 1)
  }

  /** The first step from i on with no room for the width right of it. */
  function LeftEnd(s: Sky, width: int, w: int, i: nat): (n: nat)
    requires i <= |s|
    ensures i <= n <= |s| && (n < |s| ==> s[n].x + w > width) && (n > i ==> s[n - 1].x + w <= width)
    decreases |s| - i
  {
    if i < |s| && s[i].x + w <= width then LeftEnd(s, width, w, i + 1) else i
  }

  /** The first step from i on with room left of it. */
  function FirstTailFrom(s: Sky, w: int, i: nat): (n: nat)
    requires i <= |s|
    ensures i <= n <= |s| && (n < |s| ==> w <= s[n].x) && (n > i ==> s[n - 1].x < w)
    decreases |s| - i
  {
    if i < |s| && s[i].x < w then FirstTailFrom(s, w, i + 1) else i
  }

  /** What skyline_find_best_pos computes for an aligned width that can fit. */
  ghost function BestPos(s: Sky, width: int, job: Job): Best
    requires |s| > 0
  {
    var left := LeftSearch(s, job, LeftEnd(s, width, job.w, 0));
    if job.heuristic.SkylineBF? then RightSearch(s, job, left, FirstTailFrom(s, job.w, 0), |s|).best else left
  }

  /** A position with scan `v` at vx is no better than the best. */
  predicate Loses(job: Job, b: Best, v: Scan, vx: int) {
    match job.heuristic
    case SkylineBL => b.y < v.minY || (b.y == v.minY && b.x <= vx)
    case SkylineBF => v.minY + job.h <= job.height ==> NoWorse(b.y, b.waste, b.x, v, vx)
  }

  /** Every left-aligned position at a step before n. */
  ghost predicate LeftLose(s: Sky, width: int, job: Job, b: Best, n: int) {
    forall j :: 0 <= j < n && LeftFits(s, width, j, job.w) ==> Loses(job, b, LeftScan(s, j, job.w), s[j].x)
  }

  /** Every right-aligned position at a step before n. */
  ghost predicate RightLose(s: Sky, width: int, job: Job, b: Best, n: int)
    requires SkyOk(s, width) && 0 < job.w
  {
    forall t :: 0 <= t < n && RightFits(s, t, job.w) ==> Loses(job, b, RightScan(s, width, t, job.w), s[t].x - job.w)
  }

  /** The best position is one of the candidates and its height and waste are the ones found there. */
  ghost predicate Real(s: Sky, width: int, job: Job, b: Best) {
    && Candidate(s, width, b.k, b.x, job.w)
    && b.y == FindMinY(s, b.k, b.x, job.w).minY
    && (job.heuristic.SkylineBF? ==> b.waste == FindMinY(s, b.k, b.x, job.w).waste && b.y + job.h <= job.height)
  }

  ghost predicate NoneLow(s: Sky, width: int, job: Job, n: int) {
    forall j :: 0 <= j < n && LeftFits(s, width, j, job.w) ==> LeftScan(s, j, job.w).minY + job.h > job.height
  }

  ghost predicate NoneFound(s: Sky, width: int, job: Job, n: int, b: Best) {
    b.y == SENTINEL_Y && NoneLow(s, width, job, n) && (job.heuristic.SkylineBL? ==> n == 0)
  }

  /** What the left-aligned loop has established after the steps before n. */
  ghost predicate LeftBest(s: Sky, width: int, job: Job, n: int, b: Best) {
    if b.found then Real(s, width, job, b) && LeftLose(s, width, job, b, n) && 0 <= b.k < n && b.x == s[b.k].x
    else NoneFound(s, width, job, n, b)
  }

  /** Replacing the best by a better one, what lost before still loses. */
  predicate Improves(job: Job, b: Best, c: Best) {
    c.y < b.y || (c.y == b.y && job.heuristic.SkylineBF? && (c.waste < b.waste || (c.waste == b.waste && c.x < b.x)))
  }

  lemma LeftLoseAfter(s: Sky, width: int, job: Job, b: Best, c: Best, n: int)
    requires LeftLose(s, width, job, b, n) && (Improves(job, b, c) || c == b)
    requires 0 <= n < |s| && Loses(job, c, LeftScan(s, n, job.w), s[n].x)
    ensures LeftLose(s, width, job, c, n + 1)
  {
    forall j | 0 <= j < n + 1 && LeftFits(s, width, j, job.w)
      ensures Loses(job, c, LeftScan(s, j, job.w), s[j].x)
    {
      if j < n {
        assert Loses(job, b, LeftScan(s, j, job.w), s[j].x);
      }
    }
  }

  lemma NoneLowLose(s: Sky, width: int, job: Job, n: int, b: Best)
    requires NoneFound(s, width, job, n, b)
    ensures LeftLose(s, width, job, b, n)
  {
    forall j | 0 <= j < n && LeftFits(s, width, j, job.w)
      ensures Loses(job, b, LeftScan(s, j, job.w), s[j].x)
    {
      assert LeftScan(s, j, job.w).minY + job.h > job.height;
    }
  }

  lemma LeftBestKept(s: Sky, width: int, job: Job, n: nat, b: Best)
    requires SkyOk(s, width) && Low(s, job.height) && 0 < job.w && LeftFits(s, width, n, job.w)
    requires LeftBest(s, width, job, n, b)
    ensures LeftBest(s, width, job, n + 1, LeftStep(s, job, b, n))
  {
    LeftScanExact(s, width, job.height, n, job.w);
    assert b.found ==> s[b.k].x < s[n].x;
    var c := LeftStep(s, job, b, n);
    if !b.found {
      NoneLowLose(s, width, job, n, b);
    }
    if c.found {
      LeftLoseAfter(s, width, job, b, c, n);
    } else {
      NoneLowAfter(s, width, job, n);
    }
  }

  lemma NoneLowAfter(s: Sky, width: int, job: Job, n: nat)
    requires NoneLow(s, width, job, n) && n < |s| && LeftScan(s, n, job.w).minY + job.h > job.height
    ensures NoneLow(s, width, job, n + 1)
  {
  }

  lemma {:induction false} LeftSearchBest(s: Sky, width: int, job: Job, n: nat)
    requires SkyOk(s, width) && Low(s, job.height) && 0 < job.w && n < |s|
    requires n > 0 ==> LeftFits(s, width, n - 1, job.w)
    ensures LeftBest(s, width, job, n, LeftSearch(s, job, n))
  {
    if n > 0 {
      assert n > 1 ==> s[n - 2].x < s[n - 1].x;
      LeftSearchBest(s, width, job, n - 1);
      LeftBestKept(s, width, job, n - 1, LeftSearch(s, job, n - 1));
    }
  }

  ghost predicate NoneRightLow(s: Sky, width: int, job: Job, n: int)
    requires SkyOk(s, width) && 0 < job.w
  {
    forall t :: 0 <= t < n && RightFits(s, t, job.w) ==> RightScan(s, width, t, job.w).minY + job.h > job.height
  }

  /** What the right-aligned loop has established after the right edges before step n. */
  ghost predicate RightBest(s: Sky, width: int, job: Job, n: int, b: Best)
    requires SkyOk(s, width) && 0 < job.w
  {
    && LeftLose(s, width, job, b, |s|) && RightLose(s, width, job, b, n)
    && if b.found then Real(s, width, job, b)
      else b.y == SENTINEL_Y && NoneLow(s, width, job, |s|) && NoneRightLow(s, width, job, n)
  }

  lemma LeftStillLose(s: Sky, width: int, job: Job, b: Best, c: Best, n: int)
    requires LeftLose(s, width, job, b, n) && Improves(job, b, c)
    ensures LeftLose(s, width, job, c, n)
  {
    forall j | 0 <= j < n && LeftFits(s, width, j, job.w)
      ensures Loses(job, c, LeftScan(s, j, job.w), s[j].x)
    {
      assert Loses(job, b, LeftScan(s, j, job.w), s[j].x);
    }
  }

  lemma RightLoseAfter(s: Sky, width: int, job: Job, b: Best, c: Best, n: int)
    requires SkyOk(s, width) && 0 < job.w && RightLose(s, width, job, b, n) && (Improves(job, b, c) || c == b)
    requires RightFits(s, n, job.w) ==> Loses(job, c, RightScan(s, width, n, job.w), s[n].x - job.w)
    ensures RightLose(s, width, job, c, n + 1)
  {
    forall t | 0 <= t < n + 1 && RightFits(s, t, job.w)
      ensures Loses(job, c, RightScan(s, width, t, job.w), s[t].x - job.w)
    {
      if t < n {
        assert Loses(job, b, RightScan(s, width, t, job.w), s[t].x - job.w);
      }
    }
  }

  lemma NoneRightAfter(s: Sky, width: int, job: Job, n: int)
    requires SkyOk(s, width) && 0 < job.w && NoneRightLow(s, width, job, n)
    requires RightFits(s, n, job.w) ==> RightScan(s, width, n, job.w).minY + job.h > job.height
    ensures NoneRightLow(s, width, job, n + 1)
  {
  }

  /** One more right edge, at step n with step i under the left edge. */
  lemma RightBestKept(s: Sky, width: int, job: Job, n: nat, i: nat, v: Sweep)
    requires SkyOk(s, width) && Low(s, job.height) && 0 < job.w && job.heuristic.SkylineBF? && v.i < |s|
    requires RightFits(s, n, job.w) && i == AdvanceTo(s, v.i, s[n].x - job.w) && Covers(s, i, s[n].x - job.w)
    requires RightBest(s, width, job, n, v.best)
    ensures RightBest(s, width, job, n + 1, RightStep(s, job, v, n).best)
  {
    RightScanAt(s, width, job.height, n, i, job.w);
    var b, c := v.best, RightStep(s, job, v, n).best;
    if BetterRight(job, b, FindMinY(s, i, s[n].x - job.w, job.w), s[n].x - job.w) {
      LeftStillLose(s, width, job, b, c, |s|);
      RightLoseAfter(s, width, job, b, c, n);
    } else {
      RightLoseAfter(s, width, job, b, b, n);
      if !b.found {
        NoneRightAfter(s, width, job, n);
      }
    }
  }

  /** Advancing from a step that starts at or before the column ends on the step over it. */
  lemma {:induction false} AdvanceCovers(s: Sky, width: int, i: nat, c: int)
    requires SkyOk(s, width) && i < |s| - 1 && s[i].x <= c < width
    ensures Covers(s, AdvanceTo(s, i, c), c)
    decreases |s| - i
  {
    if s[i + 1].x <= c {
      AdvanceCovers(s, width, i + 1, c);
    }
  }

  /** No step before the first tail leaves room on its left. */
  lemma TailsBefore(s: Sky, width: int, w: int, t0: nat)
    requires SkyOk(s, width) && t0 < |s| && (t0 > 0 ==> s[t0 - 1].x < w)
    ensures forall t :: 0 <= t < t0 ==> !RightFits(s, t, w)
  {
    assert forall t :: 0 <= t < t0 - 1 ==> s[t].x < s[t0 - 1].x;
  }

  lemma NoTailsYet(s: Sky, width: int, job: Job, t0: nat, left: Best)
    requires SkyOk(s, width) && 0 < job.w && job.heuristic.SkylineBF? && LeftBest(s, width, job, |s|, left)
    requires forall t :: 0 <= t < t0 ==> !RightFits(s, t, job.w)
    ensures RightBest(s, width, job, t0, left)
  {
    if !left.found {
      NoneLowLose(s, width, job, |s|, left);
    }
  }

  /** Where `node` stands before the loop tries step n. */
  predicate RightPlace(s: Sky, w: int, n: nat, i: nat) {
    i < |s| - 1 && (n < |s| ==> s[i].x <= s[n].x - w)
  }

  lemma TurnCovers(s: Sky, width: int, i: nat, n: nat, w: int)
    requires SkyOk(s, width) && i < |s| - 1 && n < |s| && 0 < w && s[i].x <= s[n].x - w
    ensures RightFits(s, n, w)
    ensures var k := AdvanceTo(s, i, s[n].x - w);
      Covers(s, k, s[n].x - w)
    ensures RightPlace(s, w, n + 1, AdvanceTo(s, i, s[n].x - w))
  {
    SortedTails(s, width, n, |s|);
    SortedTails(s, width, 0, i + 1);
    AdvanceCovers(s, width, i, s[n].x - w);
  }

  /** What every turn keeps holds at the end. */
  lemma {:induction false} SearchKeeps(s: Sky, job: Job, left: Best, t0: nat, n: nat, place: (nat, Sweep) -> bool,
    inv: (nat, Sweep) -> bool)
    requires t0 <= n <= |s| && |s| > 0 && place(t0, Sweep(left, 0)) && inv(t0, Sweep(left, 0))
    requires forall t: nat, v: Sweep :: t0 <= t < n && v.i < |s| && place(t, v) ==>
      place(t + 1, RightStep(s, job, v, t))
    requires forall t: nat, v: Sweep :: t0 <= t < n && v.i < |s| && place(t, v) && inv(t, v) ==>
      inv(t + 1, RightStep(s, job, v, t))
    ensures place(n, RightSearch(s, job, left, t0, n)) && inv(n, RightSearch(s, job, left, t0, n))
    decreases n
  {
    if t0 < n {
      SearchKeeps(s, job, left, t0, n - 1, place, inv);
    }
  }

  lemma TurnBest(s: Sky, width: int, job: Job, n: nat, v: Sweep)
    requires SkyOk(s, width) && Low(s, job.height) && 0 < job.w && job.heuristic.SkylineBF?
    requires n < |s| && RightPlace(s, job.w, n, v.i) && RightBest(s, width, job, n, v.best)
    ensures RightBest(s, width, job, n + 1, RightStep(s, job, v, n).best)
  {
    TurnCovers(s, width, v.i, n, job.w);
    RightBestKept(s, width, job, n, AdvanceTo(s, v.i, s[n].x - job.w), v);
  }

  lemma TurnPlace(s: Sky, width: int, job: Job, n: nat, v: Sweep)
    requires SkyOk(s, width) && 0 < job.w && n < |s| && RightPlace(s, job.w, n, v.i)
    ensures RightPlace(s, job.w, n + 1, RightStep(s, job, v, n).i)
  {
    TurnCovers(s, width, v.i, n, job.w);
  }

  lemma RightSearchBest(s: Sky, width: int, job: Job, left: Best, t0: nat)
    requires SkyOk(s, width) && Low(s, job.height) && 0 < job.w && job.heuristic.SkylineBF?
      && LeftBest(s, width, job, |s|, left)
    requires t0 < |s| && job.w <= s[t0].x && (t0 > 0 ==> s[t0 - 1].x < job.w)
    ensures RightBest(s, width, job, |s|, RightSearch(s, job, left, t0, |s|).best)
  {
    TailsBefore(s, width, job.w, t0);
    NoTailsYet(s, width, job, t0, left);
    forall t: nat, v: Sweep | t0 <= t < |s| && v.i < |s| && RightPlace(s, job.w, t, v.i)
      ensures RightPlace(s, job.w, t + 1, RightStep(s, job, v, t).i)
    {
      TurnPlace(s, width, job, t, v);
    }
    forall t: nat, v: Sweep | t0 <= t < |s| && v.i < |s| && RightPlace(s, job.w, t, v.i)
      && RightBest(s, width, job, t, v.best)
      ensures RightBest(s, width, job, t + 1, RightStep(s, job, v, t).best)
    {
      TurnBest(s, width, job, t, v);
    }
    SearchKeeps(s, job, left, t0, |s|, (t: nat, v: Sweep) => RightPlace(s, job.w, t, v.i),
                (t: nat, v: Sweep) => SkyOk(s, width) && 0 < job.w && RightBest(s, width, job, t, v.best));
  }

  lemma SortedTails(s: Sky, width: int, t0: nat, n: nat)
    requires SkyOk(s, width) && t0 < n <= |s|
    ensures s[t0].x <= s[n - 1].x <= width && (n - 1 > t0 ==> s[n - 2].x < s[n - 1].x)
  {
  }

  /** No step from n on has room for the width. */
  lemma LeftDone(s: Sky, width: int, job: Job, n: nat, b: Best)
    requires SkyOk(s, width) && 0 < job.w <= width && n < |s| && s[n].x + job.w > width
    requires LeftBest(s, width, job, n, b)
    ensures LeftBest(s, width, job, |s|, b)
  {
    forall j | n <= j < |s|
      ensures !LeftFits(s, width, j, job.w)
    {
      assert n < j ==> s[n].x < s[j].x;
    }
  }

  /** The position chosen: a real one that no other beats, or none because nothing fits. */
  ghost predicate Chosen(s: Sky, width: int, job: Job, b: Best)
    requires SkyOk(s, width) && 0 < job.w
  {
    if b.found then
      Real(s, width, job, b) && LeftLose(s, width, job, b, |s|)
        && (job.heuristic.SkylineBF? ==> RightLose(s, width, job, b, |s|))
    else
      NoneLow(s, width, job, |s|)
  }

  lemma LeftChosen(s: Sky, width: int, job: Job, b: Best)
    requires SkyOk(s, width) && 0 < job.w && LeftBest(s, width, job, |s|, b)
    ensures job.heuristic.SkylineBL? ==> Chosen(s, width, job, b)
    ensures b.found ==> 0 <= b.k < |s| && b.x == s[b.k].x
  {
  }

  lemma RightChosen(s: Sky, width: int, job: Job, b: Best)
    requires SkyOk(s, width) && 0 < job.w && RightBest(s, width, job, |s|, b)
    ensures Chosen(s, width, job, b)
  {
  }

  lemma BestPosChosen(s: Sky, width: int, job: Job)
    requires SkyOk(s, width) && Low(s, job.height) && 0 < job.w <= width
    ensures Chosen(s, width, job, BestPos(s, width, job))
  {
    var n, t0 := LeftEnd(s, width, job.w, 0), FirstTailFrom(s, job.w, 0);
    var left := LeftSearch(s, job, n);
    LeftSearchBest(s, width, job, n);
    LeftDone(s, width, job, n, left);
    LeftChosen(s, width, job, left);
    if job.heuristic.SkylineBF? {
      RightSearchBest(s, width, job, left, t0);
      RightChosen(s, width, job, BestPos(s, width, job));
    }
  }

  /** The height a rectangle of width w comes to rest at. */
  function Level(s: Sky, width: int, x: int, w: int): int
    requires SkyOk(s, width) && 0 <= x && x + w <= width
  {
    Top(s, width, x, x + w)
  }

  /** Room for a rectangle of width w and height h at some x. */
  ghost predicate HasRoom(s: Sky, width: int, w: int, h: int, height: int)
    requires SkyOk(s, width)
  {
    exists x :: 0 <= x && x + w <= width && Level(s, width, x, w) + h <= height
  }

  /** No position of the rectangle is lower than y. */
  ghost predicate Lowest(s: Sky, width: int, w: int, y: int)
    requires SkyOk(s, width)
  {
    forall x :: 0 <= x && x + w <= width ==> y <= Level(s, width, x, w)
  }

  /** The left-aligned position at or before x, no higher than x itself. */
  lemma LeftOf(s: Sky, width: int, height: int, x: int, w: int) returns (j: nat)
    requires SkyOk(s, width) && Low(s, height) && 0 < w && 0 <= x && x + w <= width
    ensures LeftFits(s, width, j, w) && LeftScan(s, j, w).minY <= Level(s, width, x, w)
  {
    j := StepAt(s, width, x);
    LeftAlignedIsLowest(s, width, x, w);
    LeftScanExact(s, width, height, j, w);
  }

  lemma RealTop(s: Sky, width: int, job: Job, b: Best)
    requires Real(s, width, job, b)
    ensures b.y == Level(s, width, b.x, job.w)
  {
    FindMinYExact(s, width, b.k, b.x, job.w);
  }

  /** Either heuristic puts the rectangle as low as any position allows. */
  lemma ChosenIsLowest(s: Sky, width: int, job: Job, b: Best)
    requires SkyOk(s, width) && Low(s, job.height) && 0 < job.w && Chosen(s, width, job, b) && b.found
    ensures b.y == Level(s, width, b.x, job.w) && (b.y + job.h <= job.height ==> Lowest(s, width, job.w, b.y))
  {
    RealTop(s, width, job, b);
    if b.y + job.h <= job.height {
      forall x | 0 <= x && x + job.w <= width
        ensures b.y <= Level(s, width, x, job.w)
      {
        var j := LeftOf(s, width, job.height, x, job.w);
        assert Loses(job, b, LeftScan(s, j, job.w), s[j].x);
      }
    }
  }

  /** The search finds a position that fits exactly when there is one. */
  lemma FoundIffRoom(s: Sky, width: int, job: Job, b: Best)
    requires SkyOk(s, width) && Low(s, job.height) && 0 < job.w && Chosen(s, width, job, b)
    ensures b.found && b.y + job.h <= job.height <==> HasRoom(s, width, job.w, job.h, job.height)
  {
    if b.found {
      RealTop(s, width, job, b);
    }
    if HasRoom(s, width, job.w, job.h, job.height) {
      var x :| 0 <= x && x + job.w <= width && Level(s, width, x, job.w) + job.h <= job.height;
      var j := LeftOf(s, width, job.height, x, job.w);
      assert LeftScan(s, j, job.w).minY + job.h <= job.height;
      if b.found {
        assert Loses(job, b, LeftScan(s, j, job.w), s[j].x);
      }
    }
  }

  lemma NoRoom(s: Sky, width: int, w: int, h: int, height: int)
    requires SkyOk(s, width) && (w > width || h > height)
    ensures !HasRoom(s, width, w, h, height)
  {
  }

  /** What the search has found, in terms of the heights under the rectangle. */
  lemma Outcome(s: Sky, width: int, job: Job, b: Best)
    requires SkyOk(s, width) && Low(s, job.height) && 0 < job.w
    requires if job.w > width || job.h > job.height then !b.found else b == BestPos(s, width, job)
    ensures b.found && b.y + job.h <= job.height <==> HasRoom(s, width, job.w, job.h, job.height)
    ensures b.found && b.y + job.h <= job.height ==>
      && Candidate(s, width, b.k, b.x, job.w) && b.y == FindMinY(s, b.k, b.x, job.w).minY
      && b.y == Level(s, width, b.x, job.w) && Lowest(s, width, job.w, b.y)
  {
    if job.w > width || job.h > job.height {
      NoRoom(s, width, job.w, job.h, job.height);
    } else {
      BestPosChosen(s, width, job);
      FoundIffRoom(s, width, job, b);
      if b.found {
        ChosenIsLowest(s, width, job, b);
      }
    }
  }

  lemma PlaceLow(s: Sky, t: Sky, height: int, k: nat, x: int, w: int, top: int)
    requires k < |s| && Kept(s, k, x) < |s| && t == Place(s, k, x, w, top) && Low(s, height) && top <= height
    ensures Low(t, height)
  {
    forall i: nat | i + 1 < |t|
      ensures t[i].y <= height
    {
      PlaceAt(s, k, x, w, top, i);
    }
  }

  lemma CandidateKept(s: Sky, width: int, k: nat, x: int, a: int)
    requires Candidate(s, width, k, x, a)
    ensures Kept(s, k, x) < |s| && 0 <= FindMinY(s, k, x, a).minY
  {
    FindMinYExact(s, width, k, x, a);
  }

  // ---------- one rectangle ----------

  /** skyline_find_best_pos for an aligned width: no search if it cannot fit at all. */
  ghost function Search(s: Sky, width: int, job: Job): Best
    requires |s| > 0
  {
    if job.w > width || job.h > job.height then Best(false, 0, 0, 0, 0) else BestPos(s, width, job)
  }

  /** A target, as stbrp_init_target and stbrp_setup_heuristic leave it. */
  datatype Settings = Settings(width: int, height: int, align: int, heuristic: Heuristic, numNodes: nat)

  ghost predicate SettingsFit(s: Sky, t: Settings) {
    1 <= t.align && SkyOk(s, t.width) && Low(s, t.height)
  }

  /** The search for a w x h rectangle, w rounded up. */
  ghost function Spotted(s: Sky, t: Settings, w: int, h: int): Best
    requires |s| > 0 && 1 <= t.align
  {
    Search(s, t.width, Job(AlignedWidth(w, t.align), h, t.height, t.heuristic))
  }

  /** A position was found, the rectangle does not poke out of the target, and there is a node to spare. */
  ghost predicate Packs(s: Sky, t: Settings, w: int, h: int)
    requires |s| > 0 && 1 <= t.align
  {
    var b := Spotted(s, t, w, h);
    b.found && b.y + h <= t.height && |s| != t.numNodes + 2
  }

  /** The skyline after stbrp_pack_rectangle. */
  ghost function PackSky(s: Sky, t: Settings, w: int, h: int): Sky
    requires SettingsFit(s, t) && 0 < w
  {
    if Packs(s, t, w, h) then
      var b := Spotted(s, t, w, h);
      SpotKept(s, t, w, h);
      Place(s, b.k, b.x, w, b.y + h)
    else s
  }

  lemma SpotKept(s: Sky, t: Settings, w: int, h: int)
    requires SettingsFit(s, t) && 0 < w && Packs(s, t, w, h)
    ensures var b := Spotted(s, t, w, h); 0 <= b.k < |s| && Kept(s, b.k, b.x) < |s|
  {
    var b := Spotted(s, t, w, h);
    Outcome(s, t.width, Job(AlignedWidth(w, t.align), h, t.height, t.heuristic), b);
    CandidateKept(s, t.width, b.k, b.x, AlignedWidth(w, t.align));
  }

  ghost predicate SpotIs(s: Sky, t: Settings, w: int, h: int, x: int, y: int, k: int, found: bool)
    requires |s| > 0 && 1 <= t.align
  {
    var b := Spotted(s, t, w, h);
    b.found == found && (found ==> b.x == x && b.y == y && b.k == k)
  }

  /** The skyline after a search that found (x, y) over step k, or nothing. */
  ghost predicate PackedTo(s: Sky, t: Settings, w: int, h: int, x: int, y: int, k: int, found: bool, after: Sky) {
    if found && y + h <= t.height && |s| != t.numNodes + 2
      then 0 <= k < |s| && Kept(s, k, x) < |s| && after == Place(s, k, x, w, y + h)
    else after == s
  }

  lemma PackedAs(s: Sky, t: Settings, w: int, h: int, x: int, y: int, k: int, found: bool, after: Sky)
    requires SettingsFit(s, t) && 0 < w && SpotIs(s, t, w, h, x, y, k, found)
      && PackedTo(s, t, w, h, x, y, k, found, after)
    ensures after == PackSky(s, t, w, h)
  {
  }

  /** As the method computes it. */
  lemma PackedSky(s: Sky, t: Settings, w: int, h: int, x: int, y: int, k: int, found: bool, after: Sky)
    requires SettingsFit(s, t) && 0 < w && PackedTo(s, t, w, h, x, y, k, found, after)
    requires forall u :: u == t ==> SpotIs(s, u, w, h, x, y, k, found)
    ensures forall u :: u == t ==> after == PackSky(s, u, w, h)
  {
    forall u | u == t
      ensures after == PackSky(s, u, w, h)
    {
      PackedAs(s, u, w, h, x, y, k, found, after);
    }
  }

  /** The alignment stbrp_setup_allow_out_of_mem chooses. */
  function Quantum(width: int, numNodes: nat, allow: bool): int
    requires 1 <= numNodes
  {
    if allow then 1 else (width + numNodes - 1) / numNodes
  }
}

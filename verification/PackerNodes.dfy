/**
  When the packer of thirdparty/imgui/imstb_rectpack.h can run out of nodes.

  Widths are rounded up while searching so that any number of nodes should be enough, but
  the splice uses the width before rounding. So packing 1 x 1 rectangles side by side
  takes one node each, and empties the free list of a target wider than its number of
  nodes: `RunsOutExactly`.
*/
module PackerNodes {
  import opened Words
  import opened Skyline
  import opened SkylineSearch
  import opened SkylineRun

  /** Every request comes with the same settings. */
  predicate Steady(rs: seq<Request>, align: int, heuristic: Heuristic) {
    forall i :: 0 <= i < |rs| ==> rs[i].align == align && rs[i].heuristic == heuristic
  }

  /** Every node is on the skyline, and yet there is room for one more rectangle. */
  ghost predicate OutOfNodes(s: Sky, t: Settings)
    requires SettingsFit(s, t)
  {
    |s| == t.numNodes + 2 && HasRoom(s, t.width, AlignedWidth(1, t.align), 1, t.height)
  }

  // ---------- a row of unit squares ----------

  function Tops(j: nat): (s: Sky)
    ensures |s| == j && forall i :: 0 <= i < j ==> s[i] == Step(i, 1)
  {
    if j == 0 then [] else Tops(j - 1) + [Step(j - 1, 1)]
  }

  /** The skyline with j unit squares in a row from the left. */
  function Row(j: nat, width: int): (s: Sky)
    ensures |s| == j + 2
  {
    Tops(j) + [Step(j, 0), Step(width, SENTINEL_Y)]
  }

  lemma RowOk(j: nat, width: int)
    requires j < width
    ensures SkyOk(Row(j, width), width) && Covers(Row(j, width), j, j)
    ensures forall i :: 0 <= i < j ==> Row(j, width)[i] == Step(i, 1)
    ensures Row(j, width)[j] == Step(j, 0) && Row(j, width)[j + 1] == Step(width, SENTINEL_Y)
  {
  }

  lemma RowHeight(j: nat, width: int, c: int)
    requires j < width && 0 <= c < width && SkyOk(Row(j, width), width)
    ensures HeightAt(Row(j, width), width, c) == if c < j then 1 else 0
  {
    RowOk(j, width);
    HeightOnStep(Row(j, width), width, if c < j then c else j, c);
  }

  /** No column right of the row is higher than 0. */
  lemma {:induction false} RowTop(j: nat, width: int, x0: int, x1: int)
    requires j < width && SkyOk(Row(j, width), width) && j <= x0 && x1 <= width
    ensures Top(Row(j, width), width, x0, x1) == 0
    decreases x1 - x0
  {
    if x0 < x1 {
      RowTop(j, width, x0, x1 - 1);
      RowHeight(j, width, x1 - 1);
    }
  }

  /** A rectangle on the floor is right of the row. */
  lemma FloorIsRight(j: nat, width: int, x: int, w: int)
    requires j < width && SkyOk(Row(j, width), width) && 0 <= x && 0 < w && x + w <= width
    requires Level(Row(j, width), width, x, w) == 0
    ensures j <= x
  {
    UnderTop(Row(j, width), width, x, w, x);
    RowHeight(j, width, x);
  }

  /** There the scan finds no waste. */
  lemma RowScan(j: nat, width: int, x: int, w: int)
    requires j < width && j <= x && 0 < w && x + w <= width
    ensures FindMinY(Row(j, width), j, x, w).waste == 0 && FindMinY(Row(j, width), j, x, w).minY == 0
  {
    RowOk(j, width);
    FloorScan(Row(j, width), width, j, x, w);
  }

  /** Of the positions on the floor the best is the leftmost. */
  lemma FloorLeftmost(j: nat, width: int, job: Job, b: Best)
    requires j < width && SkyOk(Row(j, width), width) && 0 < job.w && j + job.w <= width && 1 == job.h <= job.height
    requires b.found && Chosen(Row(j, width), width, job, b) && b.y == 0 && j <= b.x && b.x + job.w <= width
    ensures b.k == j && b.x == j
  {
    var s := Row(j, width);
    RowOk(j, width);
    StepUnique(s, width, b.x, b.k);
    StepUnique(s, width, b.x, j);
    RowScan(j, width, b.x, job.w);
    RowScan(j, width, j, job.w);
    assert LeftFits(s, width, j, job.w);
    assert Loses(job, b, LeftScan(s, j, job.w), s[j].x);
  }

  /** The best position of a unit square is next to the row, whatever the heuristic. */
  lemma NextToRow(j: nat, t: Settings)
    requires 1 <= t.align == AlignedWidth(1, t.align) && j + t.align <= t.width && 1 <= t.height < SENTINEL_Y
    ensures var b := Spotted(Row(j, t.width), t, 1, 1); b.found && b.k == j && b.x == j && b.y == 0
  {
    var s, a, job := Row(j, t.width), t.align, Job(t.align, 1, t.height, t.heuristic);
    var b := Spotted(s, t, 1, 1);
    RowOk(j, t.width);
    FloorFound(j, t.width, job, b);
    BestPosChosen(s, t.width, job);
    FloorIsRight(j, t.width, b.x, a);
    FloorLeftmost(j, t.width, job, b);
  }

  /** There is room on the floor, so that is where the rectangle goes. */
  lemma FloorFound(j: nat, width: int, job: Job, b: Best)
    requires SkyOk(Row(j, width), width) && 0 < job.w && j + job.w <= width && 1 == job.h <= job.height < SENTINEL_Y
    requires b == BestPos(Row(j, width), width, job)
    ensures b.found && b.y == 0 && 0 <= b.x && b.x + job.w <= width && Level(Row(j, width), width, b.x, job.w) == 0
  {
    var s := Row(j, width);
    RowOk(j, width);
    RowTop(j, width, j, j + job.w);
    assert Level(s, width, j, job.w) == 0;
    assert HasRoom(s, width, job.w, 1, job.height);
    Outcome(s, width, job, b);
  }

  lemma RowSkip(j: nat, width: int)
    requires j + 1 < width
    ensures Kept(Row(j, width), j, j) == j && SkipTo(Row(j, width), j, j + 1) == j
  {
    RowOk(j, width);
  }

  /** A splice that frees no node and keeps the steps before k. */
  lemma PlaceOnStep(s: Sky, k: nat, w: int, top: int)
    requires k < |s| && SkipTo(s, k, s[k].x + w) == k
    ensures Place(s, k, s[k].x, w, top) ==
      s[..k] + [Step(s[k].x, top), Step(Max(s[k].x, s[k].x + w), s[k].y)] + s[k + 1..]
  {
  }

  lemma RowParts(a: Sky, b: Step, end: Step, p: Step, q: Step)
    ensures var s := a + [b, end]; s[..|a|] == a && s[|a| + 1..] == [end]
    ensures a + [p, q] + [end] == (a + [p]) + [q, end]
  {
  }

  lemma RowGrows(j: nat, width: int)
    requires j + 1 < width
    ensures Kept(Row(j, width), j, j) == j && Place(Row(j, width), j, j, 1, 1) == Row(j + 1, width)
  {
    assert Row(j, width)[j] == Step(j, 0);
    RowSkip(j, width);
    PlaceOnStep(Row(j, width), j, 1, 1);
    RowParts(Tops(j), Step(j, 0), Step(width, SENTINEL_Y), Step(j, 1), Step(j + 1, 0));
  }

  /** n unit squares. */
  function Units(n: nat, align: int, heuristic: Heuristic): (rs: seq<Request>)
    requires 1 <= align
    ensures |rs| == n && Proper(rs) && Steady(rs, align, heuristic)
  {
    seq(n, i => Request(1, 1, align, heuristic))
  }

  lemma AlignOnce(align: int)
    requires 1 <= align
    ensures AlignedWidth(1, align) == align
  {
    assert AlignedWidth(1 - align, align) == 0;
  }

  lemma RowStep(t: Settings, j: nat)
    requires 1 <= t.align && 1 <= t.height < SENTINEL_Y && j < t.numNodes < t.width
      && t.numNodes - 1 + t.align <= t.width
    requires SettingsFit(Row(j, t.width), t)
    ensures PackSky(Row(j, t.width), t, 1, 1) == Row(j + 1, t.width)
  {
    AlignOnce(t.align);
    NextToRow(j, t);
    RowGrows(j, t.width);
  }

  function Of(t: Settings): Bin {
    Bin(t.width, t.height, t.numNodes)
  }

  /** Each of the first numNodes squares goes next to the one before. */
  lemma {:induction false} UnitsMakeRow(t: Settings, n: nat)
    requires 1 <= t.align && 1 <= t.height < SENTINEL_Y && n <= t.numNodes < t.width
      && t.numNodes - 1 + t.align <= t.width
    ensures PackRun(Of(t), Units(n, t.align, t.heuristic)) == Row(n, t.width)
    decreases n
  {
    if n > 0 {
      var rs := Units(n, t.align, t.heuristic);
      assert rs[..n - 1] == Units(n - 1, t.align, t.heuristic);
      UnitsMakeRow(t, n - 1);
      assert With(Of(t), rs[n - 1]) == t;
      RowStep(t, n - 1);
    } else {
      assert Row(0, t.width) == [Step(0, 0), Step(t.width, SENTINEL_Y)];
    }
  }

  lemma TimesAtLeast(a: nat, n: nat)
    requires 1 <= n
    ensures a <= a * n
  {
  }

  lemma QuotientAtMost(width: int, n: nat, d: int)
    requires 1 <= n < width && (width - n + 1 + d) * n <= width + n - 1
    ensures d <= 0
  {
    TimesAtLeast(width - n, n);
    assert (width - n + 1 + d) * n == (width - n) * n + n + d * n;
    assert d >= 1 ==> d * n >= n;
  }

  /** Every alignment the packer chooses leaves room for numNodes squares in a row. */
  lemma QuantumFits(width: int, numNodes: nat, allow: bool)
    requires 1 <= numNodes < width
    ensures 1 <= Quantum(width, numNodes, allow) && numNodes - 1 + Quantum(width, numNodes, allow) <= width
  {
    var q := (width + numNodes - 1) / numNodes;
    AlignPositive(width, numNodes);
    assert q * numNodes <= width + numNodes - 1;
    QuotientAtMost(width, numNodes, q - (width - numNodes + 1));
  }

  /** The alignment chosen is the least with which numNodes aligned widths cover the target, or 1. */
  lemma QuantumIsLeast(width: int, numNodes: nat, allow: bool)
    requires 1 <= numNodes && 1 <= width
    ensures var q := Quantum(width, numNodes, allow);
      if allow then q == 1 else 1 <= q && width <= Times(numNodes, q) && Times(numNodes, q - 1) < width
  {
    var q := (width + numNodes - 1) / numNodes;
    AlignPositive(width, numNodes);
    TimesIsProduct(numNodes, q);
    TimesIsProduct(numNodes, q - 1);
    assert numNodes * (q - 1) == q * numNodes - numNodes;
  }

  /** A target at least 2 high still has room on top of the row. */
  lemma RowHasRoom(t: Settings)
    requires 1 <= t.align <= t.width && 2 <= t.height && t.numNodes < t.width
      && SkyOk(Row(t.numNodes, t.width), t.width)
    ensures HasRoom(Row(t.numNodes, t.width), t.width, t.align, 1, t.height)
  {
    var s := Row(t.numNodes, t.width);
    forall c | 0 <= c < t.align
      ensures HeightAt(s, t.width, c) <= 1
    {
      RowHeight(t.numNodes, t.width, c);
    }
    TopAtMost(s, t.width, 0, t.align, 1);
    assert Level(s, t.width, 0, t.align) + 1 <= t.height;
  }

  lemma {:induction false} FlatStays(bin: Bin, rs: seq<Request>)
    requires 1 <= bin.width && bin.height == 0 && Proper(rs)
    ensures |PackRun(bin, rs)| == 2
    decreases |rs|
  {
    if rs != [] {
      FlatStays(bin, rs[..|rs| - 1]);
    }
  }

  /** Some run with these settings takes every node. */
  ghost predicate CanRunOut(t: Settings)
    requires Open(Of(t))
  {
    exists rs :: Proper(rs) && Steady(rs, t.align, t.heuristic) && |PackRun(Of(t), rs)| == t.numNodes + 2
  }

  /** And leaves room for another rectangle. */
  ghost predicate CanRefuse(t: Settings)
    requires Open(Of(t)) && 1 <= t.align
  {
    exists rs :: Proper(rs) && Steady(rs, t.align, t.heuristic) && OutOfNodes(PackRun(Of(t), rs), t)
  }

  /** Whatever settings the calls use. */
  lemma NeedsWidth(bin: Bin, rs: seq<Request>)
    requires Open(bin) && Proper(rs) && 1 <= bin.numNodes
    ensures |PackRun(bin, rs)| == bin.numNodes + 2 ==> bin.numNodes < bin.width && 0 < bin.height
  {
    StepCount(PackRun(bin, rs), bin.width);
    if bin.height == 0 {
      FlatStays(bin, rs);
    }
  }

  lemma UnitsRunOut(t: Settings)
    requires 1 <= t.align && 1 <= t.height < SENTINEL_Y && 1 <= t.numNodes < t.width
      && t.numNodes - 1 + t.align <= t.width
    ensures CanRunOut(t) && (2 <= t.height ==> CanRefuse(t))
  {
    var rs := Units(t.numNodes, t.align, t.heuristic);
    UnitsMakeRow(t, t.numNodes);
    assert |PackRun(Of(t), rs)| == t.numNodes + 2;
    if 2 <= t.height {
      AlignOnce(t.align);
      RowHasRoom(t);
      assert OutOfNodes(PackRun(Of(t), rs), t);
    }
  }

  /**
    Some run takes every node exactly when the target is wider than its number of nodes
    (and not of height 0, where nothing is ever packed), with either heuristic and either
    alignment. A target of height 2 or more then still has room for another rectangle.
  */
  lemma RunsOutExactly(width: int, height: int, numNodes: nat, allow: bool, heuristic: Heuristic)
    requires 1 <= width && 0 <= height < SENTINEL_Y && 1 <= numNodes && 1 <= Quantum(width, numNodes, allow)
    ensures var t := Settings(width, height, Quantum(width, numNodes, allow), heuristic, numNodes);
      && (CanRunOut(t) <==> numNodes < width && 0 < height)
      && (2 <= height ==> (CanRefuse(t) <==> numNodes < width))
  {
    var t := Settings(width, height, Quantum(width, numNodes, allow), heuristic, numNodes);
    if numNodes < width && 0 < height {
      QuantumFits(width, numNodes, allow);
      UnitsRunOut(t);
    }
    if CanRunOut(t) {
      var rs :| Proper(rs) && |PackRun(Of(t), rs)| == numNodes + 2;
      NeedsWidth(Of(t), rs);
    }
    if CanRefuse(t) {
      var rs :| Proper(rs) && OutOfNodes(PackRun(Of(t), rs), t);
      NeedsWidth(Of(t), rs);
    }
  }
}

/**
  The packer of thirdparty/imgui/imstb_rectpack.h as written: nodes linked in place
  into an active list (the skyline) and a free list, and the calls that work on them.

  The ghost field `sky` is the skyline the active list represents; every method is tied to the
  functions of modules Skyline and SkylineSearch on that value. The ghost field `placed` remembers the
  rectangles packed so far, and `Valid()` keeps them safe: inside the target, below the
  skyline, no two overlapping.
*/
module Packer {
  import opened Words
  import opened Skyline
  import opened SkylineSearch
  import opened SkylineRun
  import opened SkylineWaste

  class Node {
    var x: int
    var y: int
    var next: Node?

    constructor ()
    {
      x, y, next := 0, 0, null;
    }
  }

  /** A `stbrp_node **`: the head field, or the next field of a node. */
  datatype Link = HeadLink | After(node: Node)

  predicate Seat(xs: seq<Node>, i: int) {
    0 <= i < |xs|
  }

  ghost predicate Distinct(xs: seq<Node>) {
    forall i, j {:trigger Seat(xs, i), Seat(xs, j)} :: Seat(xs, i) && Seat(xs, j) && i != j ==> xs[i] != xs[j]
  }

  ghost predicate Within(xs: seq<Node>, pool: set<Node>) {
    forall i :: 0 <= i < |xs| ==> xs[i] in pool
  }

  ghost function Members(xs: seq<Node>): (pool: set<Node>)
    ensures Within(xs, pool)
  {
    set n | n in xs
  }

  lemma DistinctFrom(xs: seq<Node>, i: int)
    requires Distinct(xs) && 0 <= i < |xs|
    ensures forall j :: 0 <= j < |xs| && j != i ==> xs[j] != xs[i]
  {
    forall j | 0 <= j < |xs| && j != i
      ensures xs[j] != xs[i]
    {
      assert Seat(xs, i) && Seat(xs, j);
    }
  }

  /** nodes[lo..hi] are linked one to the next, and the last leads to `end`. */
  ghost predicate Run(nodes: seq<Node>, lo: nat, hi: nat, end: Node?)
    requires hi <= |nodes|
    reads nodes
  {
    forall i {:trigger nodes[i].next} :: lo <= i < hi ==> nodes[i].next == if i + 1 < hi then nodes[i + 1] else end
  }

  ghost predicate Chain(nodes: seq<Node>, end: Node?)
    reads nodes
  {
    Run(nodes, 0, |nodes|, end)
  }

  function First(nodes: seq<Node>, end: Node?): Node? {
    if nodes == [] then end else nodes[0]
  }

  /** The nodes are the steps of the skyline. */
  ghost predicate Shows(nodes: seq<Node>, s: Sky)
    reads nodes
  {
    |s| == |nodes| && forall i :: 0 <= i < |nodes| ==> nodes[i].x == s[i].x && nodes[i].y == s[i].y
  }

  lemma DistinctParts(a: Node, b: Node, rest: seq<Node>)
    requires Distinct([a, b] + rest)
    ensures a != b && Distinct(rest) && forall i :: 0 <= i < |rest| ==> rest[i] != a && rest[i] != b
  {
    var all := [a, b] + rest;
    DistinctFrom(all, 0);
    DistinctFrom(all, 1);
    forall i, j | Seat(rest, i) && Seat(rest, j) && i != j
      ensures rest[i] != rest[j]
    {
      DistinctFrom(all, i + 2);
      assert rest[i] == all[i + 2] && rest[j] == all[j + 2];
    }
    assert all[0] == a && all[1] == b;
    forall i | 0 <= i < |rest|
      ensures rest[i] != a && rest[i] != b
    {
      assert all[i + 2] == rest[i];
    }
  }

  lemma ChainOfTwo(a: Node, b: Node)
    requires a.next == b && b.next == null
    ensures Chain([a, b], null)
  {
  }

  // ---------- moving nodes between the lists ----------

  /** The free list after the nodes A[m..r] have been pushed on it one by one. */
  ghost function Pushed(A: seq<Node>, m: nat, r: nat, free: seq<Node>): (f: seq<Node>)
    requires m <= r <= |A|
    ensures |f| == r - m + |free|
  {
    if r == m then free else [A[r - 1]] + Pushed(A, m, r - 1, free)
  }

  lemma {:induction false} PushedAt(A: seq<Node>, m: nat, r: nat, free: seq<Node>, i: nat)
    requires m <= r <= |A| && i < r - m + |free|
    ensures Pushed(A, m, r, free)[i] == if i < r - m then A[r - 1 - i] else free[i - (r - m)]
  {
    if m < r && i > 0 {
      PushedAt(A, m, r - 1, free, i - 1);
    }
  }

  /** A node still in the active list is neither elsewhere in it nor in the free list. */
  lemma CurrentApart(A: seq<Node>, S: seq<Node>, m: nat, r: nat)
    requires Distinct(A + S) && m <= r < |A| && |S| > 0
    ensures forall j :: 0 <= j < |A| && j != r ==> A[j] != A[r]
    ensures forall i :: 0 <= i < |Pushed(A, m, r, S[1..])| ==> Pushed(A, m, r, S[1..])[i] != A[r]
  {
    DistinctFrom(A + S, r);
    forall j | 0 <= j < |A| && j != r
      ensures A[j] != A[r]
    {
      assert (A + S)[j] == A[j];
    }
    forall i | 0 <= i < |Pushed(A, m, r, S[1..])|
      ensures Pushed(A, m, r, S[1..])[i] != A[r]
    {
      PushedAt(A, m, r, S[1..], i);
      assert i >= r - m ==> (A + S)[|A| + i - (r - m) + 1] == S[1..][i - (r - m)];
    }
  }

  lemma RunPush(A: seq<Node>, m: nat, r: nat, free: seq<Node>)
    requires m <= r < |A| && Chain(Pushed(A, m, r, free), null)
    requires A[r].next == First(Pushed(A, m, r, free), null)
    ensures Chain(Pushed(A, m, r + 1, free), null)
  {
    var F, G := Pushed(A, m, r, free), Pushed(A, m, r + 1, free);
    forall i {:trigger G[i].next} | 0 <= i < |G|
      ensures G[i].next == if i + 1 < |G| then G[i + 1] else null
    {
      if i > 0 {
        assert G[i] == F[i - 1];
        assert F[i - 1].next == if i < |F| then F[i] else null;
      }
    }
  }

  /** The node taken for the new step is in neither list. */
  lemma TakenApart(A: seq<Node>, S: seq<Node>, m: nat, r: nat)
    requires Distinct(A + S) && m <= r <= |A| && |S| > 0
    ensures forall j :: 0 <= j < |A| ==> A[j] != S[0]
    ensures forall j :: 1 <= j < |S| ==> S[j] != S[0]
    ensures forall i :: 0 <= i < |Pushed(A, m, r, S[1..])| ==> Pushed(A, m, r, S[1..])[i] != S[0]
  {
    DistinctFrom(A + S, |A|);
    forall j | 0 <= j < |A|
      ensures A[j] != S[0]
    {
      assert (A + S)[j] == A[j];
    }
    forall j | 1 <= j < |S|
      ensures S[j] != S[0]
    {
      assert (A + S)[|A| + j] == S[j];
    }
    forall i | 0 <= i < |Pushed(A, m, r, S[1..])|
      ensures Pushed(A, m, r, S[1..])[i] != S[0]
    {
      PushedAt(A, m, r, S[1..], i);
    }
  }

  lemma ActiveApart(A: seq<Node>, S: seq<Node>, r: nat)
    requires Distinct(A + S) && r < |A|
    ensures forall j :: 0 <= j < |A| && j != r ==> A[j] != A[r]
    ensures forall j :: 0 <= j < |S| ==> S[j] != A[r]
  {
    DistinctFrom(A + S, r);
    forall j | 0 <= j < |A| && j != r
      ensures A[j] != A[r]
    {
      assert (A + S)[j] == A[j];
    }
    forall j | 0 <= j < |S|
      ensures S[j] != A[r]
    {
      assert (A + S)[|A| + j] == S[j];
    }
  }

  lemma ChainRest(S: seq<Node>)
    requires |S| > 0 && Chain(S, null)
    ensures S[0].next == First(S[1..], null) && Chain(S[1..], null)
  {
    assert S[0].next == if 1 < |S| then S[1] else null;
    forall i {:trigger S[1..][i].next} | 0 <= i < |S[1..]|
      ensures S[1..][i].next == if i + 1 < |S[1..]| then S[1..][i + 1] else null
    {
      assert S[1..][i] == S[i + 1];
      assert S[i + 1].next == if i + 2 < |S| then S[i + 2] else null;
    }
  }

  /** The active list with the nodes A[m..r] replaced by one. */
  ghost function Patched(A: seq<Node>, m: nat, r: nat, node: Node): (f: seq<Node>)
    requires m <= r <= |A|
    ensures |f| == |A| - (r - m) + 1
  {
    A[..m] + [node] + A[r..]
  }

  lemma PatchedAt(A: seq<Node>, m: nat, r: nat, node: Node, i: nat)
    requires m <= r <= |A| && i < |A| - (r - m) + 1
    ensures Patched(A, m, r, node)[i] == if i < m then A[i] else if i == m then node else A[i - 1 + (r - m)]
  {
  }

  lemma PatchedChain(A: seq<Node>, m: nat, r: nat, node: Node)
    requires m <= r < |A| && Run(A, 0, m, node) && node.next == A[r] && Run(A, r, |A|, null)
    ensures Chain(Patched(A, m, r, node), null)
  {
    var B := Patched(A, m, r, node);
    forall i {:trigger B[i].next} | 0 <= i < |B|
      ensures B[i].next == if i + 1 < |B| then B[i + 1] else null
    {
      PatchedAt(A, m, r, node, i);
      if i + 1 < |B| {
        PatchedAt(A, m, r, node, i + 1);
      }
    }
  }

  /** Where the node at index i of the two new lists stood in the two old ones. */
  function Origin(a: nat, m: nat, r: nat, i: nat): int {
    if i < m then i else if i == m then a
    else if i < a - (r - m) + 1 then i - 1 + (r - m)
    else if i - (a - (r - m) + 1) < r - m then r - 1 - (i - (a - (r - m) + 1))
    else i
  }

  lemma OriginOf(A: seq<Node>, S: seq<Node>, m: nat, r: nat, i: nat)
    requires m <= r < |A| && |S| > 0 && i < |A| + |S|
    ensures |Patched(A, m, r, S[0]) + Pushed(A, m, r, S[1..])| == |A| + |S|
    ensures 0 <= Origin(|A|, m, r, i) < |A| + |S|
    ensures (Patched(A, m, r, S[0]) + Pushed(A, m, r, S[1..]))[i] == (A + S)[Origin(|A|, m, r, i)]
  {
    var n := |A| - (r - m) + 1;
    if i < n {
      PatchedAt(A, m, r, S[0], i);
    } else {
      PushedAt(A, m, r, S[1..], i - n);
    }
  }

  /** No node is lost or doubled by the splice. */
  lemma SpliceConserves(A: seq<Node>, S: seq<Node>, m: nat, r: nat)
    requires m <= r < |A| && |S| > 0 && Distinct(A + S)
    ensures Distinct(Patched(A, m, r, S[0]) + Pushed(A, m, r, S[1..]))
  {
    var T := Patched(A, m, r, S[0]) + Pushed(A, m, r, S[1..]);
    forall i, j {:trigger Seat(T, i), Seat(T, j)} | Seat(T, i) && Seat(T, j) && i != j
      ensures T[i] != T[j]
    {
      OriginOf(A, S, m, r, i);
      OriginOf(A, S, m, r, j);
      DistinctFrom(A + S, Origin(|A|, m, r, i));
    }
  }

  lemma SpliceWithin(A: seq<Node>, S: seq<Node>, m: nat, r: nat, pool: set<Node>)
    requires m <= r < |A| && |S| > 0 && Within(A + S, pool)
    ensures Within(Patched(A, m, r, S[0]) + Pushed(A, m, r, S[1..]), pool)
  {
    var T := Patched(A, m, r, S[0]) + Pushed(A, m, r, S[1..]);
    forall i | 0 <= i < |T|
      ensures T[i] in pool
    {
      OriginOf(A, S, m, r, i);
    }
  }

  lemma WithinParts(A: seq<Node>, S: seq<Node>, pool: set<Node>)
    requires Within(A + S, pool)
    ensures (forall n :: n in A ==> n in pool) && (forall n :: n in S ==> n in pool)
  {
    assert forall i :: 0 <= i < |A| ==> (A + S)[i] == A[i];
    assert forall i :: 0 <= i < |S| ==> (A + S)[|A| + i] == S[i];
  }

  /** Once the node left standing has been moved to the right edge, the nodes show the new skyline. */
  lemma PatchedShows(A: seq<Node>, s: Sky, k: nat, x: int, w: int, top: int, r: nat, node: Node)
    requires |s| == |A| && k < |s| && Kept(s, k, x) < |s| && r == SkipTo(s, Kept(s, k, x), x + w)
    requires node.x == x && node.y == top && A[r].x == Max(s[r].x, x + w) && A[r].y == s[r].y
    requires forall i :: 0 <= i < |A| && i != r ==> A[i].x == s[i].x && A[i].y == s[i].y
    ensures Shows(Patched(A, Kept(s, k, x), r, node), Place(s, k, x, w, top))
  {
    var m := Kept(s, k, x);
    forall i: nat | i < |Place(s, k, x, w, top)|
      ensures Patched(A, m, r, node)[i].x == Place(s, k, x, w, top)[i].x
        && Patched(A, m, r, node)[i].y == Place(s, k, x, w, top)[i].y
    {
      PatchedAt(A, m, r, node, i);
      PlaceAt(s, k, x, w, top, i);
    }
  }

  class Packer {
    var width: int
    var height: int
    var align: int
    var heuristic: Heuristic
    var numNodes: nat
    var activeHead: Node?
    var freeHead: Node?
    const extra0: Node
    const extra1: Node
    ghost var active: seq<Node>
    ghost var spare: seq<Node>
    ghost var pool: set<Node>
    ghost var sky: Sky
    ghost var placed: seq<Placed>

    /** The active list can be walked from its head to the sentinel. */
    ghost predicate Walkable()
      reads this, active
    {
      activeHead == First(active, null) && Chain(active, null) && Shows(active, sky) && Bounded(sky, width)
    }

    /** Both lists well linked, every node of the pool on exactly one of them, and the nodes conserved. */
    ghost predicate Linked()
      reads this, active, spare
    {
      && activeHead == First(active, null) && Chain(active, null) && Shows(active, sky)
      && freeHead == First(spare, null) && Chain(spare, null)
      && Distinct(active + spare) && Within(active + spare, pool)
      && |active| + |spare| == numNodes + 2
    }

    ghost predicate Sound()
      reads this, active, spare
    {
      && Linked()
      && 1 <= align
      && SkyOk(sky, width)
      && Low(sky, height)
      && Safe(placed, sky, width, height)
    }

    ghost predicate Valid()
      reads this, active, spare
    {
      Sound() && FloorLast(sky)
    }

    /** The settings the search depends on. */
    ghost function Configured(): Settings
      reads this
    {
      Settings(width, height, align, heuristic, numNodes)
    }

    constructor ()
      ensures fresh(extra0) && fresh(extra1) && extra0 != extra1
    {
      extra0 := new Node();
      extra1 := new Node();
      width, height, align, heuristic, numNodes := 0, 0, 1, SkylineBL, 0;
      activeHead, freeHead, active, spare, pool, sky, placed := null, null, [], [], {}, [], [];
    }

    /** stbrp_init_target: one flat step as wide as the target, and all the caller's nodes free. */
    method InitTarget(width: int, height: int, nodes: seq<Node>)
      requires 1 <= width && 0 <= height < SENTINEL_Y && 1 <= |nodes|
      requires Distinct([extra0, extra1] + nodes)
      modifies this, extra0, extra1, nodes
      ensures Valid() && this.width == width && this.height == height && numNodes == |nodes|
      ensures heuristic == SkylineBL && align == Quantum(width, numNodes, false)
      ensures sky == [Step(0, 0), Step(width, SENTINEL_Y)] && placed == []
      ensures active == [extra0, extra1] && spare == nodes && pool == Members([extra0, extra1] + nodes)
    {
      DistinctParts(extra0, extra1, nodes);
      LinkAll(nodes);
      heuristic := SkylineBL;
      freeHead := nodes[0];
      activeHead := extra0;
      this.width := width;
      this.height := height;
      numNodes := |nodes|;
      SetupAllowOutOfMem(false);
      Flatten(width);
      Begin(nodes);
    }

    /** The lists and the skyline of an empty target. */
    ghost method Begin(nodes: seq<Node>)
      requires activeHead == extra0 && extra0.next == extra1 && extra1.next == null && extra0.x == extra0.y == 0
      requires extra1.x == width && extra1.y == SENTINEL_Y && 1 <= width && 0 <= height < SENTINEL_Y && 1 <= align
      requires Distinct([extra0, extra1] + nodes) && Chain(nodes, null) && freeHead == First(nodes, null)
        && |nodes| == numNodes
      modifies this`active, this`spare, this`sky, this`placed, this`pool
      ensures Valid() && sky == [Step(0, 0), Step(width, SENTINEL_Y)] && placed == []
      ensures active == [extra0, extra1] && spare == nodes && pool == Members([extra0, extra1] + nodes)
    {
      active, spare, sky, placed := [extra0, extra1], nodes, [Step(0, 0), Step(width, SENTINEL_Y)], [];
      pool := Members([extra0, extra1] + nodes);
      Ready();
    }

    /** Node 0 is the full width, node 1 the sentinel. */
    method Flatten(width: int)
      requires extra0 != extra1
      modifies extra0, extra1
      ensures extra0.x == 0 && extra0.y == 0 && extra0.next == extra1
      ensures extra1.x == width && extra1.y == SENTINEL_Y && extra1.next == null
    {
      extra0.x := 0;
      extra0.y := 0;
      extra0.next := extra1;
      extra1.x := width;
      extra1.y := SENTINEL_Y;
      extra1.next := null;
    }

    lemma Ready()
      requires active == [extra0, extra1] && activeHead == extra0 && extra0.next == extra1 && extra1.next == null
      requires sky == [Step(0, 0), Step(width, SENTINEL_Y)] && extra0.x == extra0.y == 0 && extra1.x == width
        && extra1.y == SENTINEL_Y
      requires Distinct([extra0, extra1] + spare) && Chain(spare, null) && freeHead == First(spare, null)
        && |spare| == numNodes
      requires Within([extra0, extra1] + spare, pool)
      requires 1 <= width && 0 <= height < SENTINEL_Y && 1 <= align && placed == []
      ensures Valid()
    {
      ChainOfTwo(extra0, extra1);
      FlatIsSafe(width, height);
    }

    method LinkAll(nodes: seq<Node>)
      requires 1 <= |nodes| && Distinct(nodes)
      modifies nodes
      ensures Chain(nodes, null)
    {
      var i := 0;
      while i < |nodes| - 1
        invariant 0 <= i <= |nodes| - 1
        invariant forall j :: 0 <= j < i ==> nodes[j].next == nodes[j + 1]
      {
        DistinctFrom(nodes, i);
        nodes[i].next := nodes[i + 1];
        i := i + 1;
      }
      DistinctFrom(nodes, i);
      nodes[i].next := null;
    }

    method SetupHeuristic(heuristic: Heuristic)
      requires Valid()
      modifies this`heuristic
      ensures Valid() && this.heuristic == heuristic
    {
      this.heuristic := heuristic;
    }

    /** Widths are rounded up to multiples of `align` while searching, unless running out of nodes is allowed. */
    method SetupAllowOutOfMem(allow: bool)
      requires 1 <= numNodes && 1 <= width
      modifies this`align
      ensures align == Quantum(width, numNodes, allow)
      ensures 1 <= align
      ensures old(Valid()) ==> Valid()
    {
      if allow {
        align := 1;
      } else {
        align := (width + numNodes - 1) / numNodes;
        AlignPositive(width, numNodes);
      }
    }

    /** The node a link leads to. */
    function Target(link: Link): Node?
      reads this, if link.After? then {link.node} else {}
    {
      match link
      case HeadLink => activeHead
      case After(n) => n.next
    }

    /** The link that leads to active[k]. */
    ghost predicate LeadsTo(link: Link, k: int)
      reads this
    {
      0 <= k < |active| && match link case HeadLink => k == 0 case After(n) => k > 0 && active[k - 1] == n
    }

    /** Left of the sentinel there is a next node. */
    lemma NextNode(j: int)
      requires Walkable() && 0 <= j < |active| && active[j].x < width
      ensures j + 1 < |active| && active[j].next == active[j + 1]
    {
    }

    /** The body of the loop in skyline_find_min_y. */
    method VisitNode(node: Node, next: Node, x0: int, w: int, minY0: int, visited0: int, waste0: int)
      returns (minY: int, visitedWidth: int, waste: int)
      ensures Scan(minY, visitedWidth, waste) ==
        Visit(Step(node.x, node.y), next.x, x0, w, Scan(minY0, visited0, waste0))
    {
      minY, visitedWidth, waste := minY0, visited0, waste0;
      if node.y > minY {
        TimesIsProduct(visitedWidth, node.y - minY);
        waste := waste + visitedWidth * (node.y - minY);
        minY := node.y;
        if node.x < x0 {
          visitedWidth := visitedWidth + (next.x - x0);
        } else {
          visitedWidth := visitedWidth + (next.x - node.x);
        }
      } else {
        var underWidth := next.x - node.x;
        if underWidth + visitedWidth > w {
          underWidth := w - visitedWidth;
        }
        TimesIsProduct(underWidth, minY - node.y);
        waste := waste + underWidth * (minY - node.y);
        visitedWidth := visitedWidth + underWidth;
      }
    }

    /** skyline_find_min_y from active[i]. */
    method FindMinimumY(first: Node, ghost i: nat, x0: int, w: int) returns (minY: int, waste: int)
      requires Walkable() && i < |active| && active[i] == first && x0 + w <= width
      ensures minY == FindMinY(sky, i, x0, w).minY && waste == FindMinY(sky, i, x0, w).waste
    {
      var node, visitedWidth := first, 0;
      minY, waste := 0, 0;
      ghost var s, j := sky, i;
      while node.x < x0 + w
        invariant i <= j < |active| && node == active[j]
        invariant ScanFrom(s, j, x0, w, Scan(minY, visitedWidth, waste)) == FindMinY(s, i, x0, w)
        decreases |active| - j
      {
        NextNode(j);
        minY, visitedWidth, waste := VisitNode(node, node.next, x0, w, minY, visitedWidth, waste);
        node := node.next;
        j := j + 1;
      }
    }

    /** The comparison in the body of the first loop of skyline_find_best_pos. */
    method ConsiderLeft(prev: Link, y: int, waste: int, h: int, best0: Option<Link>, bestY0: int, bestWaste0: int)
      returns (best: Option<Link>, bestY: int, bestWaste: int)
      ensures var better := Better(Job(0, h, height, heuristic), Best(best0.Some?, 0, 0, bestY0, bestWaste0),
        Scan(y, 0, waste));
        && best == (if better then Some(prev) else best0) && bestY == (if better then y else bestY0)
        && bestWaste == if better && heuristic.SkylineBF? then waste else bestWaste0
    {
      best, bestY, bestWaste := best0, bestY0, bestWaste0;
      if heuristic == SkylineBL {
        if y < bestY {
          bestY, best := y, Some(prev);
        }
      } else {
        if y + h <= height {
          if y < bestY || (y == bestY && waste < bestWaste) {
            bestY, bestWaste, best := y, waste, Some(prev);
          }
        }
      }
    }

    /** The locals of the first loop hold this best position. */
    ghost predicate HoldsLeft(b: Best, best: Option<Link>, bestY: int, bestWaste: int)
      reads this, active
    {
      && b.found == best.Some? && b.y == bestY && b.waste == bestWaste
      && (b.found ==> LeadsTo(best.value, b.k))
    }

    /** The body of the first loop. */
    method TryLeft(node: Node, prev: Link, w: int, h: int, best0: Option<Link>, bestY0: int, bestWaste0: int,
                   ghost b: Best, ghost n: nat)
      returns (best: Option<Link>, bestY: int, bestWaste: int)
      requires Walkable() && 0 < w && n < |active| && node == active[n] && LeadsTo(prev, n) && node.x + w <= width
      requires HoldsLeft(b, best0, bestY0, bestWaste0)
      ensures n < |sky| && HoldsLeft(LeftStep(sky, Job(w, h, height, heuristic), b, n), best, bestY, bestWaste)
    {
      var y, waste := FindMinimumY(node, n, node.x, w);
      best, bestY, bestWaste := ConsiderLeft(prev, y, waste, h, best0, bestY0, bestWaste0);
    }

    /** The first loop of skyline_find_best_pos: every step the rectangle can start at. */
    method FindLeft(w: int, h: int) returns (best: Option<Link>, bestY: int, bestWaste: int, ghost b: Best)
      requires Walkable() && 0 < w
      ensures b == LeftSearch(sky, Job(w, h, height, heuristic), LeftEnd(sky, width, w, 0))
      ensures HoldsLeft(b, best, bestY, bestWaste)
    {
      var node, prev := activeHead, HeadLink;
      best, bestY, bestWaste := None, SENTINEL_Y, SENTINEL_Y;
      ghost var s, job, n := sky, Job(w, h, height, heuristic), 0;
      b := LeftSearch(s, job, 0);
      while node.x + w <= width
        invariant 0 <= n < |active| && node == active[n] && LeadsTo(prev, n)
        invariant LeftEnd(s, width, w, n) == LeftEnd(s, width, w, 0)
        invariant b == LeftSearch(s, job, n) && HoldsLeft(b, best, bestY, bestWaste)
        decreases |active| - n
      {
        NextNode(n);
        best, bestY, bestWaste := TryLeft(node, prev, w, h, best, bestY, bestWaste, b, n);
        b := LeftStep(s, job, b, n);
        prev := After(node);
        node := node.next;
        n := n + 1;
      }
    }

    /** The inner loop of the right-aligned search: on to the step under xpos. */
    method Advance(node0: Node, prev0: Link, xpos: int, ghost i0: nat) returns (node: Node, prev: Link, ghost i: nat)
      requires Walkable() && i0 < |active| && active[i0] == node0 && LeadsTo(prev0, i0) && node0.x < width
        && xpos < width
      ensures i == AdvanceTo(sky, i0, xpos) && active[i] == node && LeadsTo(prev, i) && node.x < width
    {
      node, prev, i := node0, prev0, i0;
      ghost var s := sky;
      NextNode(i);
      while node.next.x <= xpos
        invariant i + 1 < |active| && active[i] == node && LeadsTo(prev, i) && node.x < width
          && node.next == active[i + 1]
        invariant AdvanceTo(s, i, xpos) == AdvanceTo(s, i0, xpos)
        decreases |active| - i
      {
        prev := After(node);
        node := node.next;
        i := i + 1;
        NextNode(i);
      }
    }

    /** The comparison in the body of the right-aligned search. */
    method ConsiderRight(prev: Link, x: int, y: int, waste: int, h: int, best0: Option<Link>, bestX0: int, bestY0: int,
      bestWaste0: int)
      returns (best: Option<Link>, bestX: int, bestY: int, bestWaste: int)
      ensures var better := BetterRight(Job(0, h, height, heuristic), Best(best0.Some?, 0, bestX0, bestY0, bestWaste0),
        Scan(y, 0, waste), x);
        && best == (if better then Some(prev) else best0) && bestX == (if better then x else bestX0)
        && bestY == (if better then y else bestY0) && bestWaste == if better then waste else bestWaste0
    {
      best, bestX, bestY, bestWaste := best0, bestX0, bestY0, bestWaste0;
      if y + h <= height {
        if y <= bestY {
          if y < bestY || waste < bestWaste || (waste == bestWaste && x < bestX) {
            best, bestX, bestY, bestWaste := Some(prev), x, y, waste;
          }
        }
      }
    }

    /** The first step the rectangle can end at. */
    method FirstTail(w: int) returns (tail: Node, ghost t0: nat)
      requires Walkable() && w <= width
      ensures t0 == FirstTailFrom(sky, w, 0) && t0 < |active| && tail == active[t0]
    {
      tail, t0 := activeHead, 0;
      ghost var s := sky;
      while tail.x < w
        invariant t0 < |active| && tail == active[t0] && FirstTailFrom(s, w, t0) == FirstTailFrom(s, w, 0)
        decreases |active| - t0
      {
        NextNode(t0);
        tail := tail.next;
        t0 := t0 + 1;
      }
    }

    /** The locals of the right-aligned loop hold this state. */
    ghost predicate HoldsRight(v: Sweep, node: Node?, prev: Link, best: Option<Link>, bestX: int, bestY: int,
      bestWaste: int)
      reads this, active
    {
      && v.i < |active| && active[v.i] == node && LeadsTo(prev, v.i) && node.x < width
      && v.best.x == bestX && HoldsLeft(v.best, best, bestY, bestWaste)
    }

    /** The body of the right-aligned loop. */
    method TryRight(xpos: int, w: int, h: int, node0: Node, prev0: Link, best0: Option<Link>, bestX0: int, bestY0: int,
      bestWaste0: int, ghost v: Sweep, ghost t: nat)
      returns (node: Node, prev: Link, best: Option<Link>, bestX: int, bestY: int, bestWaste: int)
      requires Walkable() && 0 < w && t < |active| && xpos == sky[t].x - w
      requires HoldsRight(v, node0, prev0, best0, bestX0, bestY0, bestWaste0)
      ensures v.i < |sky| && t < |sky|
      ensures HoldsRight(RightStep(sky, Job(w, h, height, heuristic), v, t), node, prev, best, bestX, bestY, bestWaste)
    {
      ghost var i;
      node, prev, i := Advance(node0, prev0, xpos, v.i);
      var y, waste := FindMinimumY(node, i, xpos, w);
      best, bestX, bestY, bestWaste := ConsiderRight(prev, xpos, y, waste, h, best0, bestX0, bestY0, bestWaste0);
    }

    /** The right-aligned loop from its first tail on. */
    method SweepRight(first: Node, w: int, h: int, best0: Option<Link>, bestX0: int, bestY0: int, bestWaste0: int,
      ghost left: Best, ghost t0: nat)
      returns (best: Option<Link>, bestX: int, bestY: int, ghost v: Sweep)
      requires Walkable() && 0 < w <= width && 2 <= |active| && t0 < |active| && first == active[t0]
      requires left.x == bestX0 && HoldsLeft(left, best0, bestY0, bestWaste0)
      ensures v == RightSearch(sky, Job(w, h, height, heuristic), left, t0, |active|)
      ensures exists waste :: v.best.x == bestX && HoldsLeft(v.best, best, bestY, waste)
    {
      best, bestX, bestY := best0, bestX0, bestY0;
      var bestWaste := bestWaste0;
      var node, prev := activeHead, HeadLink;
      ghost var s, job, t := sky, Job(w, h, height, heuristic), t0;
      v := Sweep(left, 0);
      var tail: Node? := first;
      while tail != null
        invariant t0 <= t <= |active| && tail == (if t < |active| then active[t] else null)
        invariant v == RightSearch(s, job, left, t0, t) && HoldsRight(v, node, prev, best, bestX, bestY, bestWaste)
        decreases |active| - t
      {
        var xpos := tail.x - w;
        node, prev, best, bestX, bestY, bestWaste :=
          TryRight(xpos, w, h, node, prev, best, bestX, bestY, bestWaste, v, t);
        v := RightStep(s, job, v, t);
        tail := tail.next;
        t := t + 1;
      }
    }

    /** The right-aligned search of skyline_find_best_pos: every step the rectangle can end at. */
    method FindRight(w: int, h: int, best0: Option<Link>, bestX0: int, bestY0: int, bestWaste0: int, ghost left: Best)
      returns (best: Option<Link>, bestX: int, bestY: int, ghost b: Best)
      requires Walkable() && 0 < w <= width && 2 <= |active|
      requires left.x == bestX0 && HoldsLeft(left, best0, bestY0, bestWaste0)
      ensures b == RightSearch(sky, Job(w, h, height, heuristic), left, FirstTailFrom(sky, w, 0), |active|).best
      ensures b.found == best.Some? && b.x == bestX && b.y == bestY && (b.found ==> LeadsTo(best.value, b.k))
    {
      ghost var t0, v;
      var tail;
      tail, t0 := FirstTail(w);
      best, bestX, bestY, v := SweepRight(tail, w, h, best0, bestX0, bestY0, bestWaste0, left, t0);
      b := v.best;
    }

    /** The start of the splice: the new node goes in after the steps kept on its left. */
    method Insert(link: Link, x: int, y: int, ghost k: nat, ghost A: seq<Node>, ghost S: seq<Node>, ghost s: Sky)
      returns (node: Node, cur: Node)
      requires Linked() && A == active && S == spare && s == sky && LeadsTo(link, k) && freeHead != null
        && Kept(s, k, x) < |s|
      modifies this`activeHead, this`freeHead, A, S
      ensures |S| > 0 && node == S[0] && node.x == x && node.y == y
      ensures freeHead == First(S[1..], null) && Chain(S[1..], null)
      ensures cur == A[Kept(s, k, x)] && Run(A, Kept(s, k, x), |A|, null) && Shows(A, s)
      ensures Run(A, 0, Kept(s, k, x), node) && activeHead == if Kept(s, k, x) == 0 then node else A[0]
    {
      TakenApart(A, S, 0, 0);
      ChainRest(S);
      ActiveApart(A, S, k);
      node := freeHead;
      node.x := x;
      node.y := y;
      freeHead := node.next;
      cur := Target(link);
      if cur.x < x {
        var next := cur.next;
        cur.next := node;
        cur := next;
      } else {
        match link
        case HeadLink => activeHead := node;
        case After(n) => ActiveApart(A, S, k - 1); n.next := node;
      }
    }

    /** One node from the active list to the free list. */
    method FreeNode(cur: Node, ghost A: seq<Node>, ghost m: nat, ghost r: nat, ghost S: seq<Node>, ghost s: Sky)
      returns (next: Node)
      requires m <= r < |A| - 1 && cur == A[r] && Run(A, r, |A|, null) && Shows(A, s)
      requires |S| > 0 && Distinct(A + S) && Run(A, 0, m, S[0])
      requires freeHead == First(Pushed(A, m, r, S[1..]), null) && Chain(Pushed(A, m, r, S[1..]), null)
      modifies this`freeHead, cur`next
      ensures Run(A, 0, m, S[0]) && next == A[r + 1] && Run(A, r + 1, |A|, null) && Shows(A, s)
      ensures freeHead == First(Pushed(A, m, r + 1, S[1..]), null) && Chain(Pushed(A, m, r + 1, S[1..]), null)
    {
      CurrentApart(A, S, m, r);
      next := cur.next;
      cur.next := freeHead;
      freeHead := cur;
      RunPush(A, m, r, S[1..]);
    }

    /** The loop of skyline_pack_rectangle that frees the nodes under the new one. */
    method Recycle(first: Node, end: int, ghost A: seq<Node>, ghost m: nat, ghost S: seq<Node>, ghost s: Sky)
      returns (cur: Node, ghost r: nat)
      requires m < |A| && first == A[m] && Run(A, m, |A|, null) && Shows(A, s)
      requires |S| > 0 && Distinct(A + S) && freeHead == First(S[1..], null) && Chain(S[1..], null)
      requires Run(A, 0, m, S[0])
      modifies this`freeHead, set i | m <= i < |A| :: A[i]
      ensures Run(A, 0, m, S[0]) && S[0].x == old(S[0].x) && S[0].y == old(S[0].y)
      ensures r == SkipTo(s, m, end) && cur == A[r] && Run(A, r, |A|, null) && Shows(A, s)
      ensures freeHead == First(Pushed(A, m, r, S[1..]), null) && Chain(Pushed(A, m, r, S[1..]), null)
    {
      cur, r := first, m;
      TakenApart(A, S, m, m);
      while cur.next != null && cur.next.x <= end
        invariant Run(A, 0, m, S[0]) && S[0].x == old(S[0].x) && S[0].y == old(S[0].y)
        invariant m <= r < |A| && cur == A[r] && Run(A, r, |A|, null) && Shows(A, s)
        invariant SkipTo(s, r, end) == SkipTo(s, m, end)
        invariant freeHead == First(Pushed(A, m, r, S[1..]), null) && Chain(Pushed(A, m, r, S[1..]), null)
        decreases |A| - r
      {
        cur := FreeNode(cur, A, m, r, S, s);
        r := r + 1;
      }
    }

    /** Both lists up to the stitch: the new node is in, the nodes under it are free. */
    method Cut(link: Link, x: int, y: int, w: int, ghost k: nat, ghost A: seq<Node>, ghost S: seq<Node>, ghost s: Sky)
      returns (node: Node, cur: Node, ghost m: nat, ghost r: nat)
      requires Linked() && A == active && S == spare && s == sky && LeadsTo(link, k) && freeHead != null
        && Kept(s, k, x) < |s|
      modifies this`activeHead, this`freeHead, A, S
      ensures |S| > 0 && node == S[0] && node.x == x && node.y == y && m == Kept(s, k, x)
      ensures activeHead == if m == 0 then node else A[0]
      ensures r == SkipTo(s, m, x + w) && cur == A[r]
      ensures Run(A, 0, m, node) && Run(A, r, |A|, null) && Shows(A, s)
      ensures freeHead == First(Pushed(A, m, r, S[1..]), null) && Chain(Pushed(A, m, r, S[1..]), null)
    {
      m := Kept(s, k, x);
      node, cur := Insert(link, x, y, k, A, S, s);
      cur, r := Recycle(cur, x + w, A, m, S, s);
    }

    /**
      The end of the splice: the list goes on from the node left standing, which starts at the
      right edge at the earliest.
    */
    static method Stitch(node: Node, cur: Node, x: int, y: int, w: int, ghost k: nat, ghost m: nat, ghost r: nat,
                         ghost A: seq<Node>, ghost S: seq<Node>, ghost s: Sky)
      requires |A| == |s| && k < |A| && m == Kept(s, k, x) < |A| && |S| > 0 && Distinct(A + S)
      requires r == SkipTo(s, m, x + w) && node == S[0] && cur == A[r] && node.x == x && node.y == y
      requires Run(A, 0, m, node) && Run(A, r, |A|, null) && Shows(A, s) && Chain(Pushed(A, m, r, S[1..]), null)
      modifies node`next, cur`x
      ensures Chain(Patched(A, m, r, node), null) && Chain(Pushed(A, m, r, S[1..]), null)
      ensures Shows(Patched(A, m, r, node), Place(s, k, x, w, y))
    {
      TakenApart(A, S, m, r);
      CurrentApart(A, S, m, r);
      node.next := cur;
      PatchedChain(A, m, r, node);
      if cur.x < x + w {
        cur.x := x + w;
      }
      PatchedShows(A, s, k, x, w, y, r, node);
    }

    /** The splice of skyline_pack_rectangle: a new node over [x, x + w), the nodes under it freed. */
    method Splice(link: Link, x: int, y: int, w: int, ghost k: nat)
      requires Linked() && LeadsTo(link, k) && freeHead != null && Kept(sky, k, x) < |sky|
      modifies this`activeHead, this`freeHead, this`active, this`spare, this`sky, pool
      ensures Linked() && sky == Place(old(sky), k, x, w, y)
    {
      ghost var A, S, s := active, spare, sky;
      WithinParts(A, S, pool);
      ghost var m, r;
      var node, cur;
      node, cur, m, r := Cut(link, x, y, w, k, A, S, s);
      Stitch(node, cur, x, y, w, k, m, r, A, S, s);
      Adopt(A, S, m, r, Place(s, k, x, w, y));
    }

    /** The lists and the skyline after the splice. */
    ghost method Adopt(A: seq<Node>, S: seq<Node>, m: nat, r: nat, after: Sky)
      requires m <= r < |A| && |S| > 0 && Distinct(A + S) && Within(A + S, pool) && |A| + |S| == numNodes + 2
      requires Chain(Patched(A, m, r, S[0]), null) && Chain(Pushed(A, m, r, S[1..]), null)
        && Shows(Patched(A, m, r, S[0]), after)
      requires freeHead == First(Pushed(A, m, r, S[1..]), null) && activeHead == if m == 0 then S[0] else A[0]
      modifies this`active, this`spare, this`sky
      ensures Linked() && sky == after
    {
      active, spare, sky := Patched(A, m, r, S[0]), Pushed(A, m, r, S[1..]), after;
      Relinked(A, S, m, r);
    }

    lemma Relinked(A: seq<Node>, S: seq<Node>, m: nat, r: nat)
      requires m <= r < |A| && |S| > 0 && Distinct(A + S) && Within(A + S, pool) && |A| + |S| == numNodes + 2
      requires active == Patched(A, m, r, S[0]) && spare == Pushed(A, m, r, S[1..])
      requires Chain(active, null) && Chain(spare, null) && Shows(active, sky)
      requires freeHead == First(spare, null) && activeHead == if m == 0 then S[0] else A[0]
      ensures Linked()
    {
      SpliceConserves(A, S, m, r);
      SpliceWithin(A, S, m, r, pool);
      PatchedAt(A, m, r, S[0], 0);
    }

    /** Rounds the width up to a multiple of `align`. */
    method Align(w0: int) returns (w: int)
      requires 0 <= w0 && 1 <= align
      ensures w == AlignedWidth(w0, align)
    {
      AlignFormula(w0, align);
      w := w0 + align - 1;
      w := w - w % align;
    }

    /** Both loops of skyline_find_best_pos. */
    method FindBoth(w: int, h: int) returns (best: Option<Link>, x: int, y: int, ghost b: Best)
      requires Walkable() && 2 <= |active| && 0 < w <= width
      ensures b.found == best.Some? && (b.found ==> b.x == x && b.y == y && LeadsTo(best.value, b.k))
      ensures b == BestPos(sky, width, Job(w, h, height, heuristic))
    {
      var bestWaste;
      best, y, bestWaste, b := FindLeft(w, h);
      x := if best == None then 0 else Target(best.value).x;
      if heuristic == SkylineBF {
        best, x, y, b := FindRight(w, h, best, x, y, bestWaste, b);
      }
    }

    /** skyline_find_best_pos. */
    method FindBestPos(w0: int, h: int) returns (best: Option<Link>, x: int, y: int, ghost b: Best)
      requires Walkable() && 2 <= |active| && 1 <= align && 0 < w0
      ensures b.found == best.Some? && (b.found ==> b.x == x && b.y == y && LeadsTo(best.value, b.k))
      ensures |sky| > 0 && b == Spotted(sky, Configured(), w0, h)
    {
      var w := Align(w0);
      if w > width || h > height {
        return None, 0, 0, Best(false, 0, 0, 0, 0);
      }
      best, x, y, b := FindBoth(w, h);
    }

    /** The search, in terms of what is under the rectangle. */
    method SearchSpot(w: int, h: int) returns (best: Option<Link>, x: int, y: int, ghost k: int)
      requires Valid() && 0 < w
      ensures forall u :: u == Configured() ==> SpotIs(sky, u, w, h, x, y, k, best.Some?)
      ensures best.Some? && y + h <= height <==> HasRoom(sky, width, AlignedWidth(w, align), h, height)
      ensures best.Some? && y + h <= height ==>
        && LeadsTo(best.value, k) && Candidate(sky, width, k, x, AlignedWidth(w, align))
          && y == FindMinY(sky, k, x, AlignedWidth(w, align)).minY
        && y == Level(sky, width, x, AlignedWidth(w, align)) && Lowest(sky, width, AlignedWidth(w, align), y)
    {
      ghost var b;
      best, x, y, b := FindBestPos(w, h);
      Outcome(sky, width, Job(AlignedWidth(w, align), h, height, heuristic), b);
      k := b.k;
    }

    /** The splice at a position found. */
    method Commit(link: Link, x: int, y: int, w: int, h: int, ghost k: nat, ghost a: int) returns (ghost e: int)
      requires Sound() && LeadsTo(link, k) && freeHead != null && Candidate(sky, width, k, x, a) && 0 < w <= a && 0 < h
      requires y == FindMinY(sky, k, x, a).minY && y + h <= height
      modifies this`activeHead, this`freeHead, this`active, this`spare, this`sky, this`placed, pool
      ensures Sound() && placed == old(placed) + [Placed(x, y, w, h)]
      ensures Kept(old(sky), k, x) < |old(sky)| && sky == Place(old(sky), k, x, w, y + h)
      ensures w <= e <= a && Raises(old(sky), sky, width, x, e, y + h)
    {
      ghost var s, earlier := sky, placed;
      CandidateKept(s, width, k, x, a);
      e := RaisedWidth(s, k, x, w);
      Splice(link, x, y + h, w, k);
      placed := placed + [Placed(x, y, w, h)];
      Committed(s, earlier, x, y, w, h, k, a, e);
    }

    lemma Committed(s: Sky, earlier: seq<Placed>, x: int, y: int, w: int, h: int, k: nat, a: int, e: int)
      requires Linked() && 1 <= align && Low(s, height) && Safe(earlier, s, width, height)
      requires Candidate(s, width, k, x, a) && 0 < w <= a && 0 < h && y == FindMinY(s, k, x, a).minY && 0 <= y
        && y + h <= height
      requires Kept(s, k, x) < |s| && sky == Place(s, k, x, w, y + h) && e == RaisedWidth(s, k, x, w)
      requires placed == earlier + [Placed(x, y, w, h)]
      ensures Sound() && w <= e <= a && Raises(s, sky, width, x, e, y + h)
    {
      PlaceAtCandidate(s, sky, width, k, x, a, w, y + h, e);
      PlaceLow(s, sky, height, k, x, w, y + h);
      PackSafe(earlier, s, sky, width, height, k, x, a, w, h, e);
    }

    lemma NodeLeft()
      requires Valid()
      ensures freeHead != null <==> spare != []
      ensures freeHead != null <==> |sky| != numNodes + 2
      ensures SettingsFit(sky, Configured())
    {
    }

    /**
      skyline_pack_rectangle: succeeds exactly when there is room for the aligned width
      and a free node, at the lowest position there is. That the new skyline is `PackSky`
      is stated of any settings equal to these, so that callers unfold it only on demand.
    */
    method PackRectangle(w: int, h: int) returns (ok: bool, x: int, y: int, ghost e: int)
      requires Valid() && 0 < w && 0 < h
      modifies this`activeHead, this`freeHead, this`active, this`spare, this`sky, this`placed, pool
      ensures Valid()
      ensures ok <==> HasRoom(old(sky), width, AlignedWidth(w, align), h, height) && old(spare) != []
      ensures forall u :: u == Configured() ==> sky == PackSky(old(sky), u, w, h)
      ensures ok ==> placed == old(placed) + [Placed(x, y, w, h)]
      ensures ok ==>
        0 <= x && x + AlignedWidth(w, align) <= width && y == Level(old(sky), width, x, AlignedWidth(w, align))
      ensures ok ==> Lowest(old(sky), width, AlignedWidth(w, align), y)
      ensures ok ==> w <= e <= AlignedWidth(w, align) && Raises(old(sky), sky, width, x, e, y + h)
      ensures !ok ==> sky == old(sky) && placed == old(placed) && active == old(active) && spare == old(spare)
    {
      var best;
      ghost var k;
      ghost var s := sky;
      NodeLeft();
      best, x, y, k := SearchSpot(w, h);
      ok := best != None && y + h <= height && freeHead != null;
      if ok {
        e := Commit(best.value, x, y, w, h, k, AlignedWidth(w, align));
      } else {
        e := 0;
      }
      PackedSky(s, Configured(), w, h, x, y, k, best.Some?, sky);
      PackedFloor(s, Configured(), w, h, sky);
    }

    /**
      Whatever has been packed, each scan of a position the search may try finds exactly the
      height and the area lost there.
    */
    lemma ScansExact(i: nat, x0: int, w: int)
      requires Valid() && Covers(sky, i, x0) && 0 <= x0 && 0 < w && x0 + w <= width
      ensures var v := FindMinY(sky, i, x0, w);
        v.minY == Top(sky, width, x0, x0 + w) && v.waste == Waste(sky, width, x0, x0 + w, v.minY)
    {
      FloorExact(sky, width, i, x0, w);
    }

    /** With as many nodes as columns, packing never runs out of nodes, whatever the alignment. */
    lemma NodesSuffice()
      requires Valid() && width <= numNodes
      ensures spare != []
    {
      StepCount(sky, width);
    }
  }
}

/**
  stbrp_pack_rects of thirdparty/imgui/imstb_rectpack.h: sort by height, pack one by
  one, put back in order. `Sort` stands for the C library's qsort; only its contract is
  used, so the result holds for any sort.
*/
module PackRects {
  import opened Words
  import opened Skyline
  import opened SkylineSearch
  import Packer

  const MAXVAL := 0x7fff_ffff

  datatype Rect = Rect(id: int, w: int, h: int, x: int, y: int, wasPacked: int)

  function RectHeightCompare(p: Rect, q: Rect): int {
    if p.h > q.h then -1 else if p.h < q.h then 1 else if p.w > q.w then -1 else if p.w < q.w then 1 else 0
  }

  function RectOriginalOrder(p: Rect, q: Rect): int {
    if p.wasPacked < q.wasPacked then -1 else if p.wasPacked > q.wasPacked then 1 else 0
  }

  /** What a sort asks of its comparison. */
  ghost predicate Comparison(cmp: (Rect, Rect) -> int) {
    && (forall p, q :: cmp(p, q) > 0 ==> cmp(q, p) <= 0)
    && (forall p, q, r :: cmp(p, q) <= 0 && cmp(q, r) <= 0 ==> cmp(p, r) <= 0)
  }

  ghost predicate Sorted(s: seq<Rect>, cmp: (Rect, Rect) -> int) {
    forall i, j :: 0 <= i < j < |s| ==> cmp(s[i], s[j]) <= 0
  }

  /** s is t rearranged: s[i] was t[p[i]], and p takes each index once. */
  ghost predicate Rearranged(s: seq<Rect>, t: seq<Rect>, p: seq<nat>) {
    && |s| == |t| == |p|
    && (forall i :: 0 <= i < |p| ==> p[i] < |t| && s[i] == t[p[i]])
    && (forall i, j :: 0 <= i < j < |p| ==> p[i] != p[j])
  }

  /** Sorted up to i, except that s[j] may still have to move down. */
  ghost predicate SortedBut(s: seq<Rect>, cmp: (Rect, Rect) -> int, i: nat, j: nat) {
    forall x, y :: 0 <= x < y <= i && y < |s| && y != j ==> cmp(s[x], s[y]) <= 0
  }

  function Swapped<T>(s: seq<T>, j: nat): seq<T>
    requires 0 < j < |s|
  {
    s[j - 1 := s[j]][j := s[j - 1]]
  }

  lemma SwapRearranged(s: seq<Rect>, t: seq<Rect>, p: seq<nat>, j: nat)
    requires Rearranged(s, t, p) && 0 < j < |s|
    ensures Rearranged(Swapped(s, j), t, Swapped(p, j))
  {
  }

  lemma SwapSorts(s: seq<Rect>, cmp: (Rect, Rect) -> int, i: nat, j: nat)
    requires Comparison(cmp) && SortedBut(s, cmp, i, j) && 0 < j <= i < |s| && cmp(s[j - 1], s[j]) > 0
    ensures SortedBut(Swapped(s, j), cmp, i, j - 1)
  {
  }

  lemma Settled(s: seq<Rect>, cmp: (Rect, Rect) -> int, i: nat, j: nat)
    requires Comparison(cmp) && SortedBut(s, cmp, i, j) && j <= i < |s| && (j == 0 || cmp(s[j - 1], s[j]) <= 0)
    ensures SortedBut(s, cmp, i + 1, i + 1)
  {
    forall x, y | 0 <= x < y <= i + 1 && y < |s| && y != i + 1
      ensures cmp(s[x], s[y]) <= 0
    {
      if y == j && x < j - 1 {
        assert cmp(s[x], s[j - 1]) <= 0;
      }
    }
  }

  lemma AllSorted(s: seq<Rect>, cmp: (Rect, Rect) -> int, i: nat)
    requires SortedBut(s, cmp, i, i) && |s| <= i
    ensures Sorted(s, cmp)
  {
  }

  lemma Untouched(s: seq<Rect>)
    ensures Rearranged(s, s, seq(|s|, i => i))
  {
  }

  /** Moves a[i] down to its place. */
  method Sink(a: array<Rect>, cmp: (Rect, Rect) -> int, i: nat, ghost t: seq<Rect>, ghost p0: seq<nat>)
    returns (ghost p: seq<nat>)
    requires Comparison(cmp) && i < a.Length && SortedBut(a[..], cmp, i, i) && Rearranged(a[..], t, p0)
    modifies a
    ensures SortedBut(a[..], cmp, i + 1, i + 1) && Rearranged(a[..], t, p)
  {
    var j := i;
    p := p0;
    ghost var s := a[..];
    while j > 0 && cmp(a[j - 1], a[j]) > 0
      invariant 0 <= j <= i && a[..] == s && |s| == a.Length
      invariant SortedBut(s, cmp, i, j)
      invariant Rearranged(s, t, p)
    {
      SwapSorts(s, cmp, i, j);
      SwapRearranged(s, t, p, j);
      s, p := Swapped(s, j), Swapped(p, j);
      a[j - 1], a[j] := a[j], a[j - 1];
      j := j - 1;
    }
    Settled(s, cmp, i, j);
  }

  method Sort(a: array<Rect>, cmp: (Rect, Rect) -> int) returns (ghost p: seq<nat>)
    requires Comparison(cmp)
    modifies a
    ensures Sorted(a[..], cmp) && Rearranged(a[..], old(a[..]), p)
  {
    ghost var t := a[..];
    Untouched(t);
    p := seq(|t|, i => i);
    var i := 0;
    while i < a.Length
      invariant i <= a.Length && SortedBut(a[..], cmp, i, i) && Rearranged(a[..], t, p)
    {
      p := Sink(a, cmp, i, t, p);
      i := i + 1;
    }
    AllSorted(a[..], cmp, i);
  }

  // ---------- packing the sorted rectangles ----------

  /** The rectangle was given a place of its own. */
  predicate Shown(r: Rect) {
    0 < r.w && 0 < r.h && !(r.x == MAXVAL && r.y == MAXVAL)
  }

  /** The rectangle was refused. */
  predicate Refused(r: Rect) {
    r.x == MAXVAL && r.y == MAXVAL
  }

  function Box(r: Rect): Placed {
    Placed(r.x, r.y, r.w, r.h)
  }

  /** The places given, in order. */
  ghost function Boxes(s: seq<Rect>): seq<Placed> {
    if s == [] then [] else
      var init, last := s[..|s| - 1], s[|s| - 1];
      if Shown(last) then Boxes(init) + [Box(last)] else Boxes(init)
  }

  /** Same rectangle, but for the place. */
  predicate Same(r: Rect, q: Rect) {
    r.id == q.id && r.w == q.w && r.h == q.h && r.wasPacked == q.wasPacked
  }

  /** Empty rectangles are put at the origin and take no place. */
  predicate Settles(r: Rect) {
    (r.w == 0 || r.h == 0) ==> r.x == 0 && r.y == 0
  }

  /** The skyline is nowhere lower. */
  ghost predicate Higher(s: Sky, t: Sky, width: int) {
    && SkyOk(s, width) && SkyOk(t, width)
    && forall c :: 0 <= c < width ==> HeightAt(s, width, c) <= HeightAt(t, width, c)
  }

  lemma RaisedIsHigher(s: Sky, t: Sky, width: int, x: int, w: int, a: int, h: int)
    requires SkyOk(s, width) && 0 <= x && w <= a && x + a <= width && 0 <= h
    requires Raises(s, t, width, x, w, Level(s, width, x, a) + h)
    ensures Higher(s, t, width)
  {
    forall c | 0 <= c < width
      ensures HeightAt(s, width, c) <= HeightAt(t, width, c)
    {
      if x <= c < x + w {
        UnderTop(s, width, x, a, c);
      }
    }
  }

  lemma HigherTop(s: Sky, t: Sky, width: int, x0: int, x1: int)
    requires Higher(s, t, width) && 0 <= x0 && x1 <= width
    ensures Top(s, width, x0, x1) <= Top(t, width, x0, x1)
    decreases x1 - x0
  {
    if x0 < x1 {
      HigherTop(s, t, width, x0, x1 - 1);
    }
  }

  /** What has no room never has room later. */
  lemma NoRoomLater(s: Sky, t: Sky, width: int, w: int, h: int, height: int)
    requires Higher(s, t, width) && !HasRoom(s, width, w, h, height)
    ensures !HasRoom(t, width, w, h, height)
  {
    forall x | 0 <= x && x + w <= width
      ensures Level(t, width, x, w) + h > height
    {
      HigherTop(s, t, width, x, x + w);
      assert Level(s, width, x, w) + h > height;
    }
  }

  /** Every node is in use. */
  predicate Full(s: Sky, u: Settings) {
    |s| == u.numNodes + 2
  }

  /** Every rectangle refused is one the target has no room for. */
  ghost predicate RefusedForRoom(s: seq<Rect>, sky: Sky, u: Settings)
    requires SkyOk(sky, u.width) && 1 <= u.align
  {
    forall i :: 0 <= i < |s| && Refused(s[i]) ==>
      !HasRoom(sky, u.width, AlignedWidth(s[i].w, u.align), s[i].h, u.height)
  }

  ghost predicate RaisedBy(s: Sky, t: Sky, width: int, x: int, w: int, a: int, top: int)
    requires SkyOk(s, width) && SkyOk(t, width)
  {
    exists e :: w <= e <= a && Raises(s, t, width, x, e, top)
  }

  /** A rectangle that is not empty: placed as low as can be if there is room and a node, and else nothing happens. */
  ghost predicate Filled(ok: bool, x: int, y: int, w: int, h: int, s: Sky, t: Sky, u: Settings) {
    && 1 <= u.align && SkyOk(s, u.width) && SkyOk(t, u.width)
    && var a := AlignedWidth(w, u.align);
      && (ok <==> HasRoom(s, u.width, a, h, u.height) && !Full(s, u))
      && (ok ==> 0 <= x && x + a <= u.width && y == Level(s, u.width, x, a) && Lowest(s, u.width, a, y))
      && (ok ==> RaisedBy(s, t, u.width, x, w, a, y + h))
      && (!ok ==> t == s)
  }

  /** What one turn of the loop makes of a rectangle. */
  ghost predicate Turn(q: Rect, s: Sky, t: Sky, u: Settings) {
    && 1 <= u.align && SkyOk(s, u.width) && SkyOk(t, u.width)
    && if q.w == 0 || q.h == 0 then q.x == q.y == 0 && t == s
       else Filled(!Refused(q), q.x, q.y, q.w, q.h, s, t, u)
  }

  /** Every rectangle had its turn, in this order, on the skyline those before it left. */
  ghost predicate Turns(rs: seq<Rect>, skies: seq<Sky>, u: Settings) {
    |skies| == |rs| + 1 && forall i :: 0 <= i < |rs| ==> Turn(rs[i], skies[i], skies[i + 1], u)
  }

  lemma TurnsSnoc(rs: seq<Rect>, skies: seq<Sky>, q: Rect, t: Sky, u: Settings)
    requires Turns(rs, skies, u) && Turn(q, skies[|rs|], t, u)
    ensures Turns(rs + [q], skies + [t], u)
  {
  }

  lemma TurnsSettle(rs: seq<Rect>, skies: seq<Sky>, u: Settings)
    requires Turns(rs, skies, u)
    ensures forall i :: 0 <= i < |rs| ==> Settles(rs[i])
  {
    forall i | 0 <= i < |rs|
      ensures Settles(rs[i])
    {
      assert Turn(rs[i], skies[i], skies[i + 1], u);
    }
  }

  /** The skyline only rises, and once every node is in use it stays as it is. */
  lemma TurnRises(q: Rect, s: Sky, t: Sky, u: Settings)
    requires Turn(q, s, t, u) && 0 <= q.w && 0 <= q.h
    ensures Higher(s, t, u.width) && (Full(s, u) ==> t == s)
  {
    if t != s {
      var a := AlignedWidth(q.w, u.align);
      var e :| q.w <= e <= a && Raises(s, t, u.width, q.x, e, q.y + q.h);
      RaisedIsHigher(s, t, u.width, q.x, e, a, q.h);
    }
  }

  /** A rectangle refused in its turn: no room then, or no node then and so none now. */
  lemma {:induction false} RefusedInTurn(rs: seq<Rect>, skies: seq<Sky>, u: Settings, i: nat, j: nat)
    requires Turns(rs, skies, u) && (forall k :: 0 <= k < |rs| ==> 0 <= rs[k].w && 0 <= rs[k].h)
    requires i < j <= |rs| && Refused(rs[i])
    ensures 1 <= u.align && SkyOk(skies[j], u.width)
    ensures Full(skies[j], u) || !HasRoom(skies[j], u.width, AlignedWidth(rs[i].w, u.align), rs[i].h, u.height)
    decreases j
  {
    assert Turn(rs[j - 1], skies[j - 1], skies[j], u);
    var a, h := AlignedWidth(rs[i].w, u.align), rs[i].h;
    if i < j - 1 {
      RefusedInTurn(rs, skies, u, i, j - 1);
      TurnRises(rs[j - 1], skies[j - 1], skies[j], u);
      if !Full(skies[j - 1], u) {
        NoRoomLater(skies[j - 1], skies[j], u.width, a, h, u.height);
      }
    }
  }

  lemma TurnsRefuse(rs: seq<Rect>, skies: seq<Sky>, u: Settings)
    requires Turns(rs, skies, u) && (forall k :: 0 <= k < |rs| ==> 0 <= rs[k].w && 0 <= rs[k].h)
    requires 1 <= u.align && SkyOk(skies[|rs|], u.width) && !Full(skies[|rs|], u)
    ensures RefusedForRoom(rs, skies[|rs|], u)
  {
    forall i | 0 <= i < |rs| && Refused(rs[i])
      ensures !HasRoom(skies[|rs|], u.width, AlignedWidth(rs[i].w, u.align), rs[i].h, u.height)
    {
      RefusedInTurn(rs, skies, u, i, |rs|);
    }
  }

  /** The call of skyline_pack_rectangle, in terms of heights and room. */
  method PackFilled(c: Packer.Packer, w: int, h: int) returns (ok: bool, x: int, y: int)
    requires c.Valid() && 0 < w && 0 < h
    modifies c, c.pool
    ensures c.Valid() && c.Configured() == old(c.Configured()) && c.pool == old(c.pool)
    ensures c.placed == old(c.placed) + (if ok then [Placed(x, y, w, h)] else [])
    ensures Filled(ok, x, y, w, h, old(c.sky), c.sky, c.Configured())
  {
    ghost var s, e := c.sky, 0;
    c.NodeLeft();
    ok, x, y, e := c.PackRectangle(w, h);
    assert ok ==> RaisedBy(s, c.sky, c.width, x, w, AlignedWidth(w, c.align), y + h);
  }

  /** One rectangle of the loop in stbrp_pack_rects. */
  method PackOne(c: Packer.Packer, r: Rect) returns (q: Rect)
    requires c.Valid() && 0 <= r.w && 0 <= r.h
    modifies c, c.pool
    ensures c.Valid() && c.Configured() == old(c.Configured()) && c.pool == old(c.pool)
    ensures Same(q, r) && Turn(q, old(c.sky), c.sky, c.Configured())
    ensures c.placed == old(c.placed) + (if Shown(q) then [Box(q)] else [])
  {
    if r.w == 0 || r.h == 0 {
      q := r.(x := 0, y := 0);
    } else {
      var ok, x, y := PackFilled(c, r.w, r.h);
      if ok {
        q := r.(x := x, y := y);
        assert Inside(c.placed[|c.placed| - 1], c.width, c.height);
      } else {
        q := r.(x := MAXVAL, y := MAXVAL);
      }
    }
  }

  lemma BoxesSnoc(s: seq<Rect>, r: Rect)
    ensures Boxes(s + [r]) == Boxes(s) + if Shown(r) then [Box(r)] else []
  {
    assert (s + [r])[..|s|] == s;
  }

  lemma BoxesGrow(base: seq<Placed>, s: seq<Rect>, r: Rect)
    ensures base + Boxes(s) + (if Shown(r) then [Box(r)] else []) == base + Boxes(s + [r])
  {
    BoxesSnoc(s, r);
    Associate(base, Boxes(s), if Shown(r) then [Box(r)] else []);
  }

  /** The first |done| rectangles packed, the others as they were. */
  ghost predicate Progress(now: seq<Rect>, was: seq<Rect>, done: seq<Rect>) {
    && |now| == |was| && |done| <= |was|
    && (forall j :: 0 <= j < |done| ==> now[j] == done[j] && Same(done[j], was[j]))
    && (forall j :: |done| <= j < |was| ==> now[j] == was[j])
  }

  lemma OneDone(now: seq<Rect>, was: seq<Rect>, done: seq<Rect>, q: Rect)
    requires Progress(now, was, done) && |done| < |was| && Same(q, was[|done|])
    ensures Progress(now[|done| := q], was, done + [q])
  {
  }

  /** One round of the loop. */
  method PackAt(c: Packer.Packer, a: array<Rect>, i: nat)
    requires c.Valid() && i < a.Length && 0 <= a[i].w && 0 <= a[i].h
    modifies a, c, c.pool
    ensures c.Valid() && c.Configured() == old(c.Configured()) && c.pool == old(c.pool)
    ensures a[..] == old(a[..])[i := a[i]] && Same(a[i], old(a[i]))
    ensures Turn(a[i], old(c.sky), c.sky, c.Configured())
    ensures c.placed == old(c.placed) + (if Shown(a[i]) then [Box(a[i])] else [])
  {
    var q := PackOne(c, a[i]);
    a[i] := q;
  }

  /** The loop of stbrp_pack_rects over the sorted rectangles. */
  method PackAll(c: Packer.Packer, a: array<Rect>) returns (ghost skies: seq<Sky>)
    requires c.Valid() && forall i :: 0 <= i < a.Length ==> 0 <= a[i].w && 0 <= a[i].h
    modifies a, c, c.pool
    ensures c.Valid() && c.Configured() == old(c.Configured())
    ensures forall i :: 0 <= i < a.Length ==> Same(a[i], old(a[i])) && Settles(a[i])
    ensures c.placed == old(c.placed) + Boxes(a[..])
    ensures Turns(a[..], skies, c.Configured()) && skies[0] == old(c.sky) && skies[a.Length] == c.sky
  {
    ghost var base, was, done := c.placed, a[..], [];
    skies := [c.sky];
    var i := 0;
    while i < a.Length
      invariant i <= a.Length && c.Valid() && c.pool == old(c.pool) && c.Configured() == old(c.Configured())
      invariant |done| == i && Progress(a[..], was, done)
      invariant c.placed == base + Boxes(done)
      invariant Turns(done, skies, c.Configured()) && skies[0] == old(c.sky) && skies[i] == c.sky
    {
      ghost var now := a[..];
      PackAt(c, a, i);
      ghost var q := a[i];
      OneDone(now, was, done, q);
      TurnsSnoc(done, skies, q, c.sky, c.Configured());
      BoxesGrow(base, done, q);
      done, skies := done + [q], skies + [c.sky];
      i := i + 1;
    }
    assert a[..] == done;
    TurnsSettle(done, skies, c.Configured());
  }

  // ---------- what the places given have in common ----------

  /** Taller first, and wider first among equally tall. */
  ghost predicate Descending(ps: seq<Placed>) {
    forall i, j :: 0 <= i < j < |ps| ==> ps[i].h > ps[j].h || (ps[i].h == ps[j].h && ps[i].w >= ps[j].w)
  }

  lemma {:induction false} BoxOrigin(s: seq<Rect>, k: nat) returns (i: nat)
    requires k < |Boxes(s)|
    ensures i < |s| && Boxes(s)[k] == Box(s[i])
    decreases |s|
  {
    var init := s[..|s| - 1];
    if k < |Boxes(init)| {
      i := BoxOrigin(init, k);
    } else {
      i := |init|;
    }
  }

  lemma {:induction false} BoxesDescending(s: seq<Rect>)
    requires Sorted(s, RectHeightCompare)
    ensures Descending(Boxes(s))
    decreases |s|
  {
    if s != [] {
      var init, last := s[..|s| - 1], s[|s| - 1];
      BoxesDescending(init);
      forall k | 0 <= k < |Boxes(init)|
        ensures Boxes(init)[k].h > last.h || (Boxes(init)[k].h == last.h && Boxes(init)[k].w >= last.w)
      {
        var i := BoxOrigin(init, k);
        assert RectHeightCompare(s[i], last) <= 0;
      }
    }
  }

  lemma SortedSame(s: seq<Rect>, t: seq<Rect>)
    requires Sorted(s, RectHeightCompare) && |s| == |t| && forall i :: 0 <= i < |t| ==> Same(t[i], s[i])
    ensures Sorted(t, RectHeightCompare)
  {
    forall i, j | 0 <= i < j < |t|
      ensures RectHeightCompare(t[i], t[j]) <= 0
    {
      assert RectHeightCompare(s[i], s[j]) <= 0;
    }
  }

  /** The places given since `earlier`. */
  ghost predicate TallestFirst(earlier: seq<Placed>, placed: seq<Placed>) {
    earlier <= placed && Descending(placed[|earlier|..])
  }

  /** The place of a shown rectangle comes after the places of those before it. */
  lemma {:induction false} BoxAt(s: seq<Rect>, i: nat)
    requires i < |s| && Shown(s[i])
    ensures |Boxes(s[..i])| < |Boxes(s)| && Boxes(s)[|Boxes(s[..i])|] == Box(s[i])
    decreases |s|
  {
    var init := s[..|s| - 1];
    if i < |init| {
      BoxAt(init, i);
      assert init[..i] == s[..i];
    }
  }

  lemma {:induction false} BoxesBefore(s: seq<Rect>, i: nat, j: nat)
    requires i < j <= |s| && Shown(s[i])
    ensures |Boxes(s[..i])| < |Boxes(s[..j])|
  {
    BoxAt(s[..j], i);
    assert s[..j][..i] == s[..i];
  }

  /**
    Every shown rectangle is inside the target, and it overlaps neither an earlier place nor
    another one of its own list.
  */
  ghost predicate Laid(s: seq<Rect>, earlier: seq<Placed>, width: int, height: int) {
    && (forall i :: 0 <= i < |s| && Shown(s[i]) ==> Inside(Box(s[i]), width, height))
    && (forall i, k :: 0 <= i < |s| && Shown(s[i]) && 0 <= k < |earlier| ==> Apart(earlier[k], Box(s[i])))
    && (forall i, j :: 0 <= i < |s| && 0 <= j < |s| && i != j && Shown(s[i]) && Shown(s[j]) ==>
      Apart(Box(s[i]), Box(s[j])))
  }

  lemma ApartFromOthers(s: seq<Rect>, earlier: seq<Placed>, i: nat, j: nat)
    requires i < j < |s| && Shown(s[i]) && Shown(s[j])
    requires forall k, l :: 0 <= k < l < |earlier + Boxes(s)| ==>
      Apart((earlier + Boxes(s))[k], (earlier + Boxes(s))[l])
    ensures Apart(Box(s[i]), Box(s[j])) && Apart(Box(s[j]), Box(s[i]))
  {
    BoxAt(s, i);
    BoxAt(s, j);
    BoxesBefore(s, i, j);
    var k, l := |earlier| + |Boxes(s[..i])|, |earlier| + |Boxes(s[..j])|;
    assert Apart((earlier + Boxes(s))[k], (earlier + Boxes(s))[l]);
  }

  lemma BoxesLaid(s: seq<Rect>, earlier: seq<Placed>, sky: Sky, width: int, height: int)
    requires Safe(earlier + Boxes(s), sky, width, height)
    ensures Laid(s, earlier, width, height)
  {
    var all := earlier + Boxes(s);
    forall i | 0 <= i < |s| && Shown(s[i])
      ensures Inside(Box(s[i]), width, height) && forall k :: 0 <= k < |earlier| ==> Apart(earlier[k], Box(s[i]))
    {
      BoxAt(s, i);
      var n := |earlier| + |Boxes(s[..i])|;
      assert all[n] == Box(s[i]) && Inside(all[n], width, height);
      assert forall k :: 0 <= k < |earlier| ==> all[k] == earlier[k] && Apart(all[k], all[n]);
    }
    forall i, j | 0 <= i < |s| && 0 <= j < |s| && i != j && Shown(s[i]) && Shown(s[j])
      ensures Apart(Box(s[i]), Box(s[j]))
    {
      ApartFromOthers(s, earlier, if i < j then i else j, if i < j then j else i);
    }
  }

  lemma LaidRearranged(s: seq<Rect>, t: seq<Rect>, p: seq<nat>, earlier: seq<Placed>, width: int, height: int)
    requires Rearranged(s, t, p) && Laid(t, earlier, width, height)
    ensures Laid(s, earlier, width, height)
  {
  }

  /** Ascending and within 0 .. n - 1: the identity. */
  lemma {:induction false} AtLeast(f: seq<nat>, i: nat)
    requires i < |f| && forall x, y :: 0 <= x < y < |f| ==> f[x] < f[y]
    ensures i <= f[i]
    decreases i
  {
    if i > 0 {
      AtLeast(f, i - 1);
      assert f[i - 1] < f[i];
    }
  }

  lemma {:induction false} AtMost(f: seq<nat>, i: nat)
    requires i < |f| && forall x, y :: 0 <= x < y < |f| ==> f[x] < f[y]
    requires forall x :: 0 <= x < |f| ==> f[x] < |f|
    ensures f[i] <= i
    decreases |f| - i
  {
    if i + 1 < |f| {
      AtMost(f, i + 1);
      assert f[i] < f[i + 1];
    }
  }

  /** One list sorted by height, packed, and sorted back. */
  lemma OrderRestored(a: seq<Rect>, s: seq<Rect>, t: seq<Rect>, r: seq<Rect>, p: seq<nat>, q: seq<nat>)
    requires forall i :: 0 <= i < |a| ==> a[i].wasPacked == i
    requires Rearranged(s, a, p) && |t| == |s| && (forall i :: 0 <= i < |s| ==> Same(t[i], s[i]))
    requires Rearranged(r, t, q) && Sorted(r, RectOriginalOrder)
    ensures |r| == |a| && forall i :: 0 <= i < |a| ==> Same(r[i], a[i])
  {
    var f := seq(|a|, i requires 0 <= i < |a| => p[q[i]]);
    assert forall i :: 0 <= i < |a| ==> Same(r[i], a[f[i]]) && r[i].wasPacked == f[i];
    forall x, y | 0 <= x < y < |f|
      ensures f[x] < f[y]
    {
      assert RectOriginalOrder(r[x], r[y]) <= 0 && q[x] != q[y];
      Injective(p, q[x], q[y]);
    }
    forall i | 0 <= i < |a|
      ensures Same(r[i], a[i])
    {
      AtLeast(f, i);
      AtMost(f, i);
    }
  }

  lemma Injective(p: seq<nat>, x: nat, y: nat)
    requires (forall i, j :: 0 <= i < j < |p| ==> p[i] != p[j]) && x < |p| && y < |p| && x != y
    ensures p[x] != p[y]
  {
    assert if x < y then p[x] != p[y] else p[y] != p[x];
  }

  lemma RefusedRearranged(s: seq<Rect>, t: seq<Rect>, p: seq<nat>, sky: Sky, u: Settings)
    requires Rearranged(s, t, p) && SkyOk(sky, u.width) && 1 <= u.align && RefusedForRoom(t, sky, u)
    ensures RefusedForRoom(s, sky, u)
  {
  }

  lemma Arranged(s: seq<Rect>, t: seq<Rect>, p: seq<nat>)
    requires Rearranged(s, t, p) && forall i :: 0 <= i < |t| ==> 0 <= t[i].w && 0 <= t[i].h
    ensures |s| == |t| && forall i :: 0 <= i < |s| ==> 0 <= s[i].w && 0 <= s[i].h
  {
  }

  lemma SettledRearranged(s: seq<Rect>, t: seq<Rect>, p: seq<nat>)
    requires Rearranged(s, t, p) && forall i :: 0 <= i < |t| ==> Settles(t[i])
    ensures |s| == |t| && forall i :: 0 <= i < |s| ==> Settles(s[i])
  {
  }

  /**
    Rectangles a came out as r: each settled, laid apart inside the target, and refused only
    for room if a node is left.
  */
  ghost predicate CameOut(r: seq<Rect>, a: seq<Rect>, earlier: seq<Placed>, sky: Sky, u: Settings) {
    && |r| == |a| && (forall i :: 0 <= i < |r| ==> Same(r[i], a[i]) && Settles(r[i]))
    && Laid(r, earlier, u.width, u.height) && SkyOk(sky, u.width) && 1 <= u.align
    && (!Full(sky, u) ==> RefusedForRoom(r, sky, u))
  }

  /** Sorting back keeps what was packed, and every rectangle is at its index again. */
  lemma Returned(a: seq<Rect>, s: seq<Rect>, t: seq<Rect>, r: seq<Rect>, p: seq<nat>, q: seq<nat>,
                 earlier: seq<Placed>, sky: Sky, u: Settings)
    requires forall i :: 0 <= i < |a| ==> a[i].wasPacked == i
    requires Rearranged(s, a, p) && CameOut(t, s, earlier, sky, u)
    requires Rearranged(r, t, q) && Sorted(r, RectOriginalOrder)
    ensures CameOut(r, a, earlier, sky, u)
  {
    OrderRestored(a, s, t, r, p, q);
    SettledRearranged(r, t, q);
    LaidRearranged(r, t, q, earlier, u.width, u.height);
    if !Full(sky, u) {
      RefusedRearranged(r, t, q, sky, u);
    }
  }

  /** The second sort, which the packer has no part in. */
  method SortBack(c: Packer.Packer, rects: array<Rect>) returns (ghost q: seq<nat>)
    requires c.Valid()
    modifies rects
    ensures c.Valid() && Sorted(rects[..], RectOriginalOrder) && Rearranged(rects[..], old(rects[..]), q)
  {
    q := Sort(rects, RectOriginalOrder);
  }

  /** The two sorts with the packing between them, in the order `t`. */
  method PackInOrder(c: Packer.Packer, rects: array<Rect>)
    returns (ghost t: seq<Rect>, ghost q: seq<nat>, ghost skies: seq<Sky>)
    requires c.Valid() && forall i :: 0 <= i < rects.Length ==>
      0 <= rects[i].w && 0 <= rects[i].h && rects[i].wasPacked == i
    modifies rects, c, c.pool
    ensures c.Valid() && c.Configured() == old(c.Configured()) && TallestFirst(old(c.placed), c.placed)
    ensures CameOut(rects[..], old(rects[..]), old(c.placed), c.sky, c.Configured())
    ensures Rearranged(rects[..], t, q) && Ordered(t, skies, old(c.sky), c.sky, c.Configured())
  {
    ghost var a := rects[..];
    ghost var p := Sort(rects, RectHeightCompare);
    ghost var s := rects[..];
    Arranged(s, a, p);
    t, skies := PackSorted(c, rects);
    q := SortBack(c, rects);
    Returned(a, s, t, rects[..], p, q, old(c.placed), c.sky, c.Configured());
  }

  /** Tallest first, each rectangle had its turn, from one skyline to another. */
  ghost predicate Ordered(t: seq<Rect>, skies: seq<Sky>, first: Sky, last: Sky, u: Settings) {
    Sorted(t, RectHeightCompare) && Turns(t, skies, u) && skies[0] == first && skies[|t|] == last
  }

  method PackSorted(c: Packer.Packer, a: array<Rect>) returns (ghost t: seq<Rect>, ghost skies: seq<Sky>)
    requires c.Valid() && forall i :: 0 <= i < a.Length ==> 0 <= a[i].w && 0 <= a[i].h
    requires Sorted(a[..], RectHeightCompare)
    modifies a, c, c.pool
    ensures c.Valid() && c.Configured() == old(c.Configured()) && TallestFirst(old(c.placed), c.placed)
    ensures t == a[..] && CameOut(t, old(a[..]), old(c.placed), c.sky, c.Configured())
    ensures Ordered(t, skies, old(c.sky), c.sky, c.Configured())
  {
    ghost var s := a[..];
    skies := PackAll(c, a);
    t := a[..];
    SortedSame(s, t);
    BoxesDescending(t);
    assert c.placed[|old(c.placed)|..] == Boxes(t);
    BoxesLaid(t, old(c.placed), c.sky, c.width, c.height);
    if !Full(c.sky, c.Configured()) {
      TurnsRefuse(t, skies, c.Configured());
    }
  }

  /** Same rectangle in the same place. */
  predicate Stays(r: Rect, q: Rect) {
    r == q.(wasPacked := r.wasPacked)
  }

  /** The flags at the end of stbrp_pack_rects. */
  method SetFlags(a: array<Rect>) returns (all: bool)
    modifies a
    ensures forall i :: 0 <= i < a.Length ==> Stays(a[i], old(a[i])) && a[i].wasPacked == if Refused(a[i]) then 0 else 1
    ensures all <==> forall i :: 0 <= i < a.Length ==> !Refused(a[i])
  {
    all := true;
    var i := 0;
    while i < a.Length
      invariant i <= a.Length
      invariant forall j :: 0 <= j < i ==> Stays(a[j], old(a[j])) && a[j].wasPacked == if Refused(a[j]) then 0 else 1
      invariant forall j :: i <= j < a.Length ==> a[j] == old(a[j])
      invariant all <==> forall j :: 0 <= j < i ==> !Refused(a[j])
    {
      var packed := !(a[i].x == MAXVAL && a[i].y == MAXVAL);
      a[i] := a[i].(wasPacked := if packed then 1 else 0);
      if !packed {
        all := false;
      }
      i := i + 1;
    }
  }

  method Number(a: array<Rect>)
    modifies a
    ensures forall i :: 0 <= i < a.Length ==> a[i] == old(a[i]).(wasPacked := i)
  {
    var i := 0;
    while i < a.Length
      invariant i <= a.Length
      invariant forall j :: 0 <= j < i ==> a[j] == old(a[j]).(wasPacked := j)
      invariant forall j :: i <= j < a.Length ==> a[j] == old(a[j])
    {
      a[i] := a[i].(wasPacked := i);
      i := i + 1;
    }
  }

  lemma LaidStays(s: seq<Rect>, t: seq<Rect>, earlier: seq<Placed>, width: int, height: int)
    requires |s| == |t| && (forall i :: 0 <= i < |s| ==> Stays(s[i], t[i])) && Laid(t, earlier, width, height)
    ensures Laid(s, earlier, width, height)
  {
    assert forall i :: 0 <= i < |s| ==> (Shown(s[i]) <==> Shown(t[i])) && Box(s[i]) == Box(t[i]);
  }

  lemma RefusedStays(s: seq<Rect>, t: seq<Rect>, sky: Sky, u: Settings)
    requires |s| == |t| && (forall i :: 0 <= i < |s| ==> Stays(s[i], t[i])) && SkyOk(sky, u.width) && 1 <= u.align
    requires RefusedForRoom(t, sky, u)
    ensures RefusedForRoom(s, sky, u)
  {
    assert forall i :: 0 <= i < |s| ==> (Refused(s[i]) <==> Refused(t[i])) && s[i].w == t[i].w && s[i].h == t[i].h;
  }

  /** Rectangle i is the one that had turn q[i], and each had one. */
  ghost predicate TookTurns(rects: seq<Rect>, order: seq<Rect>, q: seq<nat>) {
    && |rects| == |order| == |q|
    && (forall i :: 0 <= i < |q| ==> q[i] < |order| && Stays(rects[i], order[q[i]]))
    && (forall i, j :: 0 <= i < j < |q| ==> q[i] != q[j])
  }

  /**
    stbrp_pack_rects: every rectangle is back at its index, and those given a place are
    inside the target and apart from each other and from everything packed before. They had
    their turns tallest first, and in its turn each was placed as low as can be if there was
    room for it and a node. So if a node is left in the end, only rectangles without room
    are refused, and with as many nodes as columns one is always left.
  */
  method PackRects(c: Packer.Packer, rects: array<Rect>)
    returns (all: bool, ghost order: seq<Rect>, ghost q: seq<nat>, ghost skies: seq<Sky>)
    requires c.Valid() && forall i :: 0 <= i < rects.Length ==> 0 <= rects[i].w && 0 <= rects[i].h
    modifies rects, c, c.pool
    ensures c.Valid() && c.Configured() == old(c.Configured())
    ensures forall i :: 0 <= i < rects.Length ==>
      && rects[i].id == old(rects[i].id) && rects[i].w == old(rects[i].w) && rects[i].h == old(rects[i].h)
      && Settles(rects[i]) && rects[i].wasPacked == if Refused(rects[i]) then 0 else 1
    ensures all <==> forall i :: 0 <= i < rects.Length ==> !Refused(rects[i])
    ensures TallestFirst(old(c.placed), c.placed) && Laid(rects[..], old(c.placed), c.width, c.height)
    ensures TookTurns(rects[..], order, q) && Ordered(order, skies, old(c.sky), c.sky, c.Configured())
    ensures c.spare != [] || c.width <= c.numNodes ==> RefusedForRoom(rects[..], c.sky, c.Configured())
  {
    Number(rects);
    order, q, skies := PackInOrder(c, rects);
    ghost var r := rects[..];
    all := SetFlags(rects);
    LaidStays(rects[..], r, old(c.placed), c.width, c.height);
    c.NodeLeft();
    if c.width <= c.numNodes {
      c.NodesSuffice();
    }
    if c.spare != [] {
      RefusedStays(rects[..], r, c.sky, c.Configured());
    }
  }
}

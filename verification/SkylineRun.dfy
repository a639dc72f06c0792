/**
  Whole runs of stbrp_pack_rectangle (thirdparty/imgui/imstb_rectpack.h), on the value of
  the skyline, with the settings of the target changed between the calls or not.

  A step of height 0 is always the last one, before the sentinel: the search puts a
  rectangle on the floor only at the start of that step. So no scan of skyline_find_min_y
  ever counts columns left of the rectangle, and although its waste is not exact on every
  skyline (module SkylineWaste), on those of a run it is: `EveryScanExact`.
*/
module SkylineRun {
  import opened Words
  import opened Skyline
  import opened SkylineSearch
  import opened SkylineWaste

  // ---------- one rectangle ----------

  lemma PlacedFits(s: Sky, after: Sky, t: Settings, k: nat, x: int, a: int, w: int, top: int)
    requires SettingsFit(s, t) && Candidate(s, t.width, k, x, a) && 0 < w <= a && 0 <= top <= t.height
    requires Kept(s, k, x) < |s| && after == Place(s, k, x, w, top)
    ensures SettingsFit(after, t)
  {
    PlaceAtCandidate(s, after, t.width, k, x, a, w, top, RaisedWidth(s, k, x, w));
    PlaceLow(s, after, t.height, k, x, w, top);
  }

  /** The position found is a candidate, and the rectangle is spliced there. */
  ghost predicate SplicedAt(s: Sky, t: Settings, b: Best, w: int, h: int, after: Sky)
    requires 1 <= t.align
  {
    && Candidate(s, t.width, b.k, b.x, AlignedWidth(w, t.align)) && 0 <= b.y && b.y + h <= t.height
    && 0 <= b.k < |s| && Kept(s, b.k, b.x) < |s| && after == Place(s, b.k, b.x, w, b.y + h)
  }

  lemma PacksAt(s: Sky, t: Settings, w: int, h: int)
    requires SettingsFit(s, t) && 0 < w && 0 < h && Packs(s, t, w, h)
    ensures SplicedAt(s, t, Spotted(s, t, w, h), w, h, PackSky(s, t, w, h))
  {
    var b, a := Spotted(s, t, w, h), AlignedWidth(w, t.align);
    Outcome(s, t.width, Job(a, h, t.height, t.heuristic), b);
    CandidateKept(s, t.width, b.k, b.x, a);
  }

  lemma SplicedFits(s: Sky, t: Settings, b: Best, w: int, h: int, after: Sky)
    requires SettingsFit(s, t) && 0 < w && 0 < h && SplicedAt(s, t, b, w, h, after)
    ensures SettingsFit(after, t)
  {
    PlacedFits(s, after, t, b.k, b.x, AlignedWidth(w, t.align), w, b.y + h);
  }

  /** One rectangle leaves a skyline of the same target. */
  lemma PackSkyFits(s: Sky, t: Settings, w: int, h: int)
    requires SettingsFit(s, t) && 0 < w && 0 < h
    ensures SettingsFit(PackSky(s, t, w, h), t)
  {
    if Packs(s, t, w, h) {
      PacksAt(s, t, w, h);
      SplicedFits(s, t, Spotted(s, t, w, h), w, h, PackSky(s, t, w, h));
    }
  }

  // ---------- the floor ----------

  /** Only the last step before the sentinel may be of height 0. */
  ghost predicate FloorLast(s: Sky) {
    forall i :: 0 <= i < |s| - 2 ==> 0 < s[i].y
  }

  /** A scan on the floor finds height 0 and no waste. */
  lemma FloorScan(s: Sky, width: int, k: nat, x: int, w: int)
    requires SkyOk(s, width) && k + 2 == |s| && s[k].y == 0 && s[k].x <= x && 0 < w && x + w <= width
    ensures FindMinY(s, k, x, w).minY == 0 && FindMinY(s, k, x, w).waste == 0
  {
    var under := s[k + 1].x - s[k].x;
    TimesIsProduct(if under > w then w else under, 0);
    assert ScanFrom(s, k, x, w, Scan(0, 0, 0)) == ScanFrom(s, k + 1, x, w, ScanStep(s, k, x, w, Scan(0, 0, 0)));
  }

  /** Inside the floor step a position loses to the start of the step. */
  lemma StartsFloor(s: Sky, width: int, job: Job, b: Best)
    requires SkyOk(s, width) && FloorLast(s) && 0 < job.w && b.found && Chosen(s, width, job, b)
    requires b.y + job.h <= job.height && s[b.k].y == 0
    ensures s[b.k].x == b.x
  {
    FloorScan(s, width, b.k, b.x, job.w);
    FloorScan(s, width, b.k, s[b.k].x, job.w);
    assert LeftFits(s, width, b.k, job.w);
    assert Loses(job, b, LeftScan(s, b.k, job.w), s[b.k].x);
  }

  /** The search never puts a rectangle inside the floor step. */
  lemma SpotStartsFloor(s: Sky, t: Settings, w: int, h: int)
    requires SettingsFit(s, t) && FloorLast(s) && 0 < w && 0 < h && Packs(s, t, w, h)
    ensures var b := Spotted(s, t, w, h); 0 <= b.k < |s| && (s[b.k].y == 0 ==> s[b.k].x == b.x)
  {
    var b, job := Spotted(s, t, w, h), Job(AlignedWidth(w, t.align), h, t.height, t.heuristic);
    BestPosChosen(s, t.width, job);
    if s[b.k].y == 0 {
      StartsFloor(s, t.width, job, b);
    }
  }

  lemma PlacedFloorAt(s: Sky, width: int, k: nat, x: int, w: int, top: int, i: nat)
    requires SkyOk(s, width) && FloorLast(s) && Covers(s, k, x) && 0 < w && 0 < top && (s[k].y == 0 ==> s[k].x == x)
    requires Kept(s, k, x) < |s| && i + 2 < |Place(s, k, x, w, top)|
    ensures 0 < Place(s, k, x, w, top)[i].y
  {
    PlaceAt(s, k, x, w, top, i);
  }

  lemma PackSkyFloor(s: Sky, t: Settings, w: int, h: int)
    requires SettingsFit(s, t) && FloorLast(s) && 0 < w && 0 < h
    ensures FloorLast(PackSky(s, t, w, h))
  {
    if Packs(s, t, w, h) {
      PacksAt(s, t, w, h);
      SpotStartsFloor(s, t, w, h);
      SplicedFloor(s, t, Spotted(s, t, w, h), w, h, PackSky(s, t, w, h));
    }
  }

  lemma SplicedFloor(s: Sky, t: Settings, b: Best, w: int, h: int, after: Sky)
    requires SettingsFit(s, t) && FloorLast(s) && 0 < w && 0 < h && SplicedAt(s, t, b, w, h, after)
    requires s[b.k].y == 0 ==> s[b.k].x == b.x
    ensures FloorLast(after)
  {
    forall i: nat | i + 2 < |after|
      ensures 0 < after[i].y
    {
      PlacedFloorAt(s, t.width, b.k, b.x, w, b.y + h, i);
    }
  }

  /** The same where the new skyline is known as `PackSky` only. */
  lemma PackedFloor(s: Sky, t: Settings, w: int, h: int, after: Sky)
    requires SettingsFit(s, t) && FloorLast(s) && 0 < w && 0 < h && forall u :: u == t ==> after == PackSky(s, u, w, h)
    ensures FloorLast(after)
  {
    PackSkyFloor(s, t, w, h);
    assert after == PackSky(s, t, w, h);
  }

  /** Where the floor is last, every scan that starts over its left edge finds exactly the area lost. */
  lemma FloorExact(s: Sky, width: int, i: nat, x0: int, w: int)
    requires SkyOk(s, width) && FloorLast(s) && Covers(s, i, x0) && 0 <= x0 && 0 < w && x0 + w <= width
    ensures var v := FindMinY(s, i, x0, w);
      v.minY == Top(s, width, x0, x0 + w) && v.waste == Waste(s, width, x0, x0 + w, v.minY)
  {
    FindMinYExact(s, width, i, x0, w);
    WasteExactly(s, width, i, x0, w);
  }

  // ---------- runs ----------

  /** What stbrp_init_target is given. */
  datatype Bin = Bin(width: int, height: int, numNodes: nat)

  /** A rectangle, and the settings it is packed with. */
  datatype Request = Request(w: int, h: int, align: int, heuristic: Heuristic)

  function With(bin: Bin, r: Request): Settings {
    Settings(bin.width, bin.height, r.align, r.heuristic, bin.numNodes)
  }

  predicate Proper(rs: seq<Request>) {
    forall i :: 0 <= i < |rs| ==> 0 < rs[i].w && 0 < rs[i].h && 1 <= rs[i].align
  }

  predicate Open(bin: Bin) {
    1 <= bin.width && 0 <= bin.height < SENTINEL_Y
  }

  /** A whole run of stbrp_pack_rectangle, from a flat target. */
  ghost function PackRun(bin: Bin, rs: seq<Request>): (s: Sky)
    requires Open(bin) && Proper(rs)
    ensures SkyOk(s, bin.width) && Low(s, bin.height) && FloorLast(s)
    decreases |rs|
  {
    if rs == [] then [Step(0, 0), Step(bin.width, SENTINEL_Y)]
    else
      var last := rs[|rs| - 1];
      var before := PackRun(bin, rs[..|rs| - 1]);
      PackSkyFits(before, With(bin, last), last.w, last.h);
      PackSkyFloor(before, With(bin, last), last.w, last.h);
      PackSky(before, With(bin, last), last.w, last.h)
  }

  /**
    In every run, for every position a rectangle of width w could have, skyline_find_min_y
    finds exactly the highest column under it and exactly the area lost under it.
  */
  lemma EveryScanExact(bin: Bin, rs: seq<Request>, i: nat, x0: int, w: int)
    requires Open(bin) && Proper(rs) && Covers(PackRun(bin, rs), i, x0) && 0 <= x0 && 0 < w && x0 + w <= bin.width
    ensures var s := PackRun(bin, rs); var v := FindMinY(s, i, x0, w);
      v.minY == Top(s, bin.width, x0, x0 + w) && v.waste == Waste(s, bin.width, x0, x0 + w, v.minY)
  {
    FloorExact(PackRun(bin, rs), bin.width, i, x0, w);
  }
}

// Per-frame pedestrian height for the BPI recordings: the LiDAR estimate (crop around
// the pedestrian, local ground, head percentile, plausibility checks), the keypoint
// fallback, and the per-frame series with the source of each value.
module PedHeight {
  import opened Common
  import Paths
  import BpiColumns

  // ---------------------------------------------------------------------------
  // Candidate point-cloud directories.
  // ---------------------------------------------------------------------------

  const StandardSubdirs: seq<string> := ["sync_pcl1", "sync_pcl1_mat", "pcl1", "pcl2"]

  /** The root is itself a LiDAR folder. */
  predicate IsLidarFolder(root: string)
  {
    var base := Lower(Paths.Basename(root));
    StartsWith(base, "sync_") || base == "pcl1" || base == "pcl2"
  }

  /** The folders worth probing: the root itself, or its four standard subfolders. */
  function ProbeRoots(root: string): (r: seq<string>)
    ensures IsLidarFolder(root) ==> r == [root]
    ensures !IsLidarFolder(root) ==> |r| == 4 && forall k | 0 <= k < 4 :: r[k] == Paths.Join(root, StandardSubdirs[k])
  {
    if IsLidarFolder(root) then [root]
    else seq(4, k requires 0 <= k < 4 => Paths.Join(root, StandardSubdirs[k]))
  }

  /**
   * _candidate_dirs_from_root: the root, then each probed folder that exists and is not
   * already listed. `isDir` plays os.path.isdir.
   */
  method CandidateDirs(root: string, isDir: string -> bool) returns (cands: seq<string>)
    ensures |cands| > 0 && cands[0] == root
    ensures NoDup(cands)
    ensures forall k | 1 <= k < |cands| :: cands[k] in ProbeRoots(root) && isDir(cands[k])
    ensures forall k | 0 <= k < |ProbeRoots(root)| :: isDir(ProbeRoots(root)[k]) ==> ProbeRoots(root)[k] in cands
    ensures IsLidarFolder(root) ==> cands == [root]
    ensures cands == Unique([root] + FilterMap(ProbeRoots(root), ExistingDir(isDir)))
  {
    var roots := ProbeRoots(root);
    cands := AppendExisting(root, roots, isDir);
  }

  /** The loop of _candidate_dirs_from_root over the probed folders `roots`. */
  method AppendExisting(root: string, roots: seq<string>, isDir: string -> bool) returns (cands: seq<string>)
    ensures |cands| > 0 && cands[0] == root
    ensures NoDup(cands)
    ensures forall k | 1 <= k < |cands| :: cands[k] in roots && isDir(cands[k])
    ensures forall k | 0 <= k < |roots| :: isDir(roots[k]) ==> roots[k] in cands
    ensures roots == [root] ==> cands == [root]
    ensures cands == Unique([root] + FilterMap(roots, ExistingDir(isDir)))
  {
    cands := [root];
    var i := 0;
    ExistingStart(root, roots, isDir);
    while i < |roots|
      invariant 0 <= i <= |roots|
      invariant Listed(cands, root, roots[..i], isDir)
    {
      var d := roots[i];
      ghost var before := cands;
      if isDir(d) && d !in cands {
        cands := cands + [d];
      }
      ExistingStep(root, roots, i, isDir, before, cands);
      i := i + 1;
    }
    assert roots[..i] == roots;
    ExistingListed(root, roots, isDir);
  }

  /** os.path.isdir as a comprehension selector: an existing folder is kept as itself. */
  function ExistingDir(isDir: string -> bool): string -> Option<string>
  {
    d => if isDir(d) then Some(d) else None
  }

  /** `cands` is the root followed by the existing folders of `probed`, each listed once, in order. */
  predicate Listed(cands: seq<string>, root: string, probed: seq<string>, isDir: string -> bool)
  {
    cands == Unique([root] + FilterMap(probed, ExistingDir(isDir)))
  }

  /** Before the loop only the root is listed. */
  lemma ExistingStart(root: string, roots: seq<string>, isDir: string -> bool)
    ensures Listed([root], root, roots[..0], isDir)
  {
    assert [root] + FilterMap(roots[..0], ExistingDir(isDir)) == [root];
    assert [root][..0] == [];
  }

  /**
   * The distinct values of the root followed by the existing folders: the root first, then
   * only existing folders of the list, every one of them, and nothing more for a list
   * holding only the root.
   */
  lemma ExistingListed(root: string, roots: seq<string>, isDir: string -> bool)
    ensures var c := Unique([root] + FilterMap(roots, ExistingDir(isDir)));
            && |c| > 0 && c[0] == root
            && (forall k | 1 <= k < |c| :: c[k] in roots && isDir(c[k]))
            && (forall k | 0 <= k < |roots| :: isDir(roots[k]) ==> roots[k] in c)
            && (roots == [root] ==> c == [root])
  {
    ListedOnlyExisting(root, roots, isDir);
    ListedAllExisting(root, roots, isDir);
    if roots == [root] {
      var f := ExistingDir(isDir);
      FilterMapOne(root, f);
      if isDir(root) {
        assert [root] + FilterMap(roots, f) == [root, root];
        assert [root, root][..1] == [root] && [root][..0] == [];
      } else {
        assert [root] + FilterMap(roots, f) == [root];
        assert [root][..0] == [];
      }
    }
  }

  /** The root comes first, and every later entry is an existing folder of the list. */
  lemma ListedOnlyExisting(root: string, roots: seq<string>, isDir: string -> bool)
    ensures var c := Unique([root] + FilterMap(roots, ExistingDir(isDir)));
            && |c| > 0 && c[0] == root
            && (forall k | 1 <= k < |c| :: c[k] in roots && isDir(c[k]))
  {
    var f := ExistingDir(isDir);
    var kept := FilterMap(roots, f);
    var s := [root] + kept;
    var c := Unique(s);
    assert s[0] == root;
    UniqueKeepsFirst(s);
    FilterMapMembers(roots, f);
    forall k | 1 <= k < |c|
      ensures c[k] in roots && isDir(c[k])
    {
      assert c[k] != c[0];
      var j :| 0 <= j < |s| && s[j] == c[k];
      assert j > 0 && kept[j - 1] == c[k];
      var m :| 0 <= m < |roots| && f(roots[m]) == Some(kept[j - 1]);
    }
  }

  /** Every existing folder of the list is listed. */
  lemma ListedAllExisting(root: string, roots: seq<string>, isDir: string -> bool)
    ensures forall k | 0 <= k < |roots| :: isDir(roots[k]) ==> roots[k] in Unique([root] + FilterMap(roots, ExistingDir(isDir)))
  {
    var f := ExistingDir(isDir);
    var kept := FilterMap(roots, f);
    var s := [root] + kept;
    FilterMapMembers(roots, f);
    forall k | 0 <= k < |roots| && isDir(roots[k])
      ensures roots[k] in Unique(s)
    {
      assert f(roots[k]).Some?;
      var j :| 0 <= j < |kept| && kept[j] == roots[k];
      assert s[j + 1] == roots[k];
    }
  }

  /** One step of the loop: the next probed folder is added unless it is missing or already listed. */
  lemma ExistingStep(root: string, roots: seq<string>, i: nat, isDir: string -> bool, u: seq<string>, u': seq<string>)
    requires i < |roots|
    requires Listed(u, root, roots[..i], isDir)
    requires u' == if isDir(roots[i]) && roots[i] !in u then u + [roots[i]] else u
    ensures Listed(u', root, roots[..i + 1], isDir)
  {
    var f := ExistingDir(isDir);
    var prev := [root] + FilterMap(roots[..i], f);
    assert roots[..i + 1][..i] == roots[..i];
    assert FilterMap(roots[..i + 1], f) == FilterMap(roots[..i], f) + KeptOf(roots[i], f);
    if isDir(roots[i]) {
      var s := prev + [roots[i]];
      assert [root] + FilterMap(roots[..i + 1], f) == s;
      assert s[..|s| - 1] == prev;
    } else {
      assert [root] + FilterMap(roots[..i + 1], f) == prev;
    }
  }

  // ---------------------------------------------------------------------------
  // Point-cloud preprocessing.
  // ---------------------------------------------------------------------------

  datatype Point = Point(x: real, y: real, z: real)

  predicate InBox(p: Point, cx: real, cy: real, halfX: real, halfY: real)
  {
    Abs(p.x - cx) <= halfX && Abs(p.y - cy) <= halfY
  }

  /**
   * _crop_around: the points within the box around the pedestrian, in order. A NaN
   * centre (None) compares false everywhere and keeps nothing.
   */
  function CropAround(pts: seq<Point>, cx: Option<real>, cy: Option<real>, halfX: real, halfY: real): (r: seq<Point>)
    ensures |r| <= |pts|
    ensures cx.None? || cy.None? ==> r == []
    ensures forall k | 0 <= k < |r| :: cx.Some? && cy.Some? && InBox(r[k], cx.value, cy.value, halfX, halfY) && r[k] in pts
    ensures cx.Some? && cy.Some? ==>
              forall k | 0 <= k < |pts| :: InBox(pts[k], cx.value, cy.value, halfX, halfY) ==> pts[k] in r
  {
    if pts == [] || cx.None? || cy.None? then []
    else
      var p := pts[..|pts| - 1];
      assert forall k | 0 <= k < |p| :: p[k] == pts[k];
      var init := CropAround(p, cx, cy, halfX, halfY);
      var last := pts[|pts| - 1];
      if InBox(last, cx.value, cy.value, halfX, halfY) then init + [last] else init
  }

  function InBoxPoint(cx: real, cy: real, halfX: real, halfY: real): Point -> Option<Point>
  {
    (p: Point) => if InBox(p, cx, cy, halfX, halfY) then Some(p) else None
  }

  lemma {:induction false} CropAroundIsFiltered(pts: seq<Point>, cx: real, cy: real, halfX: real, halfY: real)
    ensures CropAround(pts, Some(cx), Some(cy), halfX, halfY) == FilterMap(pts, InBoxPoint(cx, cy, halfX, halfY))
  {
    if pts != [] {
      CropAroundIsFiltered(pts[..|pts| - 1], cx, cy, halfX, halfY);
    }
  }

  /** The crop works point by point and keeps the cloud's order. */
  lemma CropAroundKeepsOrder(a: seq<Point>, b: seq<Point>, c: Point, cx: real, cy: real, halfX: real, halfY: real)
    ensures CropAround(a + b, Some(cx), Some(cy), halfX, halfY)
            == CropAround(a, Some(cx), Some(cy), halfX, halfY) + CropAround(b, Some(cx), Some(cy), halfX, halfY)
    ensures CropAround([c], Some(cx), Some(cy), halfX, halfY) == if InBox(c, cx, cy, halfX, halfY) then [c] else []
  {
    CropAroundIsFiltered(a + b, cx, cy, halfX, halfY);
    CropAroundIsFiltered(a, cx, cy, halfX, halfY);
    CropAroundIsFiltered(b, cx, cy, halfX, halfY);
    CropAroundIsFiltered([c], cx, cy, halfX, halfY);
    FilterMapConcat(a, b, InBoxPoint(cx, cy, halfX, halfY));
    FilterMapOne(c, InBoxPoint(cx, cy, halfX, halfY));
  }

  /** Cropping twice with the same box changes nothing. */
  lemma {:induction false} CropIsIdempotent(pts: seq<Point>, cx: real, cy: real, halfX: real, halfY: real)
    ensures CropAround(CropAround(pts, Some(cx), Some(cy), halfX, halfY), Some(cx), Some(cy), halfX, halfY)
            == CropAround(pts, Some(cx), Some(cy), halfX, halfY)
  {
    if pts != [] {
      var p := pts[..|pts| - 1];
      var init := CropAround(p, Some(cx), Some(cy), halfX, halfY);
      CropIsIdempotent(p, cx, cy, halfX, halfY);
      var last := pts[|pts| - 1];
      if InBox(last, cx, cy, halfX, halfY) {
        var c := init + [last];
        assert c[..|c| - 1] == init;
      }
    }
  }

  function Heights(pts: seq<Point>): (r: seq<real>)
    ensures |r| == |pts| && forall k | 0 <= k < |pts| :: r[k] == pts[k].z
  {
    seq(|pts|, k requires 0 <= k < |pts| => pts[k].z)
  }

  function ZBetween(pts: seq<Point>, lo: real, hi: real): (r: seq<Point>)
    ensures |r| <= |pts|
    ensures forall k | 0 <= k < |r| :: lo <= r[k].z <= hi && r[k] in pts
    ensures forall k | 0 <= k < |pts| :: lo <= pts[k].z <= hi ==> pts[k] in r
  {
    if pts == [] then []
    else
      var p := pts[..|pts| - 1];
      assert forall k | 0 <= k < |p| :: p[k] == pts[k];
      var init := ZBetween(p, lo, hi);
      var last := pts[|pts| - 1];
      if lo <= last.z <= hi then init + [last] else init
  }

  function ZBetweenPoint(lo: real, hi: real): Point -> Option<Point>
  {
    (p: Point) => if lo <= p.z <= hi then Some(p) else None
  }

  lemma {:induction false} ZBetweenIsFiltered(pts: seq<Point>, lo: real, hi: real)
    ensures ZBetween(pts, lo, hi) == FilterMap(pts, ZBetweenPoint(lo, hi))
  {
    if pts != [] {
      ZBetweenIsFiltered(pts[..|pts| - 1], lo, hi);
    }
  }

  /** The height band works point by point and keeps the cloud's order. */
  lemma ZBetweenKeepsOrder(a: seq<Point>, b: seq<Point>, c: Point, lo: real, hi: real)
    ensures ZBetween(a + b, lo, hi) == ZBetween(a, lo, hi) + ZBetween(b, lo, hi)
    ensures ZBetween([c], lo, hi) == if lo <= c.z <= hi then [c] else []
  {
    ZBetweenIsFiltered(a + b, lo, hi);
    ZBetweenIsFiltered(a, lo, hi);
    ZBetweenIsFiltered(b, lo, hi);
    ZBetweenIsFiltered([c], lo, hi);
    FilterMapConcat(a, b, ZBetweenPoint(lo, hi));
    FilterMapOne(c, ZBetweenPoint(lo, hi));
  }

  /**
   * _remove_ground_local: NaN and the input when empty; otherwise the ground level (the
   * 10th percentile of z) and the points between it and the 99.5th percentile.
   * `percentile` plays numpy's nanpercentile on a non-empty list.
   */
  function RemoveGround(pts: seq<Point>, percentile: (seq<real>, real) -> real): (r: (Option<real>, seq<Point>))
    ensures pts == [] <==> r.0.None?
    ensures pts == [] ==> r.1 == pts
    ensures pts != [] ==> r.0 == Some(percentile(Heights(pts), 10.0))
                          && r.1 == ZBetween(pts, r.0.value, percentile(Heights(pts), 99.5))
  {
    if pts == [] then (None, pts)
    else
      var zs := Heights(pts);
      var ground := percentile(zs, 10.0);
      (Some(ground), ZBetween(pts, ground, percentile(zs, 99.5)))
  }

  // ---------------------------------------------------------------------------
  // Estimators.
  // ---------------------------------------------------------------------------

  /** A height in metres (None for NaN) and the status text. */
  datatype Estimate = Estimate(height: Option<real>, status: string)

  const MinHeightM: real := 0.9
  const MaxHeightM: real := 2.5

  /** The point cloud of a frame and the two library routines the LiDAR estimator relies on. */
  datatype CloudSource = CloudSource(
    findCloud: (string, int) -> Option<string>,
    readCloud: string -> Result<seq<Point>>,
    percentile: (seq<real>, real) -> real)

  /**
   * The status chain on the quantities it inspects: the number of points in the crop, the
   * ground level, the number of points kept above it and the head level.
   */
  function CloudStatus(cropped: nat, ground: Option<real>, kept: nat, head: real, minPoints: int): (r: Estimate)
    ensures r.height.Some? <==> r.status == "ok"
    ensures r.height.Some? ==> MinHeightM <= r.height.value <= MaxHeightM
    ensures cropped < minPoints ==> r.status == "too_few_points(" + IntToString(cropped) + ")"
    ensures r.status == "ok" ==> cropped >= minPoints && ground.Some? && kept >= Max(10, minPoints / 2)
                                 && r.height.value == head - ground.value
  {
    if cropped < minPoints then
      assert StartsWith("too_few_points(" + IntToString(cropped) + ")", "too");
      assert !StartsWith("ok", "too");
      Estimate(None, "too_few_points(" + IntToString(cropped) + ")")
    else if ground.None? || kept < Max(10, minPoints / 2) then Estimate(None, "bad_ground")
    else
      var h := head - ground.value;
      if h <= 0.0 then Estimate(None, "non_positive_height")
      else if h < MinHeightM || h > MaxHeightM then Estimate(None, "height_out_of_range")
      else Estimate(Some(h), "ok")
  }

  /**
   * Once enough points survive the crop, each later status is returned exactly under its
   * own condition, and "ok" with the height head - ground exactly when that lies in [0.9, 2.5] m.
   */
  lemma CloudStatuses(cropped: nat, ground: Option<real>, kept: nat, head: real, minPoints: int)
    requires cropped >= minPoints
    ensures var r := CloudStatus(cropped, ground, kept, head, minPoints);
            (r.status == "bad_ground" <==> ground.None? || kept < Max(10, minPoints / 2))
            && (ground.Some? && kept >= Max(10, minPoints / 2) ==>
                  var h := head - ground.value;
                  (r.status == "non_positive_height" <==> h <= 0.0)
                  && (r.status == "height_out_of_range" <==> h > 0.0 && (h < MinHeightM || h > MaxHeightM))
                  && (r == Estimate(Some(h), "ok") <==> MinHeightM <= h <= MaxHeightM))
  {
    StatusesDiffer();
  }

  /** The four statuses after the crop are distinct texts. */
  lemma StatusesDiffer()
    ensures "non_positive_height" != "height_out_of_range"
    ensures "bad_ground" != "non_positive_height" && "bad_ground" != "height_out_of_range"
  {
    assert "non_positive_height"[0] != "height_out_of_range"[0];
  }

  /** The status chain after the cloud has been read: crop, ground removal, head percentile. */
  function HeightFromCloud(pts: seq<Point>, pedX: Option<real>, pedY: Option<real>, halfX: real, halfY: real,
                           headQ: real, minPoints: int, percentile: (seq<real>, real) -> real): (r: Estimate)
    ensures r.height.Some? <==> r.status == "ok"
    ensures r.height.Some? ==> MinHeightM <= r.height.value <= MaxHeightM
    ensures |CropAround(pts, pedX, pedY, halfX, halfY)| < minPoints ==>
              r.status == "too_few_points(" + IntToString(|CropAround(pts, pedX, pedY, halfX, halfY)|) + ")"
    ensures var sub := CropAround(pts, pedX, pedY, halfX, halfY);
            var (ground, sub2) := RemoveGround(sub, percentile);
            r == CloudStatus(|sub|, ground, |sub2|, percentile(Heights(sub2), headQ), minPoints)
  {
    var sub := CropAround(pts, pedX, pedY, halfX, halfY);
    var (ground, sub2) := RemoveGround(sub, percentile);
    CloudStatus(|sub|, ground, |sub2|, percentile(Heights(sub2), headQ), minPoints)
  }

  /**
   * estimate_height_from_lidar. A NaN frame number makes int() raise; a failure to read
   * the cloud is an error as well.
   */
  function LidarHeight(root: string, frame: Option<real>, pedX: Option<real>, pedY: Option<real>,
                       halfX: real, halfY: real, headQ: real, minPoints: int, src: CloudSource): (r: Result<Estimate>)
    ensures frame.None? ==> r.Err?
    ensures frame.Some? && src.findCloud(root, Trunc(frame.value)).None? ==> r == Ok(Estimate(None, "no_pcl_file"))
    ensures r.Ok? ==> (r.value.height.Some? <==> r.value.status == "ok")
    ensures r.Ok? && r.value.height.Some? ==> MinHeightM <= r.value.height.value <= MaxHeightM
  {
    match frame
    case None => Err("cannot convert float NaN to integer")
    case Some(f) =>
      match src.findCloud(root, Trunc(f))
      case None => Ok(Estimate(None, "no_pcl_file"))
      case Some(path) =>
        match src.readCloud(path)
        case Err(e) => Err(e)
        case Ok(pts) => Ok(HeightFromCloud(pts, pedX, pedY, halfX, halfY, headQ, minPoints, src.percentile))
  }

  /** The statuses are checked in order: too few points comes before any later status. */
  lemma TooFewPointsComesFirst(pts: seq<Point>, pedX: real, pedY: real, halfX: real, halfY: real,
                               headQ: real, minPoints: int, percentile: (seq<real>, real) -> real)
    requires minPoints > 0
    ensures var r := HeightFromCloud(pts, None, Some(pedY), halfX, halfY, headQ, minPoints, percentile);
            r == Estimate(None, "too_few_points(0)")
  {
    assert IntToString(0) == "0";
  }

  /** The keypoint columns: eyes or ears for the top, ankles for the bottom. */
  const EyeSuffixes: seq<string> := ["r_eye_y", "l_eye_y", "r_ear_y", "l_ear_y"]
  const AnkleSuffixes: seq<string> := ["l_ankle_y", "r_ankle_y"]
  const EyeRatio: real := 0.94

  /** The columns, in order, whose name ends with one of `suffixes`. */
  function ColumnsEndingWithAny(cols: seq<string>, suffixes: seq<string>): (r: seq<string>)
    ensures |r| <= |cols|
    ensures forall k | 0 <= k < |r| :: r[k] in cols && EndsWithAny(r[k], suffixes)
    ensures forall k | 0 <= k < |cols| :: EndsWithAny(cols[k], suffixes) ==> cols[k] in r
  {
    if cols == [] then []
    else
      var p := cols[..|cols| - 1];
      assert forall k | 0 <= k < |p| :: p[k] == cols[k];
      var init := ColumnsEndingWithAny(p, suffixes);
      var c := cols[|cols| - 1];
      if EndsWithAny(c, suffixes) then init + [c] else init
  }

  function EndingWithAny(suffixes: seq<string>): string -> Option<string>
  {
    (c: string) => if EndsWithAny(c, suffixes) then Some(c) else None
  }

  lemma {:induction false} ColumnsEndingWithAnyAreFiltered(cols: seq<string>, suffixes: seq<string>)
    ensures ColumnsEndingWithAny(cols, suffixes) == FilterMap(cols, EndingWithAny(suffixes))
  {
    if cols != [] {
      ColumnsEndingWithAnyAreFiltered(cols[..|cols| - 1], suffixes);
    }
  }

  /** The selection keeps the columns' order. */
  lemma ColumnsEndingWithAnyKeepsOrder(a: seq<string>, b: seq<string>, c: string, suffixes: seq<string>)
    ensures ColumnsEndingWithAny(a + b, suffixes)
            == ColumnsEndingWithAny(a, suffixes) + ColumnsEndingWithAny(b, suffixes)
    ensures ColumnsEndingWithAny([c], suffixes) == if EndsWithAny(c, suffixes) then [c] else []
  {
    ColumnsEndingWithAnyAreFiltered(a + b, suffixes);
    ColumnsEndingWithAnyAreFiltered(a, suffixes);
    ColumnsEndingWithAnyAreFiltered(b, suffixes);
    ColumnsEndingWithAnyAreFiltered([c], suffixes);
    FilterMapConcat(a, b, EndingWithAny(suffixes));
    FilterMapOne(c, EndingWithAny(suffixes));
  }

  /** numpy's nanmin over the cells: NaN when every cell is NaN. */
  function NanMin(v: seq<Option<real>>): (r: Option<real>)
    ensures r.Some? ==> (exists k | 0 <= k < |v| :: v[k] == r)
                        && forall k | 0 <= k < |v| :: v[k].Some? ==> r.value <= v[k].value
    ensures r.None? <==> forall k | 0 <= k < |v| :: v[k].None?
  {
    if v == [] then None
    else
      var p := v[..|v| - 1];
      assert forall k | 0 <= k < |p| :: p[k] == v[k];
      var init := NanMin(p);
      var last := v[|v| - 1];
      if last.None? then init
      else if init.None? || last.value < init.value then last
      else init
  }

  function NanMax(v: seq<Option<real>>): (r: Option<real>)
    ensures r.Some? ==> (exists k | 0 <= k < |v| :: v[k] == r)
                        && forall k | 0 <= k < |v| :: v[k].Some? ==> r.value >= v[k].value
    ensures r.None? <==> forall k | 0 <= k < |v| :: v[k].None?
  {
    if v == [] then None
    else
      var p := v[..|v| - 1];
      assert forall k | 0 <= k < |p| :: p[k] == v[k];
      var init := NanMax(p);
      var last := v[|v| - 1];
      if last.None? then init
      else if init.None? || last.value > init.value then last
      else init
  }

  function Cells(row: string -> Option<real>, keys: seq<string>): (r: seq<Option<real>>)
    ensures |r| == |keys| && forall k | 0 <= k < |keys| :: r[k] == row(keys[k])
  {
    seq(|keys|, k requires 0 <= k < |keys| => row(keys[k]))
  }

  /** row.get(first, row.get(second, NaN)). */
  function GetEither(cols: seq<string>, row: string -> Option<real>, first: string, second: string): Option<real>
  {
    if first in cols then row(first) else if second in cols then row(second) else None
  }

  /** The highest eye or ear in the image (the smallest y); NaN when none is known. */
  function EyeLevel(cols: seq<string>, row: string -> Option<real>): Option<real>
  {
    NanMin(Cells(row, ColumnsEndingWithAny(cols, EyeSuffixes)))
  }

  /** The lowest ankle in the image (the largest y); NaN when none is known. */
  function AnkleLevel(cols: seq<string>, row: string -> Option<real>): Option<real>
  {
    NanMax(Cells(row, ColumnsEndingWithAny(cols, AnkleSuffixes)))
  }

  function LidarPedX(cols: seq<string>, row: string -> Option<real>): Option<real>
  {
    GetEither(cols, row, "006_lidar_ped_x", "lidar_ped_x")
  }

  function LidarPedY(cols: seq<string>, row: string -> Option<real>): Option<real>
  {
    GetEither(cols, row, "007_lidar_ped_y", "lidar_ped_y")
  }

  /**
   * estimate_height_from_keypoints: stature = (pixel height / focal) * ground distance /
   * eye ratio, accepted only within [0.9, 2.5] m. `hypot` plays numpy's hypot.
   */
  function KeypointHeight(cols: seq<string>, row: string -> Option<real>, fPx: Option<Float>,
                          hypot: (real, real) -> real): (r: Result<Estimate>)
    ensures r.Ok? ==> (r.value.height.Some? <==> r.value.status == "ok")
    ensures r.Ok? && r.value.height.Some? ==> MinHeightM <= r.value.height.value <= MaxHeightM
    ensures fPx.None? || !fPx.value.Fin? ==> r == Ok(Estimate(None, "no_focal"))
    ensures r.Err? ==> fPx == Some(Fin(0.0)) && r == Err("float division by zero")
  {
    if fPx.None? || !fPx.value.Fin? then Ok(Estimate(None, "no_focal"))
    else
      var eyeKeys := ColumnsEndingWithAny(cols, EyeSuffixes);
      var ankleKeys := ColumnsEndingWithAny(cols, AnkleSuffixes);
      if eyeKeys == [] || ankleKeys == [] then Ok(Estimate(None, "no_keypoints"))
      else
        KeypointChain(EyeLevel(cols, row), AnkleLevel(cols, row), LidarPedX(cols, row), LidarPedY(cols, row),
                      fPx.value.v, hypot)
  }

  /** The pinhole stature: the eye height (hPix / f) * dist over the eye ratio. */
  function Stature(hPix: real, f: real, dist: real): real
    requires f != 0.0
  {
    (hPix / f) * dist / EyeRatio
  }

  /**
   * The status chain of estimate_height_from_keypoints once the focal length f and both
   * keypoint groups are present, on the quantities it inspects: the highest eye, the
   * lowest ankle and the pedestrian's LiDAR position.
   */
  function KeypointChain(eyeY: Option<real>, ankleY: Option<real>, pedX: Option<real>, pedY: Option<real>,
                         f: real, hypot: (real, real) -> real): (r: Result<Estimate>)
    ensures r.Ok? ==> (r.value.height.Some? <==> r.value.status == "ok")
    ensures r.Ok? && r.value.height.Some? ==> MinHeightM <= r.value.height.value <= MaxHeightM
    ensures r.Err? ==> f == 0.0 && r == Err("float division by zero")
  {
    if eyeY.None? || ankleY.None? then Ok(Estimate(None, "no_keypoints"))
    else
      var hPix := ankleY.value - eyeY.value;
      if hPix <= 0.0 then Ok(Estimate(None, "bad_pixel_height"))
      else if pedX.None? || pedY.None? then Ok(Estimate(None, "no_lidar_xy"))
      else if f == 0.0 then Err("float division by zero")
      else
        var stature := Stature(hPix, f, hypot(pedX.value, pedY.value));
        if stature < MinHeightM || stature > MaxHeightM then Ok(Estimate(None, "fallback_out_of_range"))
        else Ok(Estimate(Some(stature), "ok"))
  }

  /**
   * Each status of the chain is returned exactly under its own condition, in the order
   * the source tests them, and "ok" carries exactly (hPix / f) * hypot(x, y) / 0.94,
   * where hPix is the lowest ankle minus the highest eye.
   */
  lemma KeypointStatuses(eyeY: Option<real>, ankleY: Option<real>, pedX: Option<real>, pedY: Option<real>,
                         f: real, hypot: (real, real) -> real)
    ensures var r := KeypointChain(eyeY, ankleY, pedX, pedY, f, hypot);
            && (r == Ok(Estimate(None, "no_keypoints")) <==> eyeY.None? || ankleY.None?)
            && (eyeY.Some? && ankleY.Some? ==>
                  var hPix := ankleY.value - eyeY.value;
                  && (r == Ok(Estimate(None, "bad_pixel_height")) <==> hPix <= 0.0)
                  && (r == Ok(Estimate(None, "no_lidar_xy")) <==> hPix > 0.0 && (pedX.None? || pedY.None?))
                  && (r.Err? <==> hPix > 0.0 && pedX.Some? && pedY.Some? && f == 0.0)
                  && (hPix > 0.0 && pedX.Some? && pedY.Some? && f != 0.0 ==>
                        var stature := Stature(hPix, f, hypot(pedX.value, pedY.value));
                        && (r == Ok(Estimate(None, "fallback_out_of_range")) <==> stature < MinHeightM || stature > MaxHeightM)
                        && (r == Ok(Estimate(Some(stature), "ok")) <==> MinHeightM <= stature <= MaxHeightM)))
            && (forall h :: r == Ok(Estimate(Some(h), "ok")) ==>
                  && eyeY.Some? && ankleY.Some? && pedX.Some? && pedY.Some? && f != 0.0
                  && h == Stature(ankleY.value - eyeY.value, f, hypot(pedX.value, pedY.value)))
  {
    // The five statuses are told apart by their lengths.
    assert |"no_keypoints"| == 12 && |"bad_pixel_height"| == 16 && |"no_lidar_xy"| == 11;
    assert |"fallback_out_of_range"| == 21 && |"ok"| == 2;
    var r := KeypointChain(eyeY, ankleY, pedX, pedY, f, hypot);
    if eyeY.Some? && ankleY.Some? && ankleY.value - eyeY.value > 0.0 && pedX.Some? && pedY.Some? && f != 0.0 {
      var stature := Stature(ankleY.value - eyeY.value, f, hypot(pedX.value, pedY.value));
      assert r == if stature < MinHeightM || stature > MaxHeightM then Ok(Estimate(None, "fallback_out_of_range"))
                  else Ok(Estimate(Some(stature), "ok"));
    } else {
      assert r.Err? || r.value.height.None?;
    }
  }

  /**
   * With a finite focal length, estimate_height_from_keypoints is the chain on the
   * frame's eye and ankle levels and LiDAR position; a missing keypoint group reads as NaN.
   */
  lemma KeypointHeightIsChain(cols: seq<string>, row: string -> Option<real>, f: real, hypot: (real, real) -> real)
    ensures KeypointHeight(cols, row, Some(Fin(f)), hypot)
            == KeypointChain(EyeLevel(cols, row), AnkleLevel(cols, row), LidarPedX(cols, row), LidarPedY(cols, row), f, hypot)
  {
    var eyeKeys := ColumnsEndingWithAny(cols, EyeSuffixes);
    var ankleKeys := ColumnsEndingWithAny(cols, AnkleSuffixes);
    if eyeKeys == [] {
      assert EyeLevel(cols, row) == NanMin([]);
    }
    if ankleKeys == [] {
      assert AnkleLevel(cols, row) == NanMax([]);
    }
  }

  // ---------------------------------------------------------------------------
  // The per-frame series.
  // ---------------------------------------------------------------------------

  /** The estimation parameters of estimate_ped_height_cm_for_df. */
  datatype Settings = Settings(root: string, fPx: Option<Float>, halfX: real, halfY: real, headQ: real,
                               minPoints: int, src: CloudSource, hypot: (real, real) -> real)

  /** The keyword defaults of estimate_ped_height_cm_for_df: a 2.5 m by 2.0 m half-box, the 99th percentile, 15 points. */
  function DefaultSettings(root: string, fPx: Option<Float>, src: CloudSource, hypot: (real, real) -> real): Settings
  {
    Settings(root, fPx, 2.5, 2.0, 99.0, 15, src, hypot)
  }

  /** The columns the per-frame loop reads, found by their suffix. */
  datatype HeightColumns = HeightColumns(frame: string, pedX: string, pedY: string)

  /**
   * How one frame's two estimates combine into a height in centimetres and its source
   * text: the LiDAR value when usable, else the keypoint value when a focal length is
   * given (a NaN one included, which is not None), else nothing.
   */
  function Combine(lidar: Result<Estimate>, fPx: Option<Float>, keypoints: Result<Estimate>): (r: (Option<real>, string))
    ensures lidar.Ok? && lidar.value.height.Some? ==> r == (Some(100.0 * lidar.value.height.value), "lidar:" + lidar.value.status)
    ensures lidar.Err? ==> r == (None, "error:" + lidar.error)
    ensures lidar.Ok? && lidar.value.height.None? && fPx.None? ==> r == (None, "lidar:" + lidar.value.status)
    ensures lidar.Ok? && lidar.value.height.None? && fPx.Some? ==>
              match keypoints
              case Err(e) => r == (None, "error:" + e)
              case Ok(k) => if k.height.Some? then r == (Some(100.0 * k.height.value), "image:" + k.status)
                            else r == (None, "fail:" + lidar.value.status + "->" + k.status)
  {
    match lidar
    case Err(e) => (None, "error:" + e)
    case Ok(Estimate(Some(h), status)) => (Some(h * 100.0), "lidar:" + status)
    case Ok(Estimate(None, status)) =>
      if fPx.Some? then
        match keypoints
        case Err(e) => (None, "error:" + e)
        case Ok(Estimate(Some(h2), status2)) => (Some(h2 * 100.0), "image:" + status2)
        case Ok(Estimate(None, status2)) => (None, "fail:" + status + "->" + status2)
      else (None, "lidar:" + status)
  }

  /** A NaN focal length is passed on to the keypoint estimate, which answers no_focal. */
  lemma NaNFocalLengthFails(lidarStatus: string, cols: seq<string>, row: string -> Option<real>,
                            hypot: (real, real) -> real)
    ensures Combine(Ok(Estimate(None, lidarStatus)), Some(NaN), KeypointHeight(cols, row, Some(NaN), hypot))
            == (None, "fail:" + lidarStatus + "->" + "no_focal")
  {
    var k := KeypointHeight(cols, row, Some(NaN), hypot);
    assert k == Ok(Estimate(None, "no_focal"));
  }

  /** One frame's entry: the keypoint estimate is consulted only through Combine. */
  function FrameHeight(cols: seq<string>, row: string -> Option<real>, hc: HeightColumns, s: Settings): (r: (Option<real>, string))
    ensures r.0.Some? ==> 90.0 <= r.0.value <= 250.0
    ensures row(hc.frame).None? ==> r.0.None?
    ensures r.0.Some? ==> StartsWith(r.1, "lidar:") || StartsWith(r.1, "image:")
  {
    var lidar := LidarHeight(s.root, row(hc.frame), row(hc.pedX), row(hc.pedY), s.halfX, s.halfY, s.headQ, s.minPoints, s.src);
    var keypoints := KeypointHeight(cols, row, s.fPx, s.hypot);
    CombinedHeightIsPlausible(lidar, s.fPx, keypoints);
    SourceNamesTheEstimator(lidar, s.fPx, keypoints);
    Combine(lidar, s.fPx, keypoints)
  }

  /** A height in the series always comes from an accepted estimate, so it lies in [90, 250] cm. */
  lemma CombinedHeightIsPlausible(lidar: Result<Estimate>, fPx: Option<Float>, keypoints: Result<Estimate>)
    requires lidar.Ok? ==> (lidar.value.height.Some? ==> MinHeightM <= lidar.value.height.value <= MaxHeightM)
    requires keypoints.Ok? ==> (keypoints.value.height.Some? ==> MinHeightM <= keypoints.value.height.value <= MaxHeightM)
    ensures Combine(lidar, fPx, keypoints).0.Some? ==> 90.0 <= Combine(lidar, fPx, keypoints).0.value <= 250.0
  {
  }

  /** The source text says which estimator gave the height. */
  lemma SourceNamesTheEstimator(lidar: Result<Estimate>, fPx: Option<Float>, keypoints: Result<Estimate>)
    ensures var r := Combine(lidar, fPx, keypoints);
            r.0.Some? ==> StartsWith(r.1, "lidar:") || StartsWith(r.1, "image:")
    ensures var r := Combine(lidar, fPx, keypoints);
            StartsWith(r.1, "image:") ==> fPx.Some? && lidar.Ok? && lidar.value.height.None?
  {
    var r := Combine(lidar, fPx, keypoints);
    if lidar.Err? {
      assert r.1[..6] == "error:";
    } else if lidar.value.height.Some? || fPx.None? {
      assert r.1[..6] == "lidar:";
    } else if keypoints.Err? {
      assert r.1[..6] == "error:";
    } else if keypoints.value.height.Some? {
      assert r.1[..6] == "image:";
    } else {
      assert r.1[..5] == "fail:";
    }
  }

  /** The lookups before the loop, in order: a missing column raises KeyError. */
  function FindHeightColumns(cols: seq<string>): (r: Result<HeightColumns>)
    ensures r.Err? <==> BpiColumns.FirstColEndingWith(cols, "number").Err?
                        || BpiColumns.FirstColEndingWith(cols, "lidar_frame").Err?
                        || BpiColumns.FirstColEndingWith(cols, "lidar_ped_x").Err?
                        || BpiColumns.FirstColEndingWith(cols, "lidar_ped_y").Err?
    ensures r.Ok? ==> r.value.frame in cols && EndsWith(r.value.frame, "lidar_frame")
                      && r.value.pedX in cols && EndsWith(r.value.pedX, "lidar_ped_x")
                      && r.value.pedY in cols && EndsWith(r.value.pedY, "lidar_ped_y")
  {
    match BpiColumns.FirstColEndingWith(cols, "number")
    case Err(e) => Err(e)
    case Ok(_) =>
      match BpiColumns.FirstColEndingWith(cols, "lidar_frame")
      case Err(e) => Err(e)
      case Ok(fr) =>
        match BpiColumns.FirstColEndingWith(cols, "lidar_ped_x")
        case Err(e) => Err(e)
        case Ok(x) =>
          match BpiColumns.FirstColEndingWith(cols, "lidar_ped_y")
          case Err(e) => Err(e)
          case Ok(y) => Ok(HeightColumns(fr, x, y))
  }

  function Entry(cols: seq<string>, row: nat -> (string -> Option<real>), hc: HeightColumns, s: Settings, i: nat): (Option<real>, string)
  {
    FrameHeight(cols, row(i), hc, s)
  }

  /** The loop of estimate_ped_height_cm_for_df: entry k of both arrays from row k. */
  method FillSeries(cols: seq<string>, n: nat, row: nat -> (string -> Option<real>), hc: HeightColumns, s: Settings)
    returns (hs: seq<Option<real>>, ss: seq<string>)
    ensures |hs| == n && |ss| == n
    ensures forall k | 0 <= k < n :: (hs[k], ss[k]) == Entry(cols, row, hc, s, k)
  {
    ghost var expected := seq(n, k requires 0 <= k < n => Entry(cols, row, hc, s, k));
    var heights := new Option<real>[n](_ => None);
    var sources := new string[n](_ => "none");
    var i := 0;
    while i < n
      invariant 0 <= i <= n
      invariant forall k | 0 <= k < i :: heights[k] == expected[k].0 && sources[k] == expected[k].1
    {
      var e := Entry(cols, row, hc, s, i);
      assert e == expected[i];
      ghost var before, beforeSources := heights[..], sources[..];
      heights[i] := e.0;
      assert heights[..] == before[i := e.0];
      sources[i] := e.1;
      assert sources[..] == beforeSources[i := e.1];
      assert heights[..] == before[i := e.0];
      i := i + 1;
    }
    hs, ss := heights[..], sources[..];
  }

  /**
   * estimate_ped_height_cm_for_df: the column lookups, then both arrays start as NaN /
   * "none" and the loop fills entry i from row i. `row(i)` gives the numeric cells of row i.
   */
  method EstimateForFrame(cols: seq<string>, n: nat, row: nat -> (string -> Option<real>), s: Settings)
    returns (r: Result<(seq<Option<real>>, seq<string>)>)
    ensures r.Err? <==> FindHeightColumns(cols).Err?
    ensures r.Err? ==> r.error == FindHeightColumns(cols).error
    ensures r.Ok? ==> |r.value.0| == n && |r.value.1| == n
    ensures r.Ok? ==> forall i | 0 <= i < n ::
              (r.value.0[i], r.value.1[i]) == Entry(cols, row, FindHeightColumns(cols).value, s, i)
  {
    var found := FindHeightColumns(cols);
    if found.Err? {
      return Err(found.error);
    }
    var hs, ss := FillSeries(cols, n, row, found.value, s);
    r := Ok((hs, ss));
  }

  /** Every height in the series is a plausible stature in centimetres. */
  lemma SeriesHeightsArePlausible(cols: seq<string>, row: string -> Option<real>, hc: HeightColumns, s: Settings)
    ensures var e := FrameHeight(cols, row, hc, s);
            e.0.Some? ==> 90.0 <= e.0.value <= 250.0
  {
    CombinedHeightIsPlausible(
      LidarHeight(s.root, row(hc.frame), row(hc.pedX), row(hc.pedY), s.halfX, s.halfY, s.headQ, s.minPoints, s.src),
      s.fPx, KeypointHeight(cols, row, s.fPx, s.hypot));
  }
}

// Ground-truth annotation of the BPI recordings: locating a frame's LiDAR files, guessing
// the recording session, the pedestrian orientation test, the label and keep masks, the
// constant pedestrian height, and the two annotated outputs (unadjusted and adjusted
// decision rule) of both annotation scripts.
module BpiAnnotate {
  import opened Common
  import Paths
  import BpiColumns
  import BehaviorModel
  import PedHeight

  // ---------------------------------------------------------------------------
  // LiDAR file patterns of one frame.
  // ---------------------------------------------------------------------------

  const PatternDirs: seq<string> := ["sync_pcl1", "sync_pcl1", "sync_pcl1", "sync_pcl1_mat"]
  const PatternExts: seq<string> := [".pcd", ".ply", ".bin", ".mat"]

  /** The three spellings of a frame number: padded to 6, padded to 5, unpadded. */
  function Stems(fid: int): (r: seq<string>)
    ensures |r| == 3
  {
    [ZeroPad(fid, 6), ZeroPad(fid, 5), IntToString(fid)]
  }

  function Pattern(root: string, stem: string, k: nat): string
    requires k < 4
  {
    Paths.Join3(root, PatternDirs[k], "*" + stem + "*" + PatternExts[k])
  }

  /** The four patterns of one stem: three point-cloud kinds, then the .mat export. */
  function StemPatterns(root: string, stem: string): (r: seq<string>)
    ensures |r| == 4
  {
    seq(4, m requires 0 <= m < 4 => Pattern(root, stem, m))
  }

  /** The patterns of a list of stems, stem by stem. */
  function PatternsOf(root: string, stems: seq<string>): (r: seq<string>)
    ensures |r| == 4 * |stems|
  {
    if stems == [] then [] else PatternsOf(root, stems[..|stems| - 1]) + StemPatterns(root, stems[|stems| - 1])
  }

  function FramePatterns(root: string, fid: int): seq<string>
  {
    PatternsOf(root, Stems(fid))
  }

  /** frame_glob_patterns: the list extended by four patterns per stem. */
  method FrameGlobPatterns(root: string, fid: int) returns (pats: seq<string>)
    ensures pats == FramePatterns(root, fid)
  {
    var stems := Stems(fid);
    pats := [];
    var s := 0;
    while s < |stems|
      invariant 0 <= s <= |stems|
      invariant pats == PatternsOf(root, stems[..s])
    {
      assert stems[..s + 1][..s] == stems[..s];
      var stem := stems[s];
      pats := pats + StemPatterns(root, stem);
      s := s + 1;
    }
    assert stems[..s] == stems;
  }

  lemma ContainsAtEnd(r: string, tail: string, sub: string)
    requires EndsWith(r, tail) && Contains(tail, sub)
    ensures Contains(r, sub)
  {
    var i :| 0 <= i <= |tail| - |sub| && StartsWith(tail[i..], sub);
    var j := |r| - |tail| + i;
    assert r[j..] == tail[i..];
  }

  lemma EndsWithOfEnd(r: string, tail: string, e: string)
    requires EndsWith(r, tail) && EndsWith(tail, e)
    ensures EndsWith(r, e)
  {
    assert r[|r| - |e|..] == tail[|tail| - |e|..];
  }

  /** A pattern lies under the root, is of its kind, and names whatever its stem ends with. */
  lemma PatternNamesItsStem(root: string, stem: string, m: nat, d: string)
    requires m < 4 && EndsWith(stem, d)
    ensures StartsWith(Pattern(root, stem, m), root)
    ensures EndsWith(Pattern(root, stem, m), PatternExts[m])
    ensures EndsWithAny(Pattern(root, stem, m), PatternExts)
    ensures Contains(Pattern(root, stem, m), d)
  {
    var ext := PatternExts[m];
    var tail := "*" + stem + "*" + ext;
    var p := Pattern(root, stem, m);
    assert p == Paths.Join(Paths.Join(root, PatternDirs[m]), tail);
    var i := 1 + |stem| - |d|;
    assert tail[i..][..|d|] == stem[|stem| - |d|..];
    assert StartsWith(tail[i..], d);
    ContainsAtEnd(p, tail, d);
    assert tail[|tail| - |ext|..] == ext;
    EndsWithOfEnd(p, tail, ext);
    assert p[..|root|] == Paths.Join(root, PatternDirs[m])[..|root|];
  }

  /** A pattern of interest: under the root, of one of the four kinds, naming `d`. */
  predicate NamesUnder(p: string, root: string, d: string)
  {
    StartsWith(p, root) && EndsWithAny(p, PatternExts) && Contains(p, d)
  }

  lemma {:induction false} PatternsOfNameUnder(root: string, stems: seq<string>, d: string)
    requires forall k | 0 <= k < |stems| :: EndsWith(stems[k], d)
    ensures forall j | 0 <= j < |PatternsOf(root, stems)| :: NamesUnder(PatternsOf(root, stems)[j], root, d)
  {
    if stems != [] {
      var init := stems[..|stems| - 1];
      var last := stems[|stems| - 1];
      assert forall k | 0 <= k < |init| :: init[k] == stems[k];
      PatternsOfNameUnder(root, init, d);
      var tail := StemPatterns(root, last);
      forall m | 0 <= m < 4
        ensures NamesUnder(tail[m], root, d)
      {
        PatternNamesItsStem(root, last, m, d);
        assert tail[m] == Pattern(root, last, m);
      }
      var r := PatternsOf(root, init) + tail;
      assert PatternsOf(root, stems) == r;
      forall j | 0 <= j < |r|
        ensures NamesUnder(r[j], root, d)
      {
        var n := |PatternsOf(root, init)|;
        if j >= n {
          assert r[j] == tail[j - n];
        } else {
          assert r[j] == PatternsOf(root, init)[j];
        }
      }
    }
  }

  /** Every pattern of a frame lies under the session root, has one of the four extensions and names the frame. */
  lemma PatternsNameTheFrame(root: string, fid: nat)
    ensures |FramePatterns(root, fid)| == 12
    ensures forall j | 0 <= j < 12 :: NamesUnder(FramePatterns(root, fid)[j], root, NatToString(fid))
  {
    var st := Stems(fid);
    assert EndsWith(NatToString(fid), NatToString(fid));
    assert forall k | 0 <= k < 3 :: EndsWith(st[k], NatToString(fid));
    PatternsOfNameUnder(root, st, NatToString(fid));
  }

  // ---------------------------------------------------------------------------
  // Session guessing.
  // ---------------------------------------------------------------------------

  /** dropna().astype(int) on the frame column: int() of each present cell, in order. */
  function FrameNumbers(cells: seq<Option<real>>): (r: seq<int>)
    ensures |r| <= |cells|
    ensures (forall k | 0 <= k < |cells| :: cells[k].None?) <==> r == []
    ensures forall j | 0 <= j < |r| :: exists k | 0 <= k < |cells| :: cells[k].Some? && r[j] == Trunc(cells[k].value)
    ensures forall k | 0 <= k < |cells| && cells[k].Some? :: Trunc(cells[k].value) in r
  {
    if cells == [] then []
    else
      var p := cells[..|cells| - 1];
      assert forall k | 0 <= k < |p| :: p[k] == cells[k];
      var init := FrameNumbers(p);
      match cells[|cells| - 1]
      case None => init
      case Some(x) => init + [Trunc(x)]
  }

  function TruncPresent(): Option<real> -> Option<int>
  {
    (c: Option<real>) => if c.Some? then Some(Trunc(c.value)) else None
  }

  lemma {:induction false} FrameNumbersAreFiltered(cells: seq<Option<real>>)
    ensures FrameNumbers(cells) == FilterMap(cells, TruncPresent())
  {
    if cells != [] {
      FrameNumbersAreFiltered(cells[..|cells| - 1]);
    }
  }

  /** The frame numbers keep the column's order. */
  lemma FrameNumbersKeepOrder(a: seq<Option<real>>, b: seq<Option<real>>, c: Option<real>)
    ensures FrameNumbers(a + b) == FrameNumbers(a) + FrameNumbers(b)
    ensures FrameNumbers([c]) == if c.Some? then [Trunc(c.value)] else []
  {
    FrameNumbersAreFiltered(a + b);
    FrameNumbersAreFiltered(a);
    FrameNumbersAreFiltered(b);
    FrameNumbersAreFiltered([c]);
    FilterMapConcat(a, b, TruncPresent());
    FilterMapOne(c, TruncPresent());
  }

  /** The number of sampled frames for which some file of the session matches. */
  function HitCount(root: string, sample: seq<int>, existsAny: seq<string> -> bool): (r: nat)
    ensures r <= |sample|
  {
    if sample == [] then 0
    else HitCount(root, sample[..|sample| - 1], existsAny)
         + if existsAny(FramePatterns(root, sample[|sample| - 1])) then 1 else 0
  }

  /** The first position holding the largest count. */
  function FirstBest(counts: seq<nat>): (r: nat)
    requires |counts| > 0
    ensures r < |counts|
    ensures forall k | 0 <= k < |counts| :: counts[k] <= counts[r]
    ensures forall k | 0 <= k < r :: counts[k] < counts[r]
  {
    if |counts| == 1 then 0
    else
      var p := counts[..|counts| - 1];
      assert forall k | 0 <= k < |p| :: p[k] == counts[k];
      var j := FirstBest(p);
      if counts[|counts| - 1] > counts[j] then |counts| - 1 else j
  }

  /** Looking at one more count moves the first best there only when it is strictly larger. */
  lemma FirstBestStep(counts: seq<nat>, s: nat)
    requires s < |counts|
    ensures s == 0 ==> FirstBest(counts[..s + 1]) == 0
    ensures s > 0 ==> FirstBest(counts[..s + 1]) ==
                      (if counts[s] > counts[FirstBest(counts[..s])] then s else FirstBest(counts[..s]))
  {
    var q := counts[..s + 1];
    assert q[..s] == counts[..s];
    assert q[s] == counts[s];
  }

  /** One pass of the session loop keeps the best index and count in step with FirstBest. */
  lemma BestSessionStep(counts: seq<nat>, s: nat, best: nat, bestHits: int, hits: nat)
    requires s < |counts| && hits == counts[s]
    requires s == 0 ==> bestHits == -1 && best == 0
    requires s > 0 ==> best == FirstBest(counts[..s]) && bestHits == counts[best]
    ensures hits > bestHits ==> s == FirstBest(counts[..s + 1])
    ensures hits <= bestHits ==> best == FirstBest(counts[..s + 1]) && counts[best] == bestHits
  {
    FirstBestStep(counts, s);
  }

  function SessionCounts(sessions: seq<string>, sample: seq<int>, existsAny: seq<string> -> bool): (r: seq<nat>)
    ensures |r| == |sessions|
    ensures forall k | 0 <= k < |sessions| :: r[k] == HitCount(sessions[k], sample, existsAny)
  {
    seq(|sessions|, k requires 0 <= k < |sessions| => HitCount(sessions[k], sample, existsAny))
  }

  /** The numbers of the frame column, none without one. */
  function LidarFrames(cols: seq<string>, column: string -> seq<Option<real>>): seq<int>
  {
    match BpiColumns.FindCol(cols, "lidar_frame")
    case Err(_) => []
    case Ok(c) => FrameNumbers(column(c))
  }

  /** The frames guess_session_for_csv samples, or None when it falls back to the first session. */
  function SampledFrames(cols: seq<string>, column: string -> seq<Option<real>>, sampleN: nat): (r: Option<seq<int>>)
    ensures r.None? <==> LidarFrames(cols, column) == []
    ensures r.Some? ==>
              var frames := LidarFrames(cols, column);
              |r.value| <= sampleN && |r.value| <= |frames| && r.value == frames[..|r.value|]
              && (|r.value| < sampleN ==> r.value == frames) && (sampleN > 0 ==> r.value != [])
  {
    var frames := LidarFrames(cols, column);
    if frames == [] then None else Some(frames[..Min(sampleN, |frames|)])
  }

  /** The inner loop of guess_session_for_csv: one probe per sampled frame. */
  method CountHits(root: string, sample: seq<int>, existsAny: seq<string> -> bool) returns (hits: nat)
    ensures hits == HitCount(root, sample, existsAny)
  {
    hits := 0;
    var f := 0;
    while f < |sample|
      invariant 0 <= f <= |sample|
      invariant hits == HitCount(root, sample[..f], existsAny)
    {
      assert sample[..f + 1][..f] == sample[..f];
      var pats := FrameGlobPatterns(root, sample[f]);
      if existsAny(pats) {
        hits := hits + 1;
      }
      f := f + 1;
    }
    assert sample[..f] == sample;
  }

  /**
   * guess_session_for_csv: the first session; or, with a frame column, the first of the
   * sessions that finds the most of the first `sampleN` frames. `existsAny` plays the
   * cached glob probe.
   */
  method GuessSession(cols: seq<string>, column: string -> seq<Option<real>>, sessions: seq<string>,
                      existsAny: seq<string> -> bool, sampleN: nat := 40) returns (r: string)
    requires |sessions| > 0
    ensures SampledFrames(cols, column, sampleN).None? ==> r == sessions[0]
    ensures SampledFrames(cols, column, sampleN).Some? ==>
              r == sessions[FirstBest(SessionCounts(sessions, SampledFrames(cols, column, sampleN).value, existsAny))]
  {
    var found := BpiColumns.FindCol(cols, "lidar_frame");
    if found.Err? {
      return sessions[0];
    }
    var frames := FrameNumbers(column(found.value));
    if frames == [] {
      return sessions[0];
    }
    var sample := frames[..Min(sampleN, |frames|)];
    r := BestSession(sessions, sample, existsAny);
  }

  /** The session guess_session_for_csv settles on, stated without its loops. */
  function SessionRoot(cols: seq<string>, column: string -> seq<Option<real>>, sessions: seq<string>,
                       existsAny: seq<string> -> bool, sampleN: nat): string
    requires |sessions| > 0
  {
    match SampledFrames(cols, column, sampleN)
    case None => sessions[0]
    case Some(sample) => sessions[FirstBest(SessionCounts(sessions, sample, existsAny))]
  }

  /** The session loop: the best hit count so far, replaced only by a strictly larger one. */
  method BestSession(sessions: seq<string>, sample: seq<int>, existsAny: seq<string> -> bool) returns (r: string)
    requires |sessions| > 0
    ensures r == sessions[FirstBest(SessionCounts(sessions, sample, existsAny))]
  {
    ghost var counts := SessionCounts(sessions, sample, existsAny);
    ghost var best: nat := 0;
    var bestHits: int := -1;
    var bestRoot := sessions[0];
    var s := 0;
    while s < |sessions|
      invariant 0 <= s <= |sessions| && best < |sessions|
      invariant bestRoot == sessions[best]
      invariant s == 0 ==> bestHits == -1 && best == 0
      invariant s > 0 ==> best == FirstBest(counts[..s]) && bestHits == counts[best]
    {
      var root := sessions[s];
      var hits := CountHits(root, sample, existsAny);
      BestSessionStep(counts, s, best, bestHits, hits);
      if hits > bestHits {
        bestHits, bestRoot, best := hits, root, s;
      }
      s := s + 1;
    }
    assert counts[..s] == counts;
    r := bestRoot;
  }

  /** Ties keep the earlier session: a later one is chosen only with strictly more hits. */
  lemma TiesKeepTheEarlierSession(counts: seq<nat>, k: nat)
    requires |counts| > 0 && k < |counts|
    requires counts[k] == counts[FirstBest(counts)]
    ensures FirstBest(counts) <= k
  {
  }

  // ---------------------------------------------------------------------------
  // Orientation.
  // ---------------------------------------------------------------------------

  /** np.mod(deg, 360): the angle brought into [0, 360) by whole turns; NaN stays NaN. */
  function NormalizeDegrees(x: Option<real>): (r: Option<real>)
    ensures r.Some? <==> x.Some?
    ensures r.Some? ==> 0.0 <= r.value < 360.0
    ensures r.Some? && 0.0 <= x.value < 360.0 ==> r.value == x.value
  {
    match x
    case None => None
    case Some(v) =>
      var q := (v / 360.0).Floor;
      assert q as real <= v / 360.0 < q as real + 1.0;
      assert 0.0 <= v - 360.0 * q as real < 360.0;
      assert 0.0 <= v < 360.0 ==> q == 0;
      Some(v - 360.0 * q as real)
  }

  /** A whole turn does not change the normalised angle. */
  lemma NormalizeIgnoresWholeTurns(v: real)
    ensures NormalizeDegrees(Some(v + 360.0)) == NormalizeDegrees(Some(v))
  {
    var q := (v / 360.0).Floor;
    assert (v + 360.0) / 360.0 == v / 360.0 + 1.0;
    assert ((v + 360.0) / 360.0).Floor == q + 1;
  }

  /** One window test; comparisons with NaN are false. */
  predicate InWindow(theta: Option<real>, a: real, b: real)
    ensures theta.None? ==> !InWindow(theta, a, b)
    ensures theta.Some? && a == b ==> (InWindow(theta, a, b) <==> theta.value == a)
  {
    theta.Some? && if a <= b then a <= theta.value <= b else theta.value >= a || theta.value <= b
  }

  predicate InAnyWindow(theta: Option<real>, windows: seq<(real, real)>)
  {
    exists k | 0 <= k < |windows| :: InWindow(theta, windows[k].0, windows[k].1)
  }

  /** in_windows_deg: the series OR-accumulated window by window. */
  method InWindowsDeg(angles: seq<Option<real>>, windows: seq<(real, real)>) returns (out: seq<bool>)
    ensures |out| == |angles|
    ensures forall i | 0 <= i < |angles| :: out[i] <==> InAnyWindow(angles[i], windows)
  {
    out := seq(|angles|, i => false);
    var w := 0;
    while w < |windows|
      invariant 0 <= w <= |windows|
      invariant |out| == |angles|
      invariant forall i | 0 <= i < |angles| :: out[i] <==> InAnyWindow(angles[i], windows[..w])
    {
      var (a, b) := windows[w];
      var before := out;
      out := seq(|angles|, i requires 0 <= i < |angles| => before[i] || InWindow(angles[i], a, b));
      forall i | 0 <= i < |angles|
        ensures out[i] <==> InAnyWindow(angles[i], windows[..w + 1])
      {
        var ws := windows[..w + 1];
        assert ws[w] == (a, b);
        if out[i] && !InWindow(angles[i], a, b) {
          var k :| 0 <= k < w && InWindow(angles[i], windows[..w][k].0, windows[..w][k].1);
          assert ws[k] == windows[..w][k];
        }
        if InAnyWindow(angles[i], ws) && !InWindow(angles[i], a, b) {
          var k :| 0 <= k < w + 1 && InWindow(angles[i], ws[k].0, ws[k].1);
          assert k < w && windows[..w][k] == ws[k];
        }
      }
      w := w + 1;
    }
    assert windows[..w] == windows;
  }

  /** A wrapping window (a > b) is the complement of the open arc between its ends. */
  lemma WrappingWindowIsComplement(t: real, a: real, b: real)
    requires a > b
    ensures InWindow(Some(t), a, b) <==> !(b < t < a)
  {
  }

  /** The orientation window for "facing the road". */
  const OriTowardWindows: seq<(real, real)> := [(135.0, 225.0)]

  predicate OrientationOk(orientation: Option<real>)
    ensures orientation.None? ==> !OrientationOk(orientation)
  {
    InAnyWindow(NormalizeDegrees(orientation), OriTowardWindows)
  }

  /** Facing the road means a normalised angle in [135, 225]; a missing angle never is. */
  lemma OrientationOkIsTheWindow(orientation: Option<real>)
    ensures OrientationOk(orientation) <==>
            orientation.Some? && 135.0 <= NormalizeDegrees(orientation).value <= 225.0
  {
    if orientation.Some? && 135.0 <= NormalizeDegrees(orientation).value <= 225.0 {
      assert InWindow(NormalizeDegrees(orientation), OriTowardWindows[0].0, OriTowardWindows[0].1);
    }
  }

  // ---------------------------------------------------------------------------
  // Label and keep masks.
  // ---------------------------------------------------------------------------

  /** The numeric cells of one frame (NaN where the text is not a number). */
  datatype FrameRow = FrameRow(lidarValid: Option<real>, distance: Option<real>, speed: Option<real>,
                               pcLat: Option<real>, orientation: Option<real>)

  /** lidar_is_valid == 1; a NaN flag is never valid. */
  predicate LidarValid(r: FrameRow)
    ensures r.lidarValid.None? ==> !LidarValid(r)
  {
    r.lidarValid == Some(1.0)
  }

  /** pc_lat > 0; a NaN lateral position is never on the road. */
  predicate OnRoad(r: FrameRow)
    ensures r.pcLat.None? ==> !OnRoad(r)
  {
    r.pcLat.Some? && r.pcLat.value > 0.0
  }

  /** Ground truth of the on-road script: on the road and LiDAR valid. */
  predicate OnRoadLabel(r: FrameRow)
    ensures OnRoadLabel(r) ==> r.pcLat.Some? && r.lidarValid.Some?
  {
    OnRoad(r) && LidarValid(r)
  }

  /** The write filter of the on-road script: a valid frame with a finite distance and speed. */
  predicate KeepOnRoad(r: FrameRow)
    ensures r.lidarValid.None? || r.distance.None? || r.speed.None? ==> !KeepOnRoad(r)
  {
    LidarValid(r) && r.distance.Some? && r.speed.Some?
  }

  /** Ground truth of the intention script: also facing the road. */
  predicate IntentionLabel(r: FrameRow)
    ensures r.orientation.None? ==> !IntentionLabel(r)
    ensures IntentionLabel(r) <==> OnRoadLabel(r) && OrientationOk(r.orientation)
  {
    OnRoad(r) && LidarValid(r) && OrientationOk(r.orientation)
  }

  /** The write filter of the intention script: also facing the road. */
  predicate KeepIntention(r: FrameRow)
    ensures r.orientation.None? ==> !KeepIntention(r)
    ensures KeepIntention(r) <==> KeepOnRoad(r) && OrientationOk(r.orientation)
  {
    LidarValid(r) && r.distance.Some? && r.speed.Some? && OrientationOk(r.orientation)
  }

  /** On the frames written out, both ground truths reduce to pc_lat > 0. */
  lemma KeptLabelsAreOnRoad(r: FrameRow)
    ensures KeepOnRoad(r) ==> (OnRoadLabel(r) <==> OnRoad(r))
    ensures KeepIntention(r) ==> (IntentionLabel(r) <==> OnRoad(r))
  {
  }

  /** The intention script labels and keeps a subset of what the on-road script does. */
  lemma IntentionIsStricter(r: FrameRow)
    ensures IntentionLabel(r) ==> OnRoadLabel(r)
    ensures KeepIntention(r) ==> KeepOnRoad(r)
    ensures KeepOnRoad(r) && OrientationOk(r.orientation) ==> KeepIntention(r)
  {
  }

  // ---------------------------------------------------------------------------
  // Constant pedestrian height.
  // ---------------------------------------------------------------------------

  const DefaultHeightCm: real := 169.6
  const MinHeightCount: nat := 5

  /** The finite per-frame heights within [150, 200] cm, in order. */
  function PlausibleHeights(h: seq<Option<real>>): (r: seq<real>)
    ensures |r| <= |h|
    ensures forall j | 0 <= j < |r| :: 150.0 <= r[j] <= 200.0 && Some(r[j]) in h
    ensures forall k | 0 <= k < |h| && h[k].Some? && 150.0 <= h[k].value <= 200.0 :: h[k].value in r
  {
    if h == [] then []
    else
      var p := h[..|h| - 1];
      assert forall k | 0 <= k < |p| :: p[k] == h[k];
      var init := PlausibleHeights(p);
      var last := h[|h| - 1];
      if last.Some? && 150.0 <= last.value <= 200.0 then init + [last.value] else init
  }

  function Plausible(): Option<real> -> Option<real>
  {
    (c: Option<real>) => if c.Some? && 150.0 <= c.value <= 200.0 then c else None
  }

  lemma {:induction false} PlausibleHeightsAreFiltered(h: seq<Option<real>>)
    ensures PlausibleHeights(h) == FilterMap(h, Plausible())
  {
    if h != [] {
      PlausibleHeightsAreFiltered(h[..|h| - 1]);
    }
  }

  /** The plausible heights keep the frames' order. */
  lemma PlausibleHeightsKeepOrder(a: seq<Option<real>>, b: seq<Option<real>>, c: Option<real>)
    ensures PlausibleHeights(a + b) == PlausibleHeights(a) + PlausibleHeights(b)
    ensures PlausibleHeights([c]) == if c.Some? && 150.0 <= c.value <= 200.0 then [c.value] else []
  {
    PlausibleHeightsAreFiltered(a + b);
    PlausibleHeightsAreFiltered(a);
    PlausibleHeightsAreFiltered(b);
    PlausibleHeightsAreFiltered([c]);
    FilterMapConcat(a, b, Plausible());
    FilterMapOne(c, Plausible());
  }

  /** round(x, 1), ties to even in the last digit. */
  function RoundOneDecimal(x: real): (r: real)
    ensures (r * 10.0).Floor as real == r * 10.0
    ensures Abs(r * 10.0 - x * 10.0) <= 0.5
    ensures Abs(r * 10.0 - x * 10.0) < 0.5 || (r * 10.0).Floor % 2 == 0
    ensures Abs(r - x) <= 0.05
  {
    RoundHalfEven(x * 10.0) as real / 10.0
  }

  /** 150 and 200 have one decimal, so rounding a height between them stays between them. */
  lemma RoundingKeepsPlausible(m: real)
    requires 150.0 <= m <= 200.0
    ensures 150.0 <= RoundOneDecimal(m) <= 200.0
  {
    assert 1500.0 <= m * 10.0 <= 2000.0;
    RoundStaysBetweenIntegers(m * 10.0, 1500, 2000);
    var n := RoundHalfEven(m * 10.0);
    assert 150.0 <= n as real / 10.0 <= 200.0;
  }

  /** ped_h_const: the rounded mean of the plausible heights when there are enough, else the default. */
  function PedHeightConst(h: seq<Option<real>>): (r: real)
    ensures |PlausibleHeights(h)| < MinHeightCount ==> r == DefaultHeightCm
    ensures |PlausibleHeights(h)| >= MinHeightCount ==>
              r == RoundOneDecimal(Mean(PlausibleHeights(h)).value)
              && Abs(r - Mean(PlausibleHeights(h)).value) <= 0.05
    ensures 150.0 <= r <= 200.0
  {
    var ok := PlausibleHeights(h);
    if |ok| >= MinHeightCount then
      MeanBounds(ok, 150.0, 200.0);
      var m := Mean(ok).value;
      RoundingKeepsPlausible(m);
      RoundOneDecimal(m)
    else DefaultHeightCm
  }

  // ---------------------------------------------------------------------------
  // Predictions and the annotated outputs.
  // ---------------------------------------------------------------------------

  /** BPI carries no weather annotation: every frame is taken as clear. */
  const DefaultWeather: string := "clear"

  /** One call of the decision rule, an exception counting as "does not cross". */
  function PredictOrFalse(height: real, speedKmh: real, distance: real, adj: bool): (r: bool)
    ensures r ==> BehaviorModel.Decide(DefaultWeather, height, speedKmh, distance, adj) == Ok(true)
    ensures BehaviorModel.Decide(DefaultWeather, height, speedKmh, distance, adj).Err? ==> !r
  {
    match BehaviorModel.Decide(DefaultWeather, height, speedKmh, distance, adj)
    case Ok(b) => b
    case Err(_) => false
  }

  /** With the clear weather the rule never raises, so the fallback is never used. */
  lemma ClearWeatherNeverFallsBack(height: real, speedKmh: real, distance: real, adj: bool)
    ensures PredictOrFalse(height, speedKmh, distance, adj) <==>
            BehaviorModel.RealTime(speedKmh, distance)
              >= BehaviorModel.Threshold(BehaviorModel.Clear, height, speedKmh, adj)
  {
    assert BehaviorModel.ParseWeather(DefaultWeather) == Some(BehaviorModel.Clear);
  }

  /** The prediction loop over the kept frames. */
  method Predict(d: seq<real>, v: seq<real>, height: real, adj: bool) returns (preds: seq<bool>)
    requires |d| == |v|
    ensures |preds| == |d|
    ensures forall i | 0 <= i < |d| :: preds[i] == PredictOrFalse(height, v[i], d[i], adj)
  {
    preds := [];
    var i := 0;
    while i < |d|
      invariant 0 <= i <= |d|
      invariant |preds| == i
      invariant forall k | 0 <= k < i :: preds[k] == PredictOrFalse(height, v[k], d[k], adj)
    {
      preds := preds + [PredictOrFalse(height, v[i], d[i], adj)];
      i := i + 1;
    }
  }

  /** One written row of an annotated file. */
  datatype OutRow = OutRow(trueLabel: bool, predicted: bool, weather: string, heightCm: real,
                           speedKmh: real, distanceM: real, adj: bool)

  /** The two annotated tables and the file name the script reports. */
  datatype Annotation = Annotation(name: string, unadjusted: seq<OutRow>, adjusted: seq<OutRow>)

  /** The mask of the script that `intention` selects. */
  predicate Kept(row: FrameRow, intention: bool)
  {
    if intention then KeepIntention(row) else KeepOnRoad(row)
  }

  /** The rows that the script's dropna and masks keep, in order. */
  function KeptRows(rows: seq<FrameRow>, intention: bool): (r: seq<FrameRow>)
    ensures |r| <= |rows|
    ensures forall k | 0 <= k < |r| :: r[k].distance.Some? && r[k].speed.Some?
    ensures forall k | 0 <= k < |r| :: Kept(r[k], intention) && r[k] in rows
    ensures forall k | 0 <= k < |rows| :: Kept(rows[k], intention) ==> rows[k] in r
    ensures (forall k | 0 <= k < |rows| :: !Kept(rows[k], intention))
            <==> r == []
  {
    if rows == [] then []
    else
      var p := rows[..|rows| - 1];
      assert forall k | 0 <= k < |p| :: p[k] == rows[k];
      var init := KeptRows(p, intention);
      var last := rows[|rows| - 1];
      if Kept(last, intention) then init + [last] else init
  }

  function Keeping(intention: bool): FrameRow -> Option<FrameRow>
  {
    (row: FrameRow) => if Kept(row, intention) then Some(row) else None
  }

  lemma {:induction false} KeptRowsAreFiltered(rows: seq<FrameRow>, intention: bool)
    ensures KeptRows(rows, intention) == FilterMap(rows, Keeping(intention))
  {
    if rows != [] {
      KeptRowsAreFiltered(rows[..|rows| - 1], intention);
    }
  }

  /** The kept rows keep the file's order. */
  lemma KeptRowsKeepOrder(a: seq<FrameRow>, b: seq<FrameRow>, row: FrameRow, intention: bool)
    ensures KeptRows(a + b, intention) == KeptRows(a, intention) + KeptRows(b, intention)
    ensures KeptRows([row], intention) == if Kept(row, intention) then [row] else []
  {
    KeptRowsAreFiltered(a + b, intention);
    KeptRowsAreFiltered(a, intention);
    KeptRowsAreFiltered(b, intention);
    KeptRowsAreFiltered([row], intention);
    FilterMapConcat(a, b, Keeping(intention));
    FilterMapOne(row, Keeping(intention));
  }

  /** The expected table for one setting of `adj`. */
  function OutRows(kept: seq<FrameRow>, intention: bool, height: real, adj: bool): (r: seq<OutRow>)
    requires forall k | 0 <= k < |kept| :: kept[k].distance.Some? && kept[k].speed.Some?
    ensures |r| == |kept|
  {
    seq(|kept|, k requires 0 <= k < |kept| =>
      OutRow(if intention then IntentionLabel(kept[k]) else OnRoadLabel(kept[k]),
             PredictOrFalse(height, kept[k].speed.value, kept[k].distance.value, adj),
             DefaultWeather, height, kept[k].speed.value, kept[k].distance.value, adj))
  }

  /**
   * In both written tables the ground truth is pc_lat > 0 and the prediction is the clear
   * weather rule at the constant height; the two tables differ only in `adj` and the prediction.
   */
  lemma OutputRowsMeaning(kept: seq<FrameRow>, intention: bool, height: real, k: nat)
    requires forall j | 0 <= j < |kept| :: Kept(kept[j], intention)
    requires forall j | 0 <= j < |kept| :: kept[j].distance.Some? && kept[j].speed.Some?
    requires k < |kept|
    ensures var u, a := OutRows(kept, intention, height, false)[k], OutRows(kept, intention, height, true)[k];
            (u.trueLabel <==> OnRoad(kept[k])) && u.trueLabel == a.trueLabel
            && u.speedKmh == a.speedKmh == kept[k].speed.value
            && u.distanceM == a.distanceM == kept[k].distance.value
            && !u.adj && a.adj && u.heightCm == a.heightCm == height
            && (u.predicted <==> BehaviorModel.RealTime(u.speedKmh, u.distanceM)
                                  >= BehaviorModel.Threshold(BehaviorModel.Clear, height, u.speedKmh, false))
            && (a.predicted <==> BehaviorModel.RealTime(a.speedKmh, a.distanceM)
                                  >= BehaviorModel.Threshold(BehaviorModel.Clear, height, a.speedKmh, true))
  {
    KeptLabelsAreOnRoad(kept[k]);
    ClearWeatherNeverFallsBack(height, kept[k].speed.value, kept[k].distance.value, false);
    ClearWeatherNeverFallsBack(height, kept[k].speed.value, kept[k].distance.value, true);
  }

  /** The frame's rows assembled from the columns the lookups found. */
  function RowsOf(n: nat, valid: seq<Option<real>>, lon: seq<Option<real>>, speed: seq<Option<real>>,
                  lat: seq<Option<real>>, ori: seq<Option<real>>): (r: seq<FrameRow>)
    requires |valid| == |lon| == |speed| == |lat| == |ori| == n
    ensures |r| == n
  {
    seq(n, i requires 0 <= i < n => FrameRow(valid[i], lon[i], speed[i], lat[i], ori[i]))
  }

  /** The columns annotate_file looks up, in order; the intention script also needs the orientation. */
  function Lookups(intention: bool): (r: seq<string>)
    ensures |r| == if intention then 5 else 4
    ensures "img_orientation" in r <==> intention
  {
    ["lidar_is_valid", "lidar_pv_lon", "lidar_pc_lat", "can_VehicleSpeed"]
    + if intention then ["img_orientation"] else []
  }

  /** The error of the first lookup that fails, if one does. */
  function FirstMissing(cols: seq<string>, names: seq<string>): (r: Option<string>)
    ensures r.None? <==> forall k | 0 <= k < |names| :: BpiColumns.FindCol(cols, names[k]).Ok?
  {
    if names == [] then None
    else match BpiColumns.FindCol(cols, names[0])
      case Err(e) => Some(e)
      case Ok(_) =>
        var rest := FirstMissing(cols, names[1..]);
        assert forall k | 1 <= k < |names| :: names[k] == names[1..][k - 1];
        rest
  }

  /** One output table: the kept frames' labels, predictions and inputs. */
  method Annotate(kept: seq<FrameRow>, intention: bool, height: real, adj: bool) returns (out: seq<OutRow>)
    requires forall k | 0 <= k < |kept| :: kept[k].distance.Some? && kept[k].speed.Some?
    ensures out == OutRows(kept, intention, height, adj)
  {
    var d := seq(|kept|, k requires 0 <= k < |kept| => kept[k].distance.value);
    var v := seq(|kept|, k requires 0 <= k < |kept| => kept[k].speed.value);
    var t := seq(|kept|, k requires 0 <= k < |kept| =>
                   if intention then IntentionLabel(kept[k]) else OnRoadLabel(kept[k]));
    var preds := Predict(d, v, height, adj);
    out := seq(|kept|, k requires 0 <= k < |kept| =>
                 OutRow(t[k], preds[k], DefaultWeather, height, v[k], d[k], adj));
  }

  /** The frame's rows, read from the columns the lookups found. */
  function FrameRowsOf(cols: seq<string>, column: string -> seq<Option<real>>, n: nat, intention: bool): (r: seq<FrameRow>)
    requires forall c :: |column(c)| == n
    requires FirstMissing(cols, Lookups(intention)).None?
    ensures |r| == n
  {
    assert Lookups(intention)[0] == "lidar_is_valid" && Lookups(intention)[1] == "lidar_pv_lon";
    assert Lookups(intention)[2] == "lidar_pc_lat" && Lookups(intention)[3] == "can_VehicleSpeed";
    assert intention ==> Lookups(intention)[4] == "img_orientation";
    RowsOf(n, column(BpiColumns.FindCol(cols, "lidar_is_valid").value),
           column(BpiColumns.FindCol(cols, "lidar_pv_lon").value),
           column(BpiColumns.FindCol(cols, "can_VehicleSpeed").value),
           column(BpiColumns.FindCol(cols, "lidar_pc_lat").value),
           if intention then column(BpiColumns.FindCol(cols, "img_orientation").value) else seq(n, i => None))
  }

  const ExplainPrefix: string := "explain"

  /** An internal "explain" file, whatever the case of its name. */
  predicate Explanation(path: string)
  {
    StartsWith(Lower(Paths.Basename(path)), ExplainPrefix)
  }

  /** A base name already starting with "explain" in lower case is skipped too. */
  lemma LowerCaseExplainIsSkipped(path: string)
    ensures StartsWith(Paths.Basename(path), ExplainPrefix) ==> Explanation(path)
  {
    if StartsWith(Paths.Basename(path), ExplainPrefix) {
      LowerKeepsLowerPrefix(Paths.Basename(path), ExplainPrefix);
    }
  }

  /** Row i of the frame as a cell lookup: the numeric value of each header, NaN past the end. */
  function CellsOf(column: string -> seq<Option<real>>): nat -> (string -> Option<real>)
  {
    (i: nat) => (c: string) => if i < |column(c)| then column(c)[i] else None
  }

  /** The height series estimate_ped_height_cm_for_df gives the frame under settings `s`. */
  function FrameHeights(cols: seq<string>, column: string -> seq<Option<real>>, n: nat, s: PedHeight.Settings): seq<Option<real>>
    requires FindHeightColumnsFound(cols)
  {
    seq(n, i requires 0 <= i < n => PedHeight.Entry(cols, CellsOf(column), PedHeight.FindHeightColumns(cols).value, s, i).0)
  }

  predicate FindHeightColumnsFound(cols: seq<string>)
  {
    PedHeight.FindHeightColumns(cols).Ok?
  }

  /** The heights estimate_ped_height_cm_for_df returns are the frame's height series. */
  lemma EstimatedHeightsAreFrameHeights(cols: seq<string>, column: string -> seq<Option<real>>, n: nat,
                                        s: PedHeight.Settings, e: (seq<Option<real>>, seq<string>))
    requires FindHeightColumnsFound(cols)
    requires |e.0| == n && |e.1| == n
    requires forall i | 0 <= i < n :: (e.0[i], e.1[i]) == PedHeight.Entry(cols, CellsOf(column), PedHeight.FindHeightColumns(cols).value, s, i)
    ensures e.0 == FrameHeights(cols, column, n, s)
  {
  }

  /** The settings annotate_file passes: the guessed session as root, no focal length, default crop and thresholds. */
  function HeightSettings(cols: seq<string>, column: string -> seq<Option<real>>, sessions: seq<string>,
                          existsAny: seq<string> -> bool, src: PedHeight.CloudSource,
                          hypot: (real, real) -> real): PedHeight.Settings
    requires |sessions| > 0
  {
    PedHeight.DefaultSettings(SessionRoot(cols, column, sessions, existsAny, 40), None, src, hypot)
  }

  /** Where the annotated table is written: `<root of the base name>_annot.csv` in the output folder. */
  function AnnotatedPath(outDir: string, baseName: string): (r: string)
    ensures StartsWith(r, outDir) && EndsWith(r, "_annot.csv")
    ensures EndsWith(r, Paths.SplitExtRoot(baseName) + "_annot.csv")
  {
    var name := Paths.SplitExtRoot(baseName) + "_annot.csv";
    assert EndsWith(name, "_annot.csv");
    Paths.Join(outDir, name)
  }

  /** A recording "<stem>.csv" is written as "<stem>_annot.csv" in the output folder. */
  lemma AnnotatedPathOfCsv(outDir: string, stem: string)
    requires stem != []
    requires forall k | 0 <= k < |stem| :: stem[k] != '.' && !Paths.IsSep(stem[k])
    ensures StartsWith(AnnotatedPath(outDir, stem + ".csv"), outDir)
    ensures EndsWith(AnnotatedPath(outDir, stem + ".csv"), stem + "_annot.csv")
  {
    Paths.SplitExtDropsSingleExtension(stem, ".csv");
  }

  /**
   * annotate_file of both scripts on a frame already in time order. `column` gives the
   * numeric cells of a header (NaN where not a number); `sessions`, `existsAny`, `src` and
   * `hypot` are what the session guess and the height estimate read. Ok(None) is a skipped file.
   */
  method AnnotateFile(path: string, cols: seq<string>, column: string -> seq<Option<real>>, n: nat, intention: bool,
                      sessions: seq<string>, existsAny: seq<string> -> bool, src: PedHeight.CloudSource,
                      hypot: (real, real) -> real) returns (r: Result<Option<Annotation>>)
    requires forall c :: |column(c)| == n
    requires |sessions| > 0
    ensures Explanation(path) ==> r == Ok(None)
    ensures !Explanation(path) && n == 0 ==> r.Err?
    ensures !Explanation(path) && n > 0 && FirstMissing(cols, Lookups(intention)).Some? ==>
              r == Err(FirstMissing(cols, Lookups(intention)).value)
    ensures !Explanation(path) && n > 0 && FirstMissing(cols, Lookups(intention)).None?
            && PedHeight.FindHeightColumns(cols).Err? ==>
              r == Err(PedHeight.FindHeightColumns(cols).error)
    ensures r.Ok? && r.value.Some? ==>
              !Explanation(path) && n > 0 && FirstMissing(cols, Lookups(intention)).None?
              && FindHeightColumnsFound(cols)
              && var kept := KeptRows(FrameRowsOf(cols, column, n, intention), intention);
                 var height := PedHeightConst(FrameHeights(cols, column, n, HeightSettings(cols, column, sessions, existsAny, src, hypot)));
                 var a := r.value.value;
                 kept != [] && a.name == Paths.Basename(path)
                 && a.unadjusted == OutRows(kept, intention, height, false)
                 && a.adjusted == OutRows(kept, intention, height, true)
    ensures r == Ok(None) && !Explanation(path) ==>
              n > 0 && FirstMissing(cols, Lookups(intention)).None? && FindHeightColumnsFound(cols)
              && KeptRows(FrameRowsOf(cols, column, n, intention), intention) == []
    ensures !Explanation(path) && n > 0 && FirstMissing(cols, Lookups(intention)).None? && FindHeightColumnsFound(cols) ==>
              r.Ok? && (r.value.None? <==> KeptRows(FrameRowsOf(cols, column, n, intention), intention) == [])
  {
    var base := Paths.Basename(path);
    if StartsWith(Lower(base), ExplainPrefix) {
      return Ok(None);
    }
    if n == 0 {
      return Err(if intention then "ValueError: CSV vide (0 lignes)" else "ValueError: CSV vide (0 lignes).");
    }
    var missing := FirstMissing(cols, Lookups(intention));
    if missing.Some? {
      return Err(missing.value);
    }
    var root := GuessSession(cols, column, sessions, existsAny);
    assert root == SessionRoot(cols, column, sessions, existsAny, 40);
    var settings := PedHeight.DefaultSettings(root, None, src, hypot);
    var estimate := PedHeight.EstimateForFrame(cols, n, CellsOf(column), settings);
    if estimate.Err? {
      return Err(estimate.error);
    }
    var heights := estimate.value.0;
    EstimatedHeightsAreFrameHeights(cols, column, n, settings, estimate.value);
    var out := AnnotateRows(base, FrameRowsOf(cols, column, n, intention), intention, heights);
    r := Ok(out);
  }

  /** The end of annotate_file: the constant height, the kept frames, then both output tables. */
  method AnnotateRows(name: string, rows: seq<FrameRow>, intention: bool, heights: seq<Option<real>>)
    returns (r: Option<Annotation>)
    ensures r.None? <==> KeptRows(rows, intention) == []
    ensures r.Some? ==>
              var kept := KeptRows(rows, intention);
              r.value == Annotation(name, OutRows(kept, intention, PedHeightConst(heights), false),
                                    OutRows(kept, intention, PedHeightConst(heights), true))
  {
    var height := PedHeightConst(heights);
    var kept := KeptRows(rows, intention);
    if kept == [] {
      return None;
    }
    var outFalse := Annotate(kept, intention, height, false);
    var outTrue := Annotate(kept, intention, height, true);
    r := Some(Annotation(name, outFalse, outTrue));
  }
}

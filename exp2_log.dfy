// Experiment 2 log analysis: header normalisation of the car and pedestrian logs,
// cleaning of the crossing signal, detection of the end of the crossing intention,
// the safety distance at that moment, stacking of per-trial series, and the
// time-before-impact measure.
module Exp2Log {
  import opened Common

  // ---------------------------------------------------------------------------
  // Header normalisation.
  // ---------------------------------------------------------------------------

  /** The new name of a cars.csv column, if it is renamed. */
  function CarsTarget(c: string): Option<string>
  {
    var l := Lower(Strip(c));
    if l == "time" then Some("Time")
    else if Contains(l, "x_pos") || l == "x" then Some("X_cars")
    else if Contains(l, "x_vel") then Some("X_vel")
    else None
  }

  /** The new name of a peds.csv column, if it is renamed. */
  function PedsTarget(c: string): Option<string>
  {
    var l := Lower(Strip(c));
    if l == "time" then Some("Time")
    else if Contains(l, "cross") then Some("Crossing")
    else None
  }

  /** A column's name after the renaming: its new name if it has one, else its own. */
  function NewName(c: string, cars: bool): string
  {
    match (if cars then CarsTarget(c) else PedsTarget(c))
    case Some(t) => t
    case None => c
  }

  /** DataFrame.rename: renamed columns take their new name, the others keep theirs. */
  function Rename(cols: seq<string>, cars: bool): (r: seq<string>)
    ensures |r| == |cols|
    ensures forall k | 0 <= k < |cols| :: r[k] == NewName(cols[k], cars)
  {
    seq(|cols|, k requires 0 <= k < |cols| => NewName(cols[k], cars))
  }

  /** The columns of a loaded cars table, and whether X_vel had to be created as NaN. */
  datatype CarsHeader = CarsHeader(columns: seq<string>, speedFilled: bool)

  /** read_cars: the renamed header must hold Time and X_cars; the table keeps exactly Time, X_cars and X_vel. */
  function ReadCarsHeader(fileName: string, cols: seq<string>): (r: Result<CarsHeader>)
    ensures r.Ok? <==> "Time" in Rename(cols, true) && "X_cars" in Rename(cols, true)
    ensures r.Err? && "Time" !in Rename(cols, true) ==> r.error == fileName + ": colonne manquante 'Time'"
    ensures r.Err? && "Time" in Rename(cols, true) ==> r.error == fileName + ": colonne manquante 'X_cars'"
    ensures r.Ok? ==> r.value.columns == ["Time", "X_cars", "X_vel"]
                      && (r.value.speedFilled <==> "X_vel" !in Rename(cols, true))
  {
    var named := Rename(cols, true);
    if "Time" !in named then Err(fileName + ": colonne manquante 'Time'")
    else if "X_cars" !in named then Err(fileName + ": colonne manquante 'X_cars'")
    else Ok(CarsHeader(["Time", "X_cars", "X_vel"], "X_vel" !in named))
  }

  /** read_peds: the renamed header must hold Time and Crossing, and the table keeps exactly those two. */
  function ReadPedsHeader(fileName: string, cols: seq<string>): (r: Result<seq<string>>)
    ensures r.Ok? <==> "Time" in Rename(cols, false) && "Crossing" in Rename(cols, false)
    ensures r.Ok? ==> r.value == ["Time", "Crossing"]
    ensures r.Err? ==> r.error == fileName + ": colonnes attendues 'Time' et 'Crossing'"
  {
    var named := Rename(cols, false);
    if "Time" !in named || "Crossing" !in named then Err(fileName + ": colonnes attendues 'Time' et 'Crossing'")
    else Ok(["Time", "Crossing"])
  }

  lemma PaddedTimeIsRenamed()
    ensures CarsTarget(" TIME ") == Some("Time")
  {
    var w := "TIME";
    assert " TIME " == [' '] + w + [' '];
    StripOneBlankEachSide(' ', w, ' ');
    assert Lower(w) == "time";
  }

  lemma BareXIsThePosition()
    ensures CarsTarget("X") == Some("X_cars")
  {
    assert Strip("X") == "X";
    assert Lower("X") == "x";
  }

  /** Padding and capitalisation of "time" do not matter; a bare "x" names the car position. */
  lemma CarsHeaderRecognisesVariants()
    ensures Rename([" TIME ", "X"], true) == ["Time", "X_cars"]
  {
    PaddedTimeIsRenamed();
    BareXIsThePosition();
    RenamePair(" TIME ", "X", "Time", "X_cars");
  }

  /** Two renamed columns take their two new names. */
  lemma RenamePair(a: string, b: string, ta: string, tb: string)
    requires CarsTarget(a) == Some(ta) && CarsTarget(b) == Some(tb)
    ensures Rename([a, b], true) == [ta, tb]
  {
    var cols := [a, b];
    var r := Rename(cols, true);
    assert NewName(cols[0], true) == ta && NewName(cols[1], true) == tb;
    assert r[0] == ta && r[1] == tb;
  }

  /** A header renamed to exactly Time and X_cars loads, with X_vel to be filled. */
  lemma ReadRenamedTimeAndPosition(fileName: string, cols: seq<string>)
    requires Rename(cols, true) == ["Time", "X_cars"]
    ensures ReadCarsHeader(fileName, cols) == Ok(CarsHeader(["Time", "X_cars", "X_vel"], true))
  {
    var named := Rename(cols, true);
    assert named[0] == "Time" && named[1] == "X_cars";
    assert "X_vel" !in named;
    var r := ReadCarsHeader(fileName, cols);
    assert r.Ok? && r.value.speedFilled;
  }

  /** Without a speed column the header gains an X_vel column of NaN. */
  lemma CarsHeaderFillsMissingSpeed(fileName: string, time: string, x: string)
    requires Lower(Strip(time)) == "time" && Lower(Strip(x)) == "x"
    ensures ReadCarsHeader(fileName, [time, x]) == Ok(CarsHeader(["Time", "X_cars", "X_vel"], true))
  {
    assert CarsTarget(time) == Some("Time");
    assert CarsTarget(x) == Some("X_cars");
    RenamePair(time, x, "Time", "X_cars");
    ReadRenamedTimeAndPosition(fileName, [time, x]);
  }

  /** A cars log without a time column is refused. */
  lemma CarsHeaderNeedsTime(fileName: string, x: string)
    requires Lower(Strip(x)) == "x"
    ensures ReadCarsHeader(fileName, [x]).Err?
  {
    assert CarsTarget(x) == Some("X_cars");
    var named := Rename([x], true);
    assert named == ["X_cars"];
    assert "Time" != named[0];
  }

  // ---------------------------------------------------------------------------
  // Crossing signal binarisation.
  // ---------------------------------------------------------------------------

  /** Exact 0 and 1 are kept; every other value is rounded half-to-even. */
  function KeepOrRound(x: real): real
  {
    if x == 0.0 || x == 1.0 then x else RoundHalfEven(x) as real
  }

  function Clip01(x: real): (r: real)
    ensures 0.0 <= r <= 1.0
  {
    if x < 0.0 then 0.0 else if x > 1.0 then 1.0 else x
  }

  function Binarize(x: real): (r: real)
    ensures r == 0.0 || r == 1.0
    ensures (x == 0.0 || x == 1.0) ==> r == x
    ensures x < 0.5 ==> r == 0.0
    ensures x > 0.5 ==> r == 1.0
  {
    Clip01(KeepOrRound(x))
  }

  /** Position of the first sample exactly equal to 1. */
  function FirstOne(c: seq<real>): (r: Option<nat>)
    ensures r.Some? ==> r.value < |c| && c[r.value] == 1.0 && forall k | 0 <= k < r.value :: c[k] != 1.0
    ensures r.None? ==> forall k | 0 <= k < |c| :: c[k] != 1.0
  {
    if c == [] then None
    else if c[0] == 1.0 then Some(0)
    else match FirstOne(c[1..])
      case None => None
      case Some(i) => Some(i + 1)
  }

  /** The cleaned value at `k`: samples before the first 1 count as 1. */
  function BinaryAt(c: seq<real>, k: nat): real
    requires k < |c|
  {
    var f := FirstOne(c);
    Binarize(if f.Some? && k < f.value then 1.0 else c[k])
  }

  function Binarized(c: seq<real>): (r: seq<real>)
    ensures |r| == |c| && forall k | 0 <= k < |c| :: r[k] == BinaryAt(c, k)
  {
    seq(|c|, k requires 0 <= k < |c| => BinaryAt(c, k))
  }

  /** The signal with every sample before the first exact 1 set to 1. */
  function Filled(c: seq<real>): (r: seq<real>)
    ensures |r| == |c|
  {
    var f := FirstOne(c);
    seq(|c|, k requires 0 <= k < |c| => if f.Some? && k < f.value then 1.0 else c[k])
  }

  /** The cleaning, on a copy of the signal: fill before the first 1, then round and clip. */
  method MakeCrossingBinary(c: seq<real>) returns (r: seq<real>)
    ensures r == Binarized(c)
  {
    var p := new real[|c|](i requires 0 <= i < |c| => c[i]);
    assert p[..] == c;
    FillBeforeFirstOne(p);
    BinarizeAll(p);
    r := p[..];
    assert forall k | 0 <= k < |c| :: r[k] == BinaryAt(c, k);
  }

  /** The first pass: samples up to the first exact 1 become 1. */
  method FillBeforeFirstOne(p: array<real>)
    modifies p
    ensures p[..] == Filled(old(p[..]))
  {
    ghost var c := p[..];
    var first := 0;
    while first < p.Length && p[first] != 1.0
      invariant 0 <= first <= p.Length
      invariant forall k | 0 <= k < first :: c[k] != 1.0
      invariant p[..] == c
    {
      first := first + 1;
    }
    if first < p.Length {
      assert FirstOne(c) == Some(first);
      var k := 0;
      while k < first
        invariant 0 <= k <= first
        invariant forall j | 0 <= j < k :: p[j] == 1.0
        invariant forall j | k <= j < p.Length :: p[j] == c[j]
      {
        p[k] := 1.0;
        k := k + 1;
      }
    } else {
      assert FirstOne(c).None?;
    }
    assert forall j | 0 <= j < p.Length :: p[j] == Filled(c)[j];
  }

  /** The second pass: every sample is rounded and clipped to 0 or 1. */
  method BinarizeAll(p: array<real>)
    modifies p
    ensures forall j | 0 <= j < p.Length :: p[j] == Binarize(old(p[j]))
  {
    var k := 0;
    while k < p.Length
      invariant 0 <= k <= p.Length
      invariant forall j | 0 <= j < k :: p[j] == Binarize(old(p[j]))
      invariant forall j | k <= j < p.Length :: p[j] == old(p[j])
    {
      p[k] := Binarize(p[k]);
      k := k + 1;
    }
  }

  /** The cleaned signal is binary, keeps its length, and is 1 up to and including the first exact 1. */
  lemma BinarizedShape(c: seq<real>)
    ensures |Binarized(c)| == |c|
    ensures forall k | 0 <= k < |c| :: Binarized(c)[k] == 0.0 || Binarized(c)[k] == 1.0
    ensures FirstOne(c).Some? ==> forall k | 0 <= k <= FirstOne(c).value :: Binarized(c)[k] == 1.0
  {
  }

  // ---------------------------------------------------------------------------
  // Transition detection.
  // ---------------------------------------------------------------------------

  predicate RiseAt(c: seq<real>, i: nat)
  {
    i + 1 < |c| && c[i] == 0.0 && c[i + 1] == 1.0
  }

  predicate FallAt(c: seq<real>, i: nat)
  {
    i + 1 < |c| && c[i] == 1.0 && c[i + 1] == 0.0
  }

  /** The first 0 -> 1 step at or after `from`. */
  function FirstRise(c: seq<real>, from: nat): (r: Option<nat>)
    ensures r.Some? ==> from <= r.value && RiseAt(c, r.value)
                        && forall k | from <= k < r.value :: !RiseAt(c, k)
    ensures r.None? ==> forall k | from <= k :: !RiseAt(c, k)
    decreases |c| - from
  {
    if from + 1 >= |c| then None
    else if RiseAt(c, from) then Some(from)
    else FirstRise(c, from + 1)
  }

  /** The first 1 -> 0 step at or after `from`. */
  function FirstFall(c: seq<real>, from: nat): (r: Option<nat>)
    ensures r.Some? ==> from <= r.value && FallAt(c, r.value)
                        && forall k | from <= k < r.value :: !FallAt(c, k)
    ensures r.None? ==> forall k | from <= k :: !FallAt(c, k)
    decreases |c| - from
  {
    if from + 1 >= |c| then None
    else if FallAt(c, from) then Some(from)
    else FirstFall(c, from + 1)
  }

  /** The end of the crossing intention: the first fall strictly after the first rise. */
  function FallAfterRise(c: seq<real>): Option<nat>
  {
    match FirstRise(c, 0)
    case None => None
    case Some(s) => FirstFall(c, s + 1)
  }

  /** The scan over consecutive samples that records the first rise, then stops at the next fall. */
  method DetectTransitions(c: seq<real>) returns (start: Option<nat>, stop: Option<nat>)
    ensures start == FirstRise(c, 0)
    ensures stop == FallAfterRise(c)
  {
    start, stop := None, None;
    var i := 0;
    while i + 1 < |c|
      invariant 0 <= i
      invariant start.None? ==> FirstRise(c, 0) == FirstRise(c, i)
      invariant start.Some? ==> start == FirstRise(c, 0) && start.value < i
                                && FirstFall(c, start.value + 1) == FirstFall(c, i)
      invariant stop.None?
      decreases |c| - i
    {
      var c0, c1 := c[i], c[i + 1];
      if start.None? && c0 == 0.0 && c1 == 1.0 {
        start := Some(i);
        i := i + 1;
        continue;
      }
      if start.Some? && c0 == 1.0 && c1 == 0.0 {
        stop := Some(i);
        return;
      }
      i := i + 1;
    }
  }

  /** A binary signal stays at 1 from the rise to the measured fall. */
  lemma {:induction false} HeldBetweenRiseAndFall(c: seq<real>, k: nat)
    requires forall j | 0 <= j < |c| :: c[j] == 0.0 || c[j] == 1.0
    requires FirstRise(c, 0).Some? && FallAfterRise(c).Some?
    requires FirstRise(c, 0).value + 1 <= k <= FallAfterRise(c).value
    ensures c[k] == 1.0
    decreases k
  {
    var s := FirstRise(c, 0).value;
    if k > s + 1 {
      HeldBetweenRiseAndFall(c, k - 1);
      assert !FallAt(c, k - 1);
    }
  }

  lemma {:induction false} SomeFallBetween(c: seq<real>, a: nat, z: nat)
    requires a < z < |c| && c[a] == 1.0 && c[z] == 0.0
    requires forall j | 0 <= j < |c| :: c[j] == 0.0 || c[j] == 1.0
    ensures FirstFall(c, 0).Some? && FirstFall(c, 0).value < z
    decreases z - a
  {
    if c[a + 1] == 0.0 {
      assert FallAt(c, a);
    } else {
      SomeFallBetween(c, a + 1, z);
    }
  }

  /**
   * When the raw signal holds an exact 1, the cleaned signal starts at 1, so its first
   * fall comes before any rise: the fall that is measured is never the first one.
   */
  lemma FilledSignalFallsBeforeItRises(c: seq<real>)
    requires FirstOne(c).Some? && FirstRise(Binarized(c), 0).Some?
    ensures FirstFall(Binarized(c), 0).Some?
    ensures FirstFall(Binarized(c), 0).value < FirstRise(Binarized(c), 0).value
  {
    var b := Binarized(c);
    var f := FirstOne(c).value;
    var i := FirstRise(b, 0).value;
    BinarizedShape(c);
    assert b[i] == 0.0;
    assert f < i;
    SomeFallBetween(b, f, i);
  }

  // ---------------------------------------------------------------------------
  // One trial.
  // ---------------------------------------------------------------------------

  /** A line of the pedestrian log as read_peds returns it; None is NaN. */
  datatype PedsRow = PedsRow(time: Option<real>, crossing: Option<real>)

  /** A line of the car log as read_cars returns it; None is NaN. */
  datatype CarsRow = CarsRow(time: Option<real>, xCars: Option<real>, xVel: Option<real>)

  /** A row of the Time join of peds and cars; None is NaN. */
  datatype MergedRow = MergedRow(time: real, crossing: Option<real>, xCars: Option<real>, xVel: Option<real>)

  /** The joined row of a pedestrian line and a car line that share their time. */
  function Pair(p: PedsRow, c: CarsRow): MergedRow
    requires p.time.Some?
  {
    MergedRow(p.time.value, p.crossing, c.xCars, c.xVel)
  }

  /**
   * The car lines a pedestrian line joins with. A NaN time never reaches the trial: pandas
   * matches NaN keys with each other, but the dropna that follows removes such rows.
   */
  function PairWith(p: PedsRow): CarsRow -> Option<MergedRow>
  {
    (c: CarsRow) => if p.time.Some? && c.time == p.time then Some(Pair(p, c)) else None
  }

  function MatchesOf(cars: seq<CarsRow>): PedsRow -> seq<MergedRow>
  {
    (p: PedsRow) => FilterMap(cars, PairWith(p))
  }

  /**
   * peds.merge(cars, on='Time', how='inner'): for each pedestrian line in order, one row per
   * car line with the same time, in the car log's order.
   */
  function Merge(peds: seq<PedsRow>, cars: seq<CarsRow>): seq<MergedRow>
  {
    FlatMap(peds, MatchesOf(cars))
  }

  /** Only times present in both logs survive: every joined row pairs two lines with its time. */
  lemma {:induction false} MergedRowsPairEqualTimes(peds: seq<PedsRow>, cars: seq<CarsRow>)
    ensures forall j | 0 <= j < |Merge(peds, cars)| :: exists i, k | 0 <= i < |peds| && 0 <= k < |cars| ::
              peds[i].time == Some(Merge(peds, cars)[j].time) && cars[k].time == peds[i].time
              && Merge(peds, cars)[j] == Pair(peds[i], cars[k])
  {
    if peds == [] {
      assert Merge(peds, cars) == [];
    } else {
      var init, last := peds[..|peds| - 1], peds[|peds| - 1];
      MergedRowsPairEqualTimes(init, cars);
      var head, tail := Merge(init, cars), FilterMap(cars, PairWith(last));
      assert Merge(peds, cars) == head + tail;
      FilterMapMembers(cars, PairWith(last));
      forall j | 0 <= j < |Merge(peds, cars)|
        ensures exists i, k | 0 <= i < |peds| && 0 <= k < |cars| ::
                  peds[i].time == Some(Merge(peds, cars)[j].time) && cars[k].time == peds[i].time
                  && Merge(peds, cars)[j] == Pair(peds[i], cars[k])
      {
        if j < |head| {
          var i, k :| 0 <= i < |init| && 0 <= k < |cars| && init[i].time == Some(head[j].time)
                      && cars[k].time == init[i].time && head[j] == Pair(init[i], cars[k]);
          assert peds[i] == init[i];
        } else {
          var k :| 0 <= k < |cars| && PairWith(last)(cars[k]) == Some(tail[j - |head|]);
          assert peds[|peds| - 1] == last;
        }
      }
    }
  }

  /** Every pair of lines with the same (non-NaN) time gives a joined row. */
  lemma {:induction false} MergeHasEveryMatch(peds: seq<PedsRow>, cars: seq<CarsRow>)
    ensures forall i, k | 0 <= i < |peds| && 0 <= k < |cars| && peds[i].time.Some? && cars[k].time == peds[i].time ::
              Pair(peds[i], cars[k]) in Merge(peds, cars)
  {
    if peds != [] {
      var init, last := peds[..|peds| - 1], peds[|peds| - 1];
      MergeHasEveryMatch(init, cars);
      assert Merge(peds, cars) == Merge(init, cars) + FilterMap(cars, PairWith(last));
      FilterMapMembers(cars, PairWith(last));
      forall i, k | 0 <= i < |peds| && 0 <= k < |cars| && peds[i].time.Some? && cars[k].time == peds[i].time
        ensures Pair(peds[i], cars[k]) in Merge(peds, cars)
      {
        if i < |init| {
          assert peds[i] == init[i];
        } else {
          assert PairWith(last)(cars[k]) == Some(Pair(peds[i], cars[k]));
        }
      }
    }
  }

  /** The join follows the pedestrian log: its rows for two stretches follow each other. */
  lemma MergeKeepsPedsOrder(a: seq<PedsRow>, b: seq<PedsRow>, cars: seq<CarsRow>, p: PedsRow)
    ensures Merge(a + b, cars) == Merge(a, cars) + Merge(b, cars)
    ensures Merge([p], cars) == FilterMap(cars, PairWith(p))
  {
    FlatMapConcat(a, b, MatchesOf(cars));
    MergeOne(p, cars);
  }

  /** The rows of a single pedestrian line are its matches. */
  lemma MergeOne(p: PedsRow, cars: seq<CarsRow>)
    ensures Merge([p], cars) == FilterMap(cars, PairWith(p))
  {
    assert [p][..0] == [];
    assert FlatMap([p], MatchesOf(cars)) == FlatMap([], MatchesOf(cars)) + MatchesOf(cars)(p);
  }

  /** A time repeated in both logs gives every combination of the lines, pedestrian line first. */
  lemma RepeatedTimeGivesEveryPair(p1: PedsRow, p2: PedsRow, c1: CarsRow, c2: CarsRow)
    requires p1.time.Some? && p2.time == p1.time && c1.time == p1.time && c2.time == p1.time
    ensures Merge([p1, p2], [c1, c2]) == [Pair(p1, c1), Pair(p1, c2), Pair(p2, c1), Pair(p2, c2)]
  {
    var cars := [c1, c2];
    FilterMapConcat([c1], [c2], PairWith(p1));
    FilterMapConcat([c1], [c2], PairWith(p2));
    FilterMapOne(c1, PairWith(p1));
    FilterMapOne(c2, PairWith(p1));
    FilterMapOne(c1, PairWith(p2));
    FilterMapOne(c2, PairWith(p2));
    assert [c1] + [c2] == cars;
    MergeKeepsPedsOrder([p1], [p2], cars, p1);
    MergeOne(p2, cars);
    assert [p1] + [p2] == [p1, p2];
  }

  /** A complete row with the car in the scene. */
  datatype CleanRow = CleanRow(time: real, crossing: real, xCars: real)

  /**
   * The rows kept for a trial: dropna, then X_cars != 0. With `requireSpeed` the NaN
   * test also covers X_vel, as the code does; without it only the columns the trial uses.
   */
  function Visible(rows: seq<MergedRow>, requireSpeed: bool): (r: seq<CleanRow>)
    ensures |r| <= |rows|
    ensures forall k | 0 <= k < |r| :: r[k].xCars != 0.0
    ensures forall j | 0 <= j < |r| :: exists k | 0 <= k < |rows| :: Shown(rows[k], requireSpeed) && r[j] == Clean(rows[k])
    ensures forall k | 0 <= k < |rows| && Shown(rows[k], requireSpeed) :: Clean(rows[k]) in r
  {
    if rows == [] then []
    else
      var p := rows[..|rows| - 1];
      assert forall k | 0 <= k < |p| :: p[k] == rows[k];
      var row := rows[|rows| - 1];
      Visible(p, requireSpeed) + (if Shown(row, requireSpeed) then [Clean(row)] else [])
  }

  /** The row survives dropna and the X_cars != 0 test. */
  predicate Shown(row: MergedRow, requireSpeed: bool)
  {
    row.crossing.Some? && row.xCars.Some? && (!requireSpeed || row.xVel.Some?) && row.xCars.value != 0.0
  }

  function Clean(row: MergedRow): CleanRow
    requires row.crossing.Some? && row.xCars.Some?
  {
    CleanRow(row.time, row.crossing.value, row.xCars.value)
  }

  function Cleaning(requireSpeed: bool): MergedRow -> Option<CleanRow>
  {
    (row: MergedRow) => if Shown(row, requireSpeed) then Some(Clean(row)) else None
  }

  lemma {:induction false} VisibleAreFiltered(rows: seq<MergedRow>, requireSpeed: bool)
    ensures Visible(rows, requireSpeed) == FilterMap(rows, Cleaning(requireSpeed))
  {
    if rows != [] {
      VisibleAreFiltered(rows[..|rows| - 1], requireSpeed);
    }
  }

  /** The kept rows keep the merge's time order. */
  lemma VisibleKeepsOrder(a: seq<MergedRow>, b: seq<MergedRow>, row: MergedRow, requireSpeed: bool)
    ensures Visible(a + b, requireSpeed) == Visible(a, requireSpeed) + Visible(b, requireSpeed)
    ensures Visible([row], requireSpeed) == if Shown(row, requireSpeed) then [Clean(row)] else []
  {
    VisibleAreFiltered(a + b, requireSpeed);
    VisibleAreFiltered(a, requireSpeed);
    VisibleAreFiltered(b, requireSpeed);
    VisibleAreFiltered([row], requireSpeed);
    FilterMapConcat(a, b, Cleaning(requireSpeed));
    FilterMapOne(row, Cleaning(requireSpeed));
  }

  /** The pedestrian's x position in the map for each position index (cm). */
  function PosMap(pos1: real): seq<real>
  {
    [14343.0, pos1, 13317.0]
  }

  /** The position recorded for a trial: int() of the plan's value, 0 when it is missing. */
  function TrialPosition(position: Option<real>): int
  {
    if position.None? then 0 else Trunc(position.value)
  }

  datatype Trial = NotOk | Trial(safetyDistance: Option<real>, time: seq<real>, gap: seq<real>, cross: seq<real>)

  function Times(rows: seq<CleanRow>): (r: seq<real>)
    ensures |r| == |rows| && forall k | 0 <= k < |rows| :: r[k] == rows[k].time
  {
    seq(|rows|, k requires 0 <= k < |rows| => rows[k].time)
  }

  function Crossings(rows: seq<CleanRow>): (r: seq<real>)
    ensures |r| == |rows| && forall k | 0 <= k < |rows| :: r[k] == rows[k].crossing
  {
    seq(|rows|, k requires 0 <= k < |rows| => rows[k].crossing)
  }

  /** Car-pedestrian gap in metres: positions are logged in centimetres. */
  function Gaps(rows: seq<CleanRow>, pedX: real): (r: seq<real>)
    ensures |r| == |rows| && forall k | 0 <= k < |rows| :: r[k] * 100.0 == rows[k].xCars - pedX
  {
    seq(|rows|, k requires 0 <= k < |rows| => (rows[k].xCars - pedX) / 100.0)
  }

  /**
   * The trial the kept rows give with the pedestrian at pedX: the times, the gaps in metres,
   * the cleaned crossing signal, and the safety distance |gap| one sample after the first
   * fall that follows the first rise (none without such a fall).
   */
  function TrialOf(rows: seq<CleanRow>, pedX: real): (t: Trial)
    ensures t.Trial? && |t.time| == |t.gap| == |t.cross| == |rows|
    ensures t.safetyDistance.Some? ==> t.safetyDistance.value >= 0.0
    ensures forall k | 0 <= k < |t.cross| :: t.cross[k] == 0.0 || t.cross[k] == 1.0
  {
    var b := Binarized(Crossings(rows));
    var g := Gaps(rows, pedX);
    assert forall k | 0 <= k < |b| :: b[k] == BinaryAt(Crossings(rows), k);
    Trial(match FallAfterRise(b) case None => None case Some(s) => Some(Abs(g[s + 1])), Times(rows), g, b)
  }

  /** The trial computation on the kept rows. */
  method TrialFromRows(rows: seq<CleanRow>, posIndex: int, posMap: seq<real>) returns (r: Result<Trial>)
    ensures rows == [] ==> r == Ok(NotOk)
    ensures rows != [] ==> (r.Err? <==> PyIndex(posMap, posIndex).None?)
    ensures r.Ok? && rows != [] ==> r.value == TrialOf(rows, PyIndex(posMap, posIndex).value)
  {
    if rows == [] {
      return Ok(NotOk);
    }
    var ped := PyIndex(posMap, posIndex);
    if ped.None? {
      return Err("IndexError: list index out of range");
    }
    var cross := MakeCrossingBinary(Crossings(rows));
    var gap := Gaps(rows, ped.value);
    var start, stop := DetectTransitions(cross);
    var safety: Option<real> := None;
    if stop.Some? {
      safety := Some(Abs(gap[stop.value + 1]));
    }
    r := Ok(Trial(safety, Times(rows), gap, cross));
  }

  /** compute_trial_exp2 as written: the NaN filter runs over every merged column, X_vel included. */
  method ComputeTrialAsWritten(peds: seq<PedsRow>, cars: seq<CarsRow>, posIndex: int, posMap: seq<real>)
    returns (r: Result<Trial>)
    ensures Visible(Merge(peds, cars), true) == [] ==> r == Ok(NotOk)
    ensures Visible(Merge(peds, cars), true) != [] ==> (r.Err? <==> PyIndex(posMap, posIndex).None?)
    ensures r.Ok? && Visible(Merge(peds, cars), true) != [] ==>
              r.value == TrialOf(Visible(Merge(peds, cars), true), PyIndex(posMap, posIndex).value)
  {
    r := TrialFromRows(Visible(Merge(peds, cars), true), posIndex, posMap);
  }

  /** compute_trial_exp2 with the NaN filter restricted to the columns the trial uses. */
  method ComputeTrial(peds: seq<PedsRow>, cars: seq<CarsRow>, posIndex: int, posMap: seq<real>) returns (r: Result<Trial>)
    ensures var rows := Merge(peds, cars); Visible(rows, false) == [] ==> r == Ok(NotOk)
    ensures var rows := Merge(peds, cars); Visible(rows, false) != [] ==> (r.Err? <==> PyIndex(posMap, posIndex).None?)
    ensures var rows := Merge(peds, cars);
      r.Ok? && Visible(rows, false) != [] ==> r.value == TrialOf(Visible(rows, false), PyIndex(posMap, posIndex).value)
    ensures r.Ok? && r.value.Trial? ==>
      |r.value.gap| == |r.value.cross| == |r.value.time| == |Visible(Merge(peds, cars), false)|
      && (r.value.safetyDistance.Some? ==> r.value.safetyDistance.value >= 0.0)
      && (forall k | 0 <= k < |r.value.cross| :: r.value.cross[k] == 0.0 || r.value.cross[k] == 1.0)
  {
    r := TrialFromRows(Visible(Merge(peds, cars), false), posIndex, posMap);
  }

  /** Rows without a speed never pass the filter as written. */
  lemma {:induction false} SpeedlessRowsAreDropped(rows: seq<MergedRow>)
    requires forall k | 0 <= k < |rows| :: rows[k].xVel.None?
    ensures Visible(rows, true) == []
  {
    if rows != [] {
      SpeedlessRowsAreDropped(rows[..|rows| - 1]);
    }
  }

  /** As written, a cars log without a speed column (X_vel created as NaN) loses every row. */
  lemma MissingSpeedEmptiesTrialAsWritten(peds: seq<PedsRow>, cars: seq<CarsRow>)
    requires forall k | 0 <= k < |cars| :: cars[k].xVel.None?
    ensures Visible(Merge(peds, cars), true) == []
  {
    MergedRowsPairEqualTimes(peds, cars);
    SpeedlessRowsAreDropped(Merge(peds, cars));
  }

  /** A one-row witness: the row is complete apart from the speed, yet the trial is dropped. */
  lemma MissingSpeedWitness()
    ensures Visible([MergedRow(0.0, Some(1.0), Some(500.0), None)], true) == []
    ensures Visible([MergedRow(0.0, Some(1.0), Some(500.0), None)], false) == [CleanRow(0.0, 1.0, 500.0)]
  {
    var rows := [MergedRow(0.0, Some(1.0), Some(500.0), None)];
    assert rows[..0] == [];
  }

  /** Corrected: the optional speed column has no influence on which rows a trial uses. */
  lemma {:induction false} SpeedColumnIsOptional(rows: seq<MergedRow>, other: seq<MergedRow>)
    requires |rows| == |other|
    requires forall k | 0 <= k < |rows| ::
               rows[k].time == other[k].time && rows[k].crossing == other[k].crossing && rows[k].xCars == other[k].xCars
    ensures Visible(rows, false) == Visible(other, false)
  {
    if rows != [] {
      SpeedColumnIsOptional(rows[..|rows| - 1], other[..|other| - 1]);
    }
  }

  // ---------------------------------------------------------------------------
  // Stacking the series of the selected trials.
  // ---------------------------------------------------------------------------

  /** One analysed trial; series values are None where they are not finite. */
  datatype TrialRecord = TrialRecord(trial: int, velocityKmh: Option<real>, position: int, weather: Option<string>,
                                     gap: seq<Option<real>>, cross: seq<Option<real>>)

  datatype Sample = Sample(gap: real, crossing: real, velocityKmh: Option<real>, weather: string, position: int, trial: int)

  /** str() of the weather cell: a missing value prints as "None". */
  function WeatherText(w: Option<string>): string
  {
    match w case None => "None" case Some(s) => s
  }

  /** The finite samples of the two series truncated to the shorter one, in index order. */
  function TrialSamples(t: TrialRecord, n: nat): (r: seq<Sample>)
    requires n <= |t.gap| && n <= |t.cross|
    ensures |r| <= n
    ensures forall k | 0 <= k < n && t.gap[k].Some? && t.cross[k].Some? :: SampleAt(t, k).value in r
  {
    if n == 0 then []
    else
      var init := TrialSamples(t, n - 1);
      match (t.gap[n - 1], t.cross[n - 1])
      case (Some(g), Some(c)) => init + [Sample(g, c, t.velocityKmh, WeatherText(t.weather), t.position, t.trial)]
      case _ => init
  }

  /** The sample of index `k`, when both values there are finite. */
  function SampleAt(t: TrialRecord, k: int): (r: Option<Sample>)
    ensures r.Some? <==> 0 <= k < |t.gap| && k < |t.cross| && t.gap[k].Some? && t.cross[k].Some?
  {
    if 0 <= k < |t.gap| && k < |t.cross| && t.gap[k].Some? && t.cross[k].Some? then
      Some(Sample(t.gap[k].value, t.cross[k].value, t.velocityKmh, WeatherText(t.weather), t.position, t.trial))
    else None
  }

  function SampleOf(t: TrialRecord): int -> Option<Sample>
  {
    (k: int) => SampleAt(t, k)
  }

  /**
   * The samples are the finite pairs taken in increasing index: with FilterMap's order
   * lemmas, the sample of index k comes before that of any later index.
   */
  lemma {:induction false} TrialSamplesInIndexOrder(t: TrialRecord, n: nat)
    requires n <= |t.gap| && n <= |t.cross|
    ensures TrialSamples(t, n) == FilterMap(Range(n), SampleOf(t))
  {
    if n > 0 {
      var f := SampleOf(t);
      TrialSamplesInIndexOrder(t, n - 1);
      RangeStep(n - 1);
      FilterMapConcat(Range(n - 1), [n - 1], f);
      FilterMapOne(n - 1, f);
      assert f(n - 1) == SampleAt(t, n - 1);
      TrialSamplesStep(t, n);
      calc {
        FilterMap(Range(n), f);
        FilterMap(Range(n - 1), f) + FilterMap([n - 1], f);
        TrialSamples(t, n - 1) + KeptOf(n - 1, f);
      }
    }
  }

  lemma TrialSamplesStep(t: TrialRecord, n: nat)
    requires 0 < n <= |t.gap| && n <= |t.cross|
    ensures TrialSamples(t, n) == TrialSamples(t, n - 1)
              + if SampleAt(t, n - 1).Some? then [SampleAt(t, n - 1).value] else []
  {
  }

  /** The long table of every trial's finite samples, trial after trial. */
  function Stacked(trials: seq<TrialRecord>): (r: seq<Sample>)
    ensures |r| <= SeriesBudget(trials)
  {
    if trials == [] then []
    else
      var t := trials[|trials| - 1];
      Stacked(trials[..|trials| - 1]) + TrialSamples(t, Min(|t.gap|, |t.cross|))
  }

  method TrialFrame(t: TrialRecord) returns (rows: seq<Sample>)
    ensures rows == TrialSamples(t, Min(|t.gap|, |t.cross|))
  {
    var n := Min(|t.gap|, |t.cross|);
    rows := [];
    var k := 0;
    while k < n
      invariant 0 <= k <= n
      invariant rows == TrialSamples(t, k)
    {
      if t.gap[k].Some? && t.cross[k].Some? {
        rows := rows + [Sample(t.gap[k].value, t.cross[k].value, t.velocityKmh, WeatherText(t.weather), t.position, t.trial)];
      }
      k := k + 1;
    }
  }

  /** The long table of every trial's finite samples, trial after trial. */
  method StackSamples(trials: seq<TrialRecord>) returns (rows: seq<Sample>)
    ensures rows == Stacked(trials)
  {
    rows := [];
    var i := 0;
    while i < |trials|
      invariant 0 <= i <= |trials|
      invariant rows == Stacked(trials[..i])
    {
      var t := trials[i];
      assert trials[..i + 1][..i] == trials[..i];
      if |t.gap| == 0 || |t.cross| == 0 {
        i := i + 1;
        continue;
      }
      var part := TrialFrame(t);
      rows := rows + part;
      i := i + 1;
    }
    assert trials[..|trials|] == trials;
  }

  /** Each stacked sample is a finite pair of one trial, under that trial's attributes. */
  lemma {:induction false} TrialSamplesFromTrial(t: TrialRecord, n: nat, j: nat)
    requires n <= |t.gap| && n <= |t.cross| && j < |TrialSamples(t, n)|
    ensures exists k | 0 <= k < n ::
              t.gap[k].Some? && t.cross[k].Some?
              && TrialSamples(t, n)[j] == Sample(t.gap[k].value, t.cross[k].value, t.velocityKmh,
                                                  WeatherText(t.weather), t.position, t.trial)
  {
    if j < |TrialSamples(t, n - 1)| {
      TrialSamplesFromTrial(t, n - 1, j);
    }
  }

  lemma {:induction false} StackedFromTrials(trials: seq<TrialRecord>, j: nat)
    requires j < |Stacked(trials)|
    ensures exists i | 0 <= i < |trials| :: Stacked(trials)[j].trial == trials[i].trial
              && Stacked(trials)[j].weather == WeatherText(trials[i].weather)
              && Stacked(trials)[j].position == trials[i].position
  {
    var init := trials[..|trials| - 1];
    var t := trials[|trials| - 1];
    if j < |Stacked(init)| {
      StackedFromTrials(init, j);
      var i :| 0 <= i < |init| && Stacked(init)[j].trial == init[i].trial
               && Stacked(init)[j].weather == WeatherText(init[i].weather) && Stacked(init)[j].position == init[i].position;
      assert trials[i] == init[i];
    } else {
      TrialSamplesFromTrial(t, Min(|t.gap|, |t.cross|), j - |Stacked(init)|);
    }
  }

  /** The samples one trial contributes to the long table. */
  function TrialPart(): TrialRecord -> seq<Sample>
  {
    (t: TrialRecord) => TrialSamples(t, Min(|t.gap|, |t.cross|))
  }

  lemma {:induction false} StackedIsFlat(trials: seq<TrialRecord>)
    ensures Stacked(trials) == FlatMap(trials, TrialPart())
  {
    if trials != [] {
      StackedIsFlat(trials[..|trials| - 1]);
    }
  }

  /** pd.concat stacks the trials in the order given: stacking two runs is stacking each. */
  lemma StackedConcat(a: seq<TrialRecord>, b: seq<TrialRecord>)
    ensures Stacked(a + b) == Stacked(a) + Stacked(b)
  {
    StackedIsFlat(a + b);
    StackedIsFlat(a);
    StackedIsFlat(b);
    FlatMapConcat(a, b, TrialPart());
  }

  /** A trial contributes at most as many samples as its shorter series. */
  lemma {:induction false} StackedSize(trials: seq<TrialRecord>)
    ensures |Stacked(trials)| <= SeriesBudget(trials)
  {
    if trials != [] {
      StackedSize(trials[..|trials| - 1]);
    }
  }

  function SeriesBudget(trials: seq<TrialRecord>): nat
  {
    if trials == [] then 0
    else
      var t := trials[|trials| - 1];
      SeriesBudget(trials[..|trials| - 1]) + Min(|t.gap|, |t.cross|)
  }

  // ---------------------------------------------------------------------------
  // Time before impact.
  // ---------------------------------------------------------------------------

  /** Safety distance over the speed in m/s; NaN unless the distance exists and the speed is positive. */
  function Eoci(safetyDistance: Option<real>, velocityKmh: Option<real>): (r: Option<real>)
    ensures r.Some? <==> safetyDistance.Some? && velocityKmh.Some? && velocityKmh.value > 0.0
    ensures r.Some? ==> r.value * (velocityKmh.value / 3.6) == safetyDistance.value
  {
    match (safetyDistance, velocityKmh)
    case (Some(d), Some(v)) => if v / 3.6 > 0.0 then Some(d / (v / 3.6)) else None
    case _ => None
  }
}

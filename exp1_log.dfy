// Experiment 1 log analysis: the car disappears from the participant's view and the
// participant presses when they think it reaches them. The analysis finds the moment
// of disappearance in the car's x trace, the first press, the theoretical travel
// time, the timing error and the error metrics per group.
module Exp1Log {
  import opened Common
  import NumText

  // ---------------------------------------------------------------------------
  // Header normalisation of cars.csv.
  // ---------------------------------------------------------------------------

  /** The four canonical names of the cars log. */
  const CarsTargets: seq<string> := ["Time", "Time_estimated", "X_pos", "X_est"]

  /** The canonical name a cars-log column is renamed to, if any. */
  function CarsTarget(c: string): (r: Option<string>)
    ensures r.Some? ==> r.value in CarsTargets
  {
    var l := Lower(Strip(c));
    if l == "time" then Some("Time")
    else if Contains(l, "time_est") then Some("Time_estimated")
    else if Contains(l, "x_pos") || l == "x" then Some("X_pos")
    else if Contains(l, "x_est") then Some("X_est")
    else None
  }

  function Rename(cols: seq<string>): (r: seq<string>)
    ensures |r| == |cols|
    ensures forall k | 0 <= k < |cols| ::
              r[k] == match CarsTarget(cols[k]) case Some(t) => t case None => cols[k]
    ensures forall k | 0 <= k < |cols| :: r[k] == cols[k] || r[k] in CarsTargets
  {
    seq(|cols|, k requires 0 <= k < |cols| => match CarsTarget(cols[k]) case Some(t) => t case None => cols[k])
  }

  /** The loaded header, and whether X_est had to be added as a column of zeros. */
  datatype CarsHeader = CarsHeader(columns: seq<string>, pressColumnFilled: bool)

  function ReadCarsHeader(fileName: string, cols: seq<string>): (r: Result<CarsHeader>)
    ensures r.Ok? <==> "Time" in Rename(cols) && "Time_estimated" in Rename(cols) && "X_pos" in Rename(cols)
    ensures r.Err? && "Time" !in Rename(cols) ==> r.error == fileName + ": colonne manquante 'Time'"
    ensures r.Err? && "Time" in Rename(cols) && "Time_estimated" !in Rename(cols) ==>
              r.error == fileName + ": colonne manquante 'Time_estimated'"
    ensures r.Err? && "Time" in Rename(cols) && "Time_estimated" in Rename(cols) ==>
              r.error == fileName + ": colonne manquante 'X_pos'"
    ensures r.Ok? ==> "X_est" in r.value.columns && Rename(cols) <= r.value.columns
                      && (r.value.pressColumnFilled <==> "X_est" !in Rename(cols))
  {
    var named := Rename(cols);
    if "Time" !in named then Err(fileName + ": colonne manquante 'Time'")
    else if "Time_estimated" !in named then Err(fileName + ": colonne manquante 'Time_estimated'")
    else if "X_pos" !in named then Err(fileName + ": colonne manquante 'X_pos'")
    else if "X_est" in named then Ok(CarsHeader(named, false))
    else Ok(CarsHeader(named + ["X_est"], true))
  }

  // ---------------------------------------------------------------------------
  // Disappearance of the car.
  // ---------------------------------------------------------------------------

  /** The tolerance of the start mask. */
  const StartSlack: real := 0.000001

  /** The default zero threshold of the x trace. */
  const DefaultEps: real := 0.000001

  function MinOf(t: seq<real>): (r: real)
    requires |t| > 0
    ensures (exists k | 0 <= k < |t| :: t[k] == r) && forall k | 0 <= k < |t| :: r <= t[k]
  {
    if |t| == 1 then t[0]
    else
      var m := MinOf(t[..|t| - 1]);
      assert forall k | 0 <= k < |t| - 1 :: t[..|t| - 1][k] == t[k];
      if t[|t| - 1] < m then t[|t| - 1] else m
  }

  function CountTrue(m: seq<bool>): (r: nat)
    ensures r <= |m|
  {
    if m == [] then 0 else CountTrue(m[..|m| - 1]) + (if m[|m| - 1] then 1 else 0)
  }

  /** The samples at or after the earliest time plus the ignored head (with a 1e-6 slack). */
  function Started(t: seq<real>, ignoreFirst: real): (r: seq<bool>)
    requires |t| > 0
    ensures |r| == |t|
  {
    seq(|t|, k requires 0 <= k < |t| => t[k] >= MinOf(t) + ignoreFirst - StartSlack)
  }

  /** Samples after the ignored head; every sample when fewer than two remain. */
  function StartMask(t: seq<real>, ignoreFirst: real): (r: seq<bool>)
    requires |t| > 0
    ensures |r| == |t|
    ensures CountTrue(Started(t, ignoreFirst)) >= 2 ==>
              forall k | 0 <= k < |t| :: r[k] <==> t[k] >= MinOf(t) + ignoreFirst - StartSlack
    ensures CountTrue(Started(t, ignoreFirst)) < 2 ==> forall k | 0 <= k < |t| :: r[k]
  {
    var m := Started(t, ignoreFirst);
    if CountTrue(m) < 2 then seq(|t|, k => true) else m
  }

  /** The mask never keeps a sample while dropping a later one: it cuts off a head in time. */
  lemma StartMaskKeepsLaterSamples(t: seq<real>, ignoreFirst: real, i: nat, j: nat)
    requires |t| > 0 && i < |t| && j < |t|
    requires StartMask(t, ignoreFirst)[i] && t[i] <= t[j]
    ensures StartMask(t, ignoreFirst)[j]
  {
  }

  /** Boolean indexing `s[mask]`. */
  function Masked<T>(s: seq<T>, m: seq<bool>): (r: seq<T>)
    requires |s| == |m|
    ensures |r| == CountTrue(m)
  {
    if s == [] then []
    else Masked(s[..|s| - 1], m[..|m| - 1]) + (if m[|m| - 1] then [s[|s| - 1]] else [])
  }

  lemma {:induction false} MaskedFromInput<T>(s: seq<T>, m: seq<bool>, j: nat)
    requires |s| == |m| && j < |Masked(s, m)|
    ensures exists k | 0 <= k < |s| :: m[k] && Masked(s, m)[j] == s[k]
  {
    var init := Masked(s[..|s| - 1], m[..|m| - 1]);
    if j < |init| {
      MaskedFromInput(s[..|s| - 1], m[..|m| - 1], j);
      var k :| 0 <= k < |s| - 1 && m[..|m| - 1][k] && init[j] == s[..|s| - 1][k];
      assert m[k] && s[k] == s[..|s| - 1][k];
    } else {
      assert m[|m| - 1] && Masked(s, m)[j] == s[|s| - 1];
    }
  }

  /** NaN compares false with the threshold, so it counts as zero. */
  predicate NonZero(v: Option<real>, eps: real)
    ensures v.None? ==> !NonZero(v, eps)
    ensures eps >= 0.0 && NonZero(v, eps) ==> v.value != 0.0
  {
    v.Some? && Abs(v.value) > eps
  }

  /** After a drop at `i`, the next `hold` samples (clipped at the end) are all zero. */
  predicate HeldDrop(x: seq<Option<real>>, i: nat, hold: nat, eps: real)
  {
    i + 1 < |x| && NonZero(x[i], eps) && !NonZero(x[i + 1], eps)
    && forall k | i + 1 <= k < Min(i + 1 + hold, |x|) :: !NonZero(x[k], eps)
  }

  /** A drop held for a longer stretch is also held for any shorter one. */
  lemma LongerHoldIsStricter(x: seq<Option<real>>, i: nat, h1: nat, h2: nat, eps: real)
    requires h1 <= h2 && HeldDrop(x, i, h2, eps)
    ensures HeldDrop(x, i, h1, eps)
  {
  }

  function FirstHeldDrop(x: seq<Option<real>>, hold: nat, eps: real, from: nat): (r: Option<nat>)
    ensures r.Some? ==> from <= r.value && HeldDrop(x, r.value, hold, eps)
                        && forall k | from <= k < r.value :: !HeldDrop(x, k, hold, eps)
    ensures r.None? ==> forall k | from <= k :: !HeldDrop(x, k, hold, eps)
    decreases |x| - from
  {
    if from + 1 >= |x| then None
    else if HeldDrop(x, from, hold, eps) then Some(from)
    else FirstHeldDrop(x, hold, eps, from + 1)
  }

  /** numpy's ordering for argmin of |x|: NaN is smallest, then by absolute value. */
  predicate AbsBefore(a: Option<real>, b: Option<real>)
  {
    (a.None? && b.Some?) || (a.Some? && b.Some? && Abs(a.value) < Abs(b.value))
  }

  /** np.argmin(np.abs(x)) over the first `n` samples: the first NaN, else the first minimum. */
  function ArgMinAbs(x: seq<Option<real>>, n: nat): (r: nat)
    requires 0 < n <= |x|
    ensures r < n
    ensures forall k | 0 <= k < n :: !AbsBefore(x[k], x[r])
    ensures forall k | 0 <= k < r :: AbsBefore(x[r], x[k])
  {
    if n == 1 then 0
    else
      var j := ArgMinAbs(x, n - 1);
      if AbsBefore(x[n - 1], x[j]) then n - 1 else j
  }

  /**
   * The time the car disappears: the first nonzero-to-zero drop that stays zero for
   * `hold` samples, else the time of the smallest |x|; None when there are no samples.
   */
  function Disappearance(t: seq<real>, x: seq<Option<real>>, ignoreFirst: real, hold: nat, eps: real): Option<real>
    requires |t| == |x|
  {
    if |t| == 0 then None
    else
      var m := StartMask(t, ignoreFirst);
      var t2, x2 := Masked(t, m), Masked(x, m);
      match FirstHeldDrop(x2, hold, eps, 0)
      case Some(i) => Some(t2[i + 1])
      case None =>
        if |x2| == 0 then None else Some(t2[ArgMinAbs(x2, |x2|)])
  }

  /** At least two samples (or every sample) survive the start mask. */
  lemma {:induction false} StartMaskKeepsSamples(t: seq<real>, ignoreFirst: real)
    requires |t| > 0
    ensures CountTrue(StartMask(t, ignoreFirst)) >= 1
  {
    if CountTrue(Started(t, ignoreFirst)) < 2 {
      AllTrueCount(|t|);
    }
  }

  lemma {:induction false} AllTrueCount(n: nat)
    ensures CountTrue(seq(n, k => true)) == n
  {
    if n > 0 {
      assert seq(n, k => true)[..n - 1] == seq(n - 1, k => true);
      AllTrueCount(n - 1);
    }
  }

  lemma {:induction false} MaskedAllTrue<T>(s: seq<T>)
    ensures Masked(s, seq(|s|, k => true)) == s
  {
    if s != [] {
      assert seq(|s|, k => true)[..|s| - 1] == seq(|s| - 1, k => true);
      MaskedAllTrue(s[..|s| - 1]);
    }
  }

  /** The detected time is always one of the input times that passed the start mask. */
  lemma DisappearanceIsAMaskedTime(t: seq<real>, x: seq<Option<real>>, ignoreFirst: real, hold: nat, eps: real)
    requires |t| == |x| && |t| > 0
    ensures Disappearance(t, x, ignoreFirst, hold, eps).Some?
    ensures exists k | 0 <= k < |t| :: StartMask(t, ignoreFirst)[k]
                                       && Disappearance(t, x, ignoreFirst, hold, eps).value == t[k]
  {
    var m := StartMask(t, ignoreFirst);
    StartMaskKeepsSamples(t, ignoreFirst);
    var t2, x2 := Masked(t, m), Masked(x, m);
    match FirstHeldDrop(x2, hold, eps, 0)
    case Some(i) => MaskedFromInput(t, m, i + 1);
    case None => MaskedFromInput(t, m, ArgMinAbs(x2, |x2|));
  }

  method MinTime(t: seq<real>) returns (r: real)
    requires |t| > 0
    ensures r == MinOf(t)
  {
    r := t[0];
    var k := 1;
    while k < |t|
      invariant 1 <= k <= |t|
      invariant r == MinOf(t[..k])
    {
      assert t[..k + 1][..k] == t[..k];
      if t[k] < r {
        r := t[k];
      }
      k := k + 1;
    }
    assert t[..|t|] == t;
  }

  method ApplyMask<T>(s: seq<T>, m: seq<bool>) returns (r: seq<T>)
    requires |s| == |m|
    ensures r == Masked(s, m)
  {
    r := [];
    var k := 0;
    while k < |s|
      invariant 0 <= k <= |s|
      invariant r == Masked(s[..k], m[..k])
    {
      assert s[..k + 1][..k] == s[..k] && m[..k + 1][..k] == m[..k];
      if m[k] {
        r := r + [s[k]];
      }
      k := k + 1;
    }
    assert s[..|s|] == s && m[..|m|] == m;
  }

  /** The loop over the drops, returning at the first one held long enough. */
  method FindHeldDrop(x: seq<Option<real>>, hold: nat, eps: real) returns (r: Option<nat>)
    ensures r == FirstHeldDrop(x, hold, eps, 0)
  {
    var i := 0;
    while i + 1 < |x|
      invariant FirstHeldDrop(x, hold, eps, 0) == FirstHeldDrop(x, hold, eps, i)
      decreases |x| - i
    {
      if NonZero(x[i], eps) && !NonZero(x[i + 1], eps) {
        var i2 := Min(i + 1 + hold, |x|);
        if forall k | i + 1 <= k < i2 :: !NonZero(x[k], eps) {
          return Some(i);
        }
      }
      i := i + 1;
    }
    r := None;
  }

  method ArgMinAbsIndex(x: seq<Option<real>>) returns (j: nat)
    requires |x| > 0
    ensures j == ArgMinAbs(x, |x|)
  {
    j := 0;
    var n := 1;
    while n < |x|
      invariant 1 <= n <= |x|
      invariant j == ArgMinAbs(x, n)
    {
      if AbsBefore(x[n], x[j]) {
        j := n;
      }
      n := n + 1;
    }
  }

  method DisappearanceTime(t: seq<real>, x: seq<Option<real>>, ignoreFirst: real, hold: nat, eps: real)
    returns (r: Option<real>)
    requires |t| == |x|
    ensures r == Disappearance(t, x, ignoreFirst, hold, eps)
  {
    if |t| == 0 {
      return None;
    }
    var tmin := MinTime(t);
    var mask := seq(|t|, k requires 0 <= k < |t| => t[k] >= tmin + ignoreFirst - StartSlack);
    if CountTrue(mask) < 2 {
      mask := seq(|t|, k => true);
    }
    assert mask == StartMask(t, ignoreFirst);
    var t2 := ApplyMask(t, mask);
    var x2 := ApplyMask(x, mask);
    var drop := FindHeldDrop(x2, hold, eps);
    if drop.Some? {
      return Some(t2[drop.value + 1]);
    }
    if |x2| == 0 {
      return None;
    }
    var j := ArgMinAbsIndex(x2);
    r := Some(t2[j]);
  }

  /** A trace that drops to zero for good is cut at the first zero sample. */
  lemma DropToZeroExample()
    ensures Disappearance([0.0, 1.0, 2.0, 3.0], [Some(5.0), Some(3.0), Some(0.0), Some(0.0)], 0.0, 2, DefaultEps)
            == Some(2.0)
  {
    var t := [0.0, 1.0, 2.0, 3.0];
    var x := [Some(5.0), Some(3.0), Some(0.0), Some(0.0)];
    assert MinOf(t) == 0.0;
    var m := seq(4, k requires 0 <= k < 4 => t[k] >= MinOf(t) + 0.0 - StartSlack);
    assert m == seq(4, k => true);
    AllTrueCount(4);
    assert StartMask(t, 0.0) == m;
    MaskedAllTrue(t);
    MaskedAllTrue(x);
    assert !HeldDrop(x, 0, 2, DefaultEps);
    assert HeldDrop(x, 1, 2, DefaultEps);
    assert FirstHeldDrop(x, 2, DefaultEps, 1) == Some(1);
  }

  // ---------------------------------------------------------------------------
  // The participant's press.
  // ---------------------------------------------------------------------------

  datatype PressSource = TimeEstimated | PressX

  /** A cars.csv row as the press detection reads it; None is NaN. */
  datatype PressRow = PressRow(time: real, timeEstimated: Option<real>, xEst: Option<real>)

  /** `!= 0`: NaN differs from zero, so it counts as a press. */
  predicate Pressed(row: PressRow, source: PressSource)
  {
    var v := if source == TimeEstimated then row.timeEstimated else row.xEst;
    v.None? || v.value != 0.0
  }

  function FirstPressIndex(rows: seq<PressRow>, source: PressSource): (r: Option<nat>)
    ensures r.Some? ==> r.value < |rows| && Pressed(rows[r.value], source)
                        && forall k | 0 <= k < r.value :: !Pressed(rows[k], source)
    ensures r.None? ==> forall k | 0 <= k < |rows| :: !Pressed(rows[k], source)
  {
    if rows == [] then None
    else if Pressed(rows[0], source) then Some(0)
    else match FirstPressIndex(rows[1..], source)
      case None => None
      case Some(i) => Some(i + 1)
  }

  /** The time of the first row whose chosen press column is not zero. */
  function FirstPressTime(rows: seq<PressRow>, source: PressSource): (r: Option<real>)
    ensures r.None? <==> forall k | 0 <= k < |rows| :: !Pressed(rows[k], source)
    ensures r.Some? ==> exists k | 0 <= k < |rows| :: Pressed(rows[k], source) && rows[k].time == r.value
                                   && forall j | 0 <= j < k :: !Pressed(rows[j], source)
  {
    match FirstPressIndex(rows, source)
    case None => None
    case Some(i) => Some(rows[i].time)
  }

  /** With X_est absent the column is all zeros, so that source never reports a press. */
  lemma FilledPressColumnNeverPresses(rows: seq<PressRow>)
    requires forall k | 0 <= k < |rows| :: rows[k].xEst == Some(0.0)
    ensures FirstPressTime(rows, PressX).None?
  {
  }

  // ---------------------------------------------------------------------------
  // One trial.
  // ---------------------------------------------------------------------------

  /** The disappearance distance read from the plan: the number in the cell, made absolute. */
  function DisappearDistance(cell: string): (r: Option<real>)
    ensures r.Some? <==> NumText.NumFromAny(cell).Some?
    ensures r.Some? ==> r.value >= 0.0 && Abs(NumText.NumFromAny(cell).value) == r.value
  {
    match NumText.NumFromAny(cell)
    case None => None
    case Some(d) => Some(Abs(d))
  }

  /** Theoretical travel time: distance over km/h / 3.6, when both are known and the speed is positive. */
  function TrueTime(distance: Option<real>, velocityKmh: Option<real>): (r: Option<real>)
    ensures r.Some? <==> distance.Some? && velocityKmh.Some? && velocityKmh.value > 0.0
    ensures r.Some? ==> r.value * (velocityKmh.value / 3.6) == distance.value
  {
    if distance.Some? && velocityKmh.Some? && velocityKmh.value / 3.6 > 0.0
    then Some(distance.value / (velocityKmh.value / 3.6))
    else None
  }

  /** Perceived time: press minus disappearance, when both exist. */
  function PerceivedTime(press: Option<real>, disappear: Option<real>): (r: Option<real>)
    ensures r.Some? <==> press.Some? && disappear.Some?
    ensures r.Some? ==> disappear.value + r.value == press.value
  {
    if press.None? || disappear.None? then None else Some(press.value - disappear.value)
  }

  /** Timing error: perceived minus theoretical time; NaN when either is missing. */
  function TrialError(press: Option<real>, disappear: Option<real>, trueTime: Option<real>): (r: Option<real>)
    ensures r.Some? <==> press.Some? && disappear.Some? && trueTime.Some?
    ensures r.Some? ==> r.value + trueTime.value == PerceivedTime(press, disappear).value
  {
    match PerceivedTime(press, disappear)
    case None => None
    case Some(p) => if trueTime.None? then None else Some(p - trueTime.value)
  }

  /** The tolerance test; a missing error is never correct. */
  function Correct(err: Option<real>, tolerance: real): (r: bool)
    ensures r <==> err.Some? && -tolerance <= err.value <= tolerance
  {
    err.Some? && Abs(err.value) <= tolerance
  }

  /** A correct trial pressed within `tolerance` of the theoretical arrival time. */
  lemma CorrectTrialPressedNearArrival(press: Option<real>, disappear: Option<real>, distance: Option<real>,
                                       velocityKmh: Option<real>, tolerance: real)
    requires Correct(TrialError(press, disappear, TrueTime(distance, velocityKmh)), tolerance)
    ensures press.Some? && disappear.Some? && distance.Some? && velocityKmh.Some? && velocityKmh.value > 0.0
    ensures var arrival := disappear.value + distance.value / (velocityKmh.value / 3.6);
            arrival - tolerance <= press.value <= arrival + tolerance
  {
  }

  // ---------------------------------------------------------------------------
  // Error metrics.
  // ---------------------------------------------------------------------------

  datatype Outcome = Outcome(err: Option<real>, correct: bool)

  /** dropna() on the error column: the present errors, in row order. */
  function Errors(rows: seq<Outcome>): (r: seq<real>)
    ensures |r| <= |rows|
    ensures forall j | 0 <= j < |r| :: exists k | 0 <= k < |rows| :: rows[k].err == Some(r[j])
    ensures forall k | 0 <= k < |rows| && rows[k].err.Some? :: rows[k].err.value in r
  {
    if rows == [] then []
    else
      var p := rows[..|rows| - 1];
      assert forall k | 0 <= k < |p| :: p[k] == rows[k];
      Errors(p) + (match rows[|rows| - 1].err case Some(e) => [e] case None => [])
  }

  function ErrorOf(): Outcome -> Option<real>
  {
    (o: Outcome) => o.err
  }

  lemma {:induction false} ErrorsAreFiltered(rows: seq<Outcome>)
    ensures Errors(rows) == FilterMap(rows, ErrorOf())
  {
    if rows != [] {
      ErrorsAreFiltered(rows[..|rows| - 1]);
    }
  }

  /** dropna keeps the rows' order. */
  lemma ErrorsKeepOrder(a: seq<Outcome>, b: seq<Outcome>, o: Outcome)
    ensures Errors(a + b) == Errors(a) + Errors(b)
    ensures Errors([o]) == if o.err.Some? then [o.err.value] else []
  {
    ErrorsAreFiltered(a + b);
    ErrorsAreFiltered(a);
    ErrorsAreFiltered(b);
    ErrorsAreFiltered([o]);
    FilterMapConcat(a, b, ErrorOf());
    FilterMapOne(o, ErrorOf());
  }

  function CorrectCount(rows: seq<Outcome>): (r: nat)
    ensures r <= |rows|
  {
    if rows == [] then 0 else CorrectCount(rows[..|rows| - 1]) + (if rows[|rows| - 1].correct then 1 else 0)
  }

  /** The share of correct rows, over every row given. */
  function CorrectShare(rows: seq<Outcome>): (r: real)
    requires |rows| > 0
    ensures 0.0 <= r <= 1.0
    ensures r * |rows| as real == CorrectCount(rows) as real
  {
    DivBounds(CorrectCount(rows) as real, |rows| as real, 0.0, 1.0);
    CorrectCount(rows) as real / |rows| as real
  }

  /** np.std(ddof=1) squared; a single error has variance 0. */
  function SampleVariance(s: seq<real>): (r: real)
    requires |s| > 0
    ensures |s| == 1 ==> r == 0.0
    ensures |s| > 1 ==> r * (|s| - 1) as real == Sum(Squares(Shifted(s, Mean(s).value)))
  {
    if |s| == 1 then 0.0
    else Sum(Squares(Shifted(s, Mean(s).value))) / (|s| - 1) as real
  }

  /**
   * The metrics row. RMSE and the standard deviation are the square roots of
   * `meanSquare` and `variance`.
   */
  datatype Metrics = Metrics(n: nat, bias: Option<real>, mae: Option<real>, meanSquare: Option<real>,
                             variance: Option<real>, pCorrect: Option<real>)

  function MetricsTable(rows: seq<Outcome>): (r: Metrics)
    ensures r.n == |Errors(rows)|
    ensures r.n == 0 ==> r == Metrics(0, None, None, None, None, None)
    ensures r.n > 0 ==> r.bias == Mean(Errors(rows)) && r.mae == Mean(AbsAll(Errors(rows)))
                        && r.meanSquare == Mean(Squares(Errors(rows)))
    ensures r.n > 0 ==> r.variance.Some? && r.pCorrect.Some? && 0.0 <= r.pCorrect.value <= 1.0
    ensures r.n > 0 ==> r.pCorrect == Some(CorrectShare(rows)) && r.variance == Some(SampleVariance(Errors(rows)))
    ensures r.n == 1 ==> r.variance == Some(0.0)
  {
    var s := Errors(rows);
    if |s| == 0 then Metrics(0, None, None, None, None, None)
    else Metrics(|s|, Mean(s), Mean(AbsAll(s)), Mean(Squares(s)), Some(SampleVariance(s)), Some(CorrectShare(rows)))
  }

  lemma AbsOfQuotient(a: real, n: real)
    requires n > 0.0
    ensures Abs(a / n) == Abs(a) / n
  {
    if a < 0.0 {
      assert -(a / n) == (-a) / n;
    }
  }

  /** The mean of |e| is at least |mean of e|. */
  lemma MeanAbsAtLeastAbsMean(s: seq<real>)
    requires |s| > 0
    ensures Mean(AbsAll(s)).value >= Abs(Mean(s).value)
  {
    var n := |s| as real;
    AbsSumLeSumAbs(s);
    AbsOfQuotient(Sum(s), n);
    DivMonotone(Abs(Sum(s)), Sum(AbsAll(s)), n);
  }

  /** The mean absolute error is never below the absolute bias. */
  lemma MaeAtLeastAbsBias(rows: seq<Outcome>)
    requires |Errors(rows)| > 0
    ensures MetricsTable(rows).mae.value >= Abs(MetricsTable(rows).bias.value)
  {
    MeanAbsAtLeastAbsMean(Errors(rows));
  }

  lemma SampleVarianceNonNegative(s: seq<real>)
    requires |s| > 0
    ensures SampleVariance(s) >= 0.0
  {
    if |s| > 1 {
      var q := Squares(Shifted(s, Mean(s).value));
      SumOfSquaresNonNegative(Shifted(s, Mean(s).value));
      DivMonotone(0.0, Sum(q), (|s| - 1) as real);
    }
  }

  /** The variance (and so the standard deviation) is never negative. */
  lemma VarianceNonNegative(rows: seq<Outcome>)
    requires |Errors(rows)| > 0
    ensures MetricsTable(rows).variance.value >= 0.0
  {
    SampleVarianceNonNegative(Errors(rows));
  }

  // ---------------------------------------------------------------------------
  // Aggregation per group.
  // ---------------------------------------------------------------------------

  /** The rows of one group. */
  function Group<K(==)>(keys: seq<Option<K>>, rows: seq<Outcome>, key: K): (r: seq<Outcome>)
    requires |keys| == |rows|
    ensures |r| <= |rows|
  {
    if rows == [] then []
    else
      Group(keys[..|keys| - 1], rows[..|rows| - 1], key)
        + (if keys[|keys| - 1] == Some(key) then [rows[|rows| - 1]] else [])
  }

  /** Each row of a group is a row that carries its key. */
  lemma {:induction false} GroupRowFromInput<K>(keys: seq<Option<K>>, rows: seq<Outcome>, key: K, j: nat)
    requires |keys| == |rows| && j < |Group(keys, rows, key)|
    ensures exists k | 0 <= k < |rows| :: keys[k] == Some(key) && Group(keys, rows, key)[j] == rows[k]
  {
    var p, q := keys[..|keys| - 1], rows[..|rows| - 1];
    var init := Group(p, q, key);
    if j < |init| {
      GroupRowFromInput(p, q, key, j);
      var k :| 0 <= k < |q| && p[k] == Some(key) && init[j] == q[k];
      assert keys[k] == p[k] && rows[k] == q[k];
    } else {
      assert keys[|keys| - 1] == Some(key) && Group(keys, rows, key)[j] == rows[|rows| - 1];
    }
  }

  /** Every row that carries the key is in its group. */
  lemma {:induction false} GroupHasKeyedRows<K>(keys: seq<Option<K>>, rows: seq<Outcome>, key: K)
    requires |keys| == |rows|
    ensures forall k | 0 <= k < |rows| && keys[k] == Some(key) :: rows[k] in Group(keys, rows, key)
  {
    if rows != [] {
      var p, q := keys[..|keys| - 1], rows[..|rows| - 1];
      GroupHasKeyedRows(p, q, key);
      var init := Group(p, q, key);
      var r := Group(keys, rows, key);
      forall k | 0 <= k < |rows| && keys[k] == Some(key)
        ensures rows[k] in r
      {
        if k < |q| {
          assert p[k] == keys[k] && q[k] == rows[k];
          assert rows[k] in init;
        } else {
          assert r[|r| - 1] == rows[k];
        }
      }
    }
  }

  /** Every key present has its group in the table, and every group in the table is non-empty. */
  lemma AggregateCoversKeys<K>(keys: seq<Option<K>>, rows: seq<Outcome>, order: seq<K>, r: seq<(K, Metrics)>)
    requires |keys| == |rows|
    requires forall key: K :: key in order <==> Some(key) in keys
    requires |r| == |order| && forall i | 0 <= i < |r| :: r[i].0 == order[i]
    ensures forall k | 0 <= k < |keys| && keys[k].Some? :: exists i | 0 <= i < |r| :: r[i].0 == keys[k].value
    ensures forall i | 0 <= i < |r| :: Group(keys, rows, r[i].0) != []
  {
    forall i | 0 <= i < |r|
      ensures Group(keys, rows, r[i].0) != []
    {
      assert order[i] in order;
      var k :| 0 <= k < |keys| && keys[k] == Some(order[i]);
      GroupHasKeyedRows(keys, rows, order[i]);
      assert rows[k] in Group(keys, rows, order[i]);
    }
    forall k | 0 <= k < |keys| && keys[k].Some?
      ensures exists i | 0 <= i < |r| :: r[i].0 == keys[k].value
    {
      assert Some(keys[k].value) in keys;
      var i :| 0 <= i < |order| && order[i] == keys[k].value;
      assert r[i].0 == order[i];
    }
  }

  /**
   * groupby(key) then the metrics of each group, in the given key order. `order` is the
   * sorted list of the distinct keys present (rows with a missing key form no group).
   */
  method Aggregate<K(==)>(keys: seq<Option<K>>, rows: seq<Outcome>, order: seq<K>) returns (r: seq<(K, Metrics)>)
    requires |keys| == |rows|
    requires NoDup(order)
    requires forall key: K :: key in order <==> Some(key) in keys
    ensures |r| == |order|
    ensures forall k | 0 <= k < |keys| && keys[k].Some? :: exists i | 0 <= i < |r| :: r[i].0 == keys[k].value
    ensures forall i | 0 <= i < |r| :: Group(keys, rows, r[i].0) != []
    ensures forall i | 0 <= i < |order| :: r[i] == (order[i], MetricsTable(Group(keys, rows, order[i])))
  {
    r := [];
    var i := 0;
    while i < |order|
      invariant 0 <= i <= |order|
      invariant |r| == i
      invariant forall j | 0 <= j < i :: r[j] == (order[j], MetricsTable(Group(keys, rows, order[j])))
    {
      var g := Group(keys, rows, order[i]);
      r := r + [(order[i], MetricsTable(g))];
      i := i + 1;
    }
    AggregateCoversKeys(keys, rows, order, r);
  }

  /** A group has exactly as many rows as carry its key. */
  lemma {:induction false} GroupMembers<K>(keys: seq<Option<K>>, rows: seq<Outcome>, key: K)
    requires |keys| == |rows|
    ensures |Group(keys, rows, key)| == CountKey(keys, key)
  {
    if rows != [] {
      GroupMembers(keys[..|keys| - 1], rows[..|rows| - 1], key);
    }
  }

  function CountKey<K(==)>(keys: seq<Option<K>>, key: K): nat
  {
    if keys == [] then 0 else CountKey(keys[..|keys| - 1], key) + (if keys[|keys| - 1] == Some(key) then 1 else 0)
  }
}

// The released pedestrian crossing decision rule: a weather-scaled quadratic in the
// pedestrian's height and linear in the vehicle speed gives the perceived time to
// collision; the pedestrian crosses unless the kinematic time to collision is smaller.
module BehaviorModel {
  import opened Common

  datatype Weather = Clear | Night | Rain

  function WeatherName(w: Weather): string
  {
    match w
    case Clear => "clear"
    case Night => "night"
    case Rain => "rain"
  }

  /** The weather keys the model accepts; any other string is rejected. */
  function ParseWeather(s: string): (r: Option<Weather>)
    ensures r.Some? ==> WeatherName(r.value) == s
    ensures r.None? <==> (forall w: Weather :: WeatherName(w) != s)
  {
    if s == "clear" then Some(Clear)
    else if s == "night" then Some(Night)
    else if s == "rain" then Some(Rain)
    else None
  }

  // Fitted regression coefficients (height in cm, speed in km/h).
  const HeightCoef: real := -1.3614
  const HeightSquaredCoef: real := 0.0039
  const VelocityCoef: real := -0.0540
  const Intercept: real := 126.0592

  /** Weather-dependent perceptual scaling. */
  function Alpha(w: Weather): (r: real)
    ensures 0.96 < r < 1.04
  {
    match w
    case Clear => 1.0385
    case Night => 1.0008
    case Rain => 0.9681
  }

  /** Per-weather standard deviation used by the conservative threshold. */
  function Std(w: Weather): (r: real)
    ensures 0.72 <= r <= 1.0
  {
    match w
    case Clear => 1.0
    case Night => 0.94
    case Rain => 0.72
  }

  /** Per-weather mean error correction. */
  function MeanError(w: Weather): (r: real)
    ensures 0.0 <= r <= 0.04
    ensures r < 2.0 * Std(w)
  {
    match w
    case Clear => 0.04
    case Night => 0.0
    case Rain => 0.0
  }

  /** Perceived time to collision, in seconds. */
  function PredictedTime(w: Weather, height: real, velocity: real): real
  {
    Alpha(w) * (HeightCoef * height + HeightSquaredCoef * height * height
                + VelocityCoef * velocity + Intercept)
  }

  /** The conservative threshold: two standard deviations below, plus the mean error. */
  function AdjustedTime(w: Weather, height: real, velocity: real): (r: real)
    ensures r < PredictedTime(w, height, velocity)
    ensures PredictedTime(w, height, velocity) - r == 2.0 * Std(w) - MeanError(w)
  {
    PredictedTime(w, height, velocity) - 2.0 * Std(w) + MeanError(w)
  }

  /** km/h to m/s; a non-positive result is replaced by 1e-9 to avoid dividing by zero. */
  function SpeedMs(velocity: real): (r: real)
    ensures r > 0.0
    ensures velocity > 0.0 ==> r * 3.6 == velocity
    ensures velocity <= 0.0 ==> r == 0.000000001
  {
    var ms := velocity * 1000.0 / 3600.0;
    if ms <= 0.0 then 0.000000001 else ms
  }

  /** Kinematic time to collision: the distance covered at the (guarded) speed. */
  function RealTime(velocity: real, distance: real): (r: real)
    ensures r * SpeedMs(velocity) == distance
  {
    distance / SpeedMs(velocity)
  }

  /** The threshold the decision compares with: never above the perceived time, and equal to it only unadjusted. */
  function Threshold(w: Weather, height: real, velocity: real, useAdjusted: bool): (r: real)
    ensures r <= PredictedTime(w, height, velocity)
    ensures r == PredictedTime(w, height, velocity) <==> !useAdjusted
  {
    if useAdjusted then AdjustedTime(w, height, velocity) else PredictedTime(w, height, velocity)
  }

  /**
   * True when the pedestrian crosses. An unknown weather string is an error; the
   * default decision threshold is the unadjusted perceived time.
   */
  function Decide(weather: string, height: real, velocity: real, distance: real,
                  useAdjusted: bool := false): (r: Result<bool>)
    ensures r.Err? <==> ParseWeather(weather).None?
    ensures r.Ok? ==>
      (r.value <==> RealTime(velocity, distance) >= Threshold(ParseWeather(weather).value, height, velocity, useAdjusted))
  {
    match ParseWeather(weather)
    case None => Err("Weather '" + weather + "' not recognized. Choose among ['clear', 'night', 'rain']")
    case Some(w) =>
      if RealTime(velocity, distance) < Threshold(w, height, velocity, useAdjusted) then Ok(false)
      else Ok(true)
  }

  /** Exactly the three weather names are accepted. */
  lemma DecideAcceptsExactlyKnownWeathers(weather: string, height: real, velocity: real, distance: real, useAdjusted: bool)
    ensures Decide(weather, height, velocity, distance, useAdjusted).Ok?
            <==> weather in {"clear", "night", "rain"}
  {
  }

  /**
   * For a moving vehicle the rule is a distance bound: the pedestrian crosses exactly
   * when the gap is at least the threshold time travelled at the vehicle's speed.
   */
  lemma {:induction false} DecideIsDistanceBound(w: Weather, height: real, velocity: real, distance: real, useAdjusted: bool)
    requires velocity > 0.0
    ensures Decide(WeatherName(w), height, velocity, distance, useAdjusted)
            == Ok(distance >= Threshold(w, height, velocity, useAdjusted) * (velocity / 3.6))
  {
    var s := SpeedMs(velocity);
    var t := Threshold(w, height, velocity, useAdjusted);
    assert s == velocity / 3.6;
    assert ParseWeather(WeatherName(w)) == Some(w);
    GeqAfterScaling(RealTime(velocity, distance), t, s);
  }

  lemma GeqAfterScaling(x: real, t: real, s: real)
    requires s > 0.0
    ensures x >= t <==> x * s >= t * s
  {
    if x >= t {
      assert (x - t) * s >= 0.0;
    } else {
      assert (t - x) * s > 0.0;
    }
  }

  /** A pedestrian who crosses at some gap also crosses at every larger gap. */
  lemma {:induction false} CrossingMonotoneInDistance(weather: string, height: real, velocity: real,
                                                       d1: real, d2: real, useAdjusted: bool)
    requires d1 <= d2
    requires Decide(weather, height, velocity, d1, useAdjusted) == Ok(true)
    ensures Decide(weather, height, velocity, d2, useAdjusted) == Ok(true)
  {
    var s := SpeedMs(velocity);
    var w := ParseWeather(weather).value;
    assert RealTime(velocity, d2) - RealTime(velocity, d1) == (d2 - d1) / s;
    assert (d2 - d1) / s >= 0.0;
  }

  /** The adjusted threshold is lower, so it allows crossing wherever the default does. */
  lemma AdjustedThresholdIsMorePermissive(weather: string, height: real, velocity: real, distance: real)
    requires Decide(weather, height, velocity, distance) == Ok(true)
    ensures Decide(weather, height, velocity, distance, true) == Ok(true)
  {
  }

  /** The two thresholds disagree on a whole band of gaps: there the default refuses. */
  lemma {:induction false} ThresholdsDisagreeInBand(w: Weather, height: real, velocity: real, distance: real)
    requires RealTime(velocity, distance) < PredictedTime(w, height, velocity)
    requires RealTime(velocity, distance) >= AdjustedTime(w, height, velocity)
    ensures Decide(WeatherName(w), height, velocity, distance) == Ok(false)
    ensures Decide(WeatherName(w), height, velocity, distance, true) == Ok(true)
  {
    assert ParseWeather(WeatherName(w)) == Some(w);
  }

  /** Weather only rescales the perceived time: the ratio of two weathers is the ratio of their alphas. */
  lemma WeatherOnlyScalesPredictedTime(w1: Weather, w2: Weather, height: real, velocity: real)
    ensures PredictedTime(w1, height, velocity) * Alpha(w2) == PredictedTime(w2, height, velocity) * Alpha(w1)
  {
    var base := HeightCoef * height + HeightSquaredCoef * height * height + VelocityCoef * velocity + Intercept;
    assert PredictedTime(w1, height, velocity) == Alpha(w1) * base;
    assert PredictedTime(w2, height, velocity) == Alpha(w2) * base;
    ScalingsCommute(Alpha(w1), Alpha(w2), base);
  }

  lemma ScalingsCommute(a1: real, a2: real, b: real)
    ensures (a1 * b) * a2 == (a2 * b) * a1
  {
  }

  /** A faster vehicle lowers the perceived time to collision (all scalings are positive). */
  lemma PredictedTimeDecreasesWithSpeed(w: Weather, height: real, v1: real, v2: real)
    requires v1 <= v2
    ensures PredictedTime(w, height, v2) <= PredictedTime(w, height, v1)
  {
    assert PredictedTime(w, height, v1) - PredictedTime(w, height, v2) == Alpha(w) * (VelocityCoef * (v1 - v2));
  }

  /** A stationary vehicle does not make the rule always cross: at a zero gap it refuses. */
  lemma StationaryVehicleAtZeroGapRefuses()
    ensures Decide("clear", 175.0, 0.0, 0.0) == Ok(false)
  {
    assert RealTime(0.0, 0.0) == 0.0;
    assert PredictedTime(Clear, 175.0, 0.0) > 0.0;
  }

  /** A worked decision: 175 cm, 50 km/h, 40 m, clear weather: no crossing. */
  lemma WorkedExampleNoCrossing()
    ensures Decide("clear", 175.0, 50.0, 40.0) == Ok(false)
  {
    assert SpeedMs(50.0) == 50.0 / 3.6;
    assert RealTime(50.0, 40.0) == 2.88;
    assert PredictedTime(Clear, 175.0, 50.0) > 4.7;
  }
}

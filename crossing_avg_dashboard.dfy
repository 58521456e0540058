// The per-participant threshold curves of the "crossing value vs distance" page: the
// step rule, the simulated distance axis, the vertical offsets and the subplot column
// of each weather.
module CrossingAvgDashboard {
  import opened Common
  import VelocityGroups

  /**
   * calculate_crossing_value: 0 (not crossing) when the signed distance is at least
   * -safety distance, 1 otherwise.
   */
  function CrossingValue(distance: real, safety: real): (r: int)
    ensures r == 0 || r == 1
    ensures r == 0 <==> distance >= -safety
  {
    if distance >= -safety then 0 else 1
  }

  /** The value never rises with the distance: the curve is a single downward step. */
  lemma CrossingValueIsMonotone(d1: real, d2: real, safety: real)
    requires d1 <= d2
    ensures CrossingValue(d2, safety) <= CrossingValue(d1, safety)
  {
  }

  /** The step sits at -safety: larger safety distances move it left. */
  lemma StepMovesWithSafety(d: real, s1: real, s2: real)
    requires s1 <= s2
    ensures CrossingValue(d, s2) <= CrossingValue(d, s1)
  {
  }

  /** The simulated distances: range(-150, 6). */
  function CurveXs(): (xs: seq<int>)
    ensures |xs| == 156 && xs[0] == -150 && xs[155] == 5
    ensures forall k | 0 <= k < |xs| :: xs[k] == k - 150
  {
    seq(156, k => k - 150)
  }

  /** Y_OFFSET.get(vcat, 0.0). */
  function YOffset(vcat: string): (r: real)
    ensures vcat == "low" ==> r == 0.0
    ensures vcat == "medium" ==> r == 0.01
    ensures vcat == "high" ==> r == 0.02
    ensures vcat !in {"low", "medium", "high"} ==> r == 0.0
  {
    if vcat == "low" then 0.0
    else if vcat == "medium" then 0.01
    else if vcat == "high" then 0.02
    else 0.0
  }

  /** The plotted curve for a mean safety distance `m` at the speed `velocity`. */
  function Curve(m: real, velocity: real): (ys: seq<real>)
    ensures |ys| == |CurveXs()|
  {
    var yofs := YOffset(VelocityGroups.CategoryOrUnknown(velocity));
    seq(156, k requires 0 <= k < 156 => CrossingValue((k - 150) as real, m) as real + yofs)
  }

  /**
   * The curve is the step shifted by its speed group's offset: at the offset exactly
   * where the distance is at least -m, one above it elsewhere, and never rising.
   */
  lemma CurveIsAShiftedStep(m: real, velocity: real)
    ensures var ys := Curve(m, velocity);
            var yofs := YOffset(VelocityGroups.CategoryOrUnknown(velocity));
            (forall k | 0 <= k < 156 :: (ys[k] == yofs <==> (CurveXs()[k] as real) >= -m))
            && (forall k | 0 <= k < 156 :: ys[k] == yofs || ys[k] == yofs + 1.0)
            && (forall j, k | 0 <= j <= k < 156 :: ys[k] <= ys[j])
  {
    var ys := Curve(m, velocity);
    forall j, k | 0 <= j <= k < 156
      ensures ys[k] <= ys[j]
    {
      CrossingValueIsMonotone((j - 150) as real, (k - 150) as real, m);
    }
  }

  /** Unknown speeds are drawn without an offset, in black. */
  lemma UnknownSpeedHasNoOffset(m: real, velocity: real)
    requires !VelocityGroups.IsExperimentSpeed(velocity)
    ensures forall k | 0 <= k < 156 :: Curve(m, velocity)[k] == CrossingValue((k - 150) as real, m) as real
    ensures VelocityGroups.GroupColor(VelocityGroups.CategoryOrUnknown(velocity), "#000000") == "#000000"
  {
  }

  /** The mean ± std marker: at -m, half way up the step, with a NaN std drawn as 0. */
  function Marker(m: real, std: Option<real>, velocity: real): (r: (real, real, real))
    ensures r.0 == -m
    ensures r.1 == 0.5 + YOffset(VelocityGroups.CategoryOrUnknown(velocity))
    ensures std.None? ==> r.2 == 0.0
    ensures std.Some? ==> r.2 == std.value
  {
    (-m, 0.5 + YOffset(VelocityGroups.CategoryOrUnknown(velocity)), if std.Some? then std.value else 0.0)
  }

  /** The subplot column of a weather; any other weather is skipped. */
  function WeatherColumn(weather: string): (r: Option<nat>)
    ensures r.Some? <==> weather in ["clear", "rain", "night"]
    ensures r.Some? ==> 1 <= r.value <= 3
    ensures r == Some(1) <==> weather == "clear"
    ensures r == Some(2) <==> weather == "rain"
    ensures r == Some(3) <==> weather == "night"
  {
    if weather == "clear" then Some(1)
    else if weather == "rain" then Some(2)
    else if weather == "night" then Some(3)
    else None
  }

  /** Distinct weathers get distinct columns. */
  lemma ColumnsAreDistinct(w1: string, w2: string)
    requires WeatherColumn(w1).Some? && WeatherColumn(w2).Some? && w1 != w2
    ensures WeatherColumn(w1) != WeatherColumn(w2)
  {
  }

  /** The crossing curve's legend entry is shown only in the clear column. */
  function ShowLegend(weather: string): (r: bool)
    ensures r <==> WeatherColumn(weather) == Some(1)
  {
    weather == "clear"
  }
}

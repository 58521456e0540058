// The speed groups shared by the dashboard pages. The VR experiment drives at exactly
// 20, 30, 40, 50, 60 or 70 km/h; two lookups exist, differing only on other values.
module VelocityGroups {
  /** The two exact speeds of each group, in km/h. */
  const LowSpeeds: seq<real> := [20.0, 30.0]
  const MediumSpeeds: seq<real> := [40.0, 50.0]
  const HighSpeeds: seq<real> := [60.0, 70.0]

  predicate IsExperimentSpeed(v: real)
  {
    v in LowSpeeds || v in MediumSpeeds || v in HighSpeeds
  }

  /**
   * get_velocity_category / categorize_velocity: exact membership in a pair, "unknown"
   * for any other speed.
   */
  function CategoryOrUnknown(v: real): (r: string)
    ensures r == "low" <==> v in LowSpeeds
    ensures r == "medium" <==> v in MediumSpeeds
    ensures r == "high" <==> v in HighSpeeds
    ensures r == "unknown" <==> !IsExperimentSpeed(v)
  {
    if v in LowSpeeds then "low"
    else if v in MediumSpeeds then "medium"
    else if v in HighSpeeds then "high"
    else "unknown"
  }

  /** velocity_category: the low and medium pairs, and "high" for everything else. */
  function CategoryOrHigh(v: real): (r: string)
    ensures r == "low" <==> v in LowSpeeds
    ensures r == "medium" <==> v in MediumSpeeds
    ensures r == "high" <==> !(v in LowSpeeds || v in MediumSpeeds)
  {
    if v in LowSpeeds then "low"
    else if v in MediumSpeeds then "medium"
    else "high"
  }

  /** The two lookups agree on every experiment speed and differ on every other one. */
  lemma LookupsAgreeExactlyOnExperimentSpeeds(v: real)
    ensures IsExperimentSpeed(v) ==> CategoryOrHigh(v) == CategoryOrUnknown(v)
    ensures !IsExperimentSpeed(v) ==> CategoryOrHigh(v) == "high" && CategoryOrUnknown(v) == "unknown"
  {
  }

  /** km/h to m/s: v * (5 / 18). */
  function KmhToMs(v: real): (r: real)
    ensures r * 3.6 == v
    ensures r == 0.0 <==> v == 0.0
    ensures v > 0.0 ==> r > 0.0
  {
    v * (5.0 / 18.0)
  }

  /**
   * The speed groups' colours, one palette on every dashboard page:
   * COLOR_MAP / VELOCITY_COLOR.get(vcat, fallback).
   */
  function GroupColor(vcat: string, fallback: string): (r: string)
    ensures vcat == "low" ==> r == "#1f77b4"
    ensures vcat == "medium" ==> r == "#2ca02c"
    ensures vcat == "high" ==> r == "#d62728"
    ensures vcat !in {"low", "medium", "high"} ==> r == fallback
  {
    if vcat == "low" then "#1f77b4"
    else if vcat == "medium" then "#2ca02c"
    else if vcat == "high" then "#d62728"
    else fallback
  }

  /**
   * The three speed groups are drawn in three different colours, and a fallback outside the
   * palette marks exactly the other categories.
   */
  lemma GroupColorsAreDistinct(a: string, b: string, fallback: string)
    requires a in {"low", "medium", "high"} && b in {"low", "medium", "high"} && a != b
    requires fallback !in {"#1f77b4", "#2ca02c", "#d62728"}
    ensures GroupColor(a, fallback) != GroupColor(b, fallback)
    ensures forall v :: GroupColor(v, fallback) == fallback <==> v !in {"low", "medium", "high"}
  {
  }
}

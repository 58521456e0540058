// The "crossing limit vs participant characteristics" page: the encoding of the chosen
// participant column, the rows kept for the scatter plots, and the table of
// correlation p-values per weather and speed group.
module ParticipantVariables {
  import opened Common
  import VelocityGroups

  /** A participant cell as the database driver returns it. */
  datatype Cell = Null | Num(x: real) | Flag(b: bool) | Text(s: string)

  /** bool(raw) on a non-null cell. */
  predicate Truthy(c: Cell)
    ensures !Truthy(c) <==> c in {Null, Num(0.0), Flag(false), Text("")}
  {
    match c
    case Null => false
    case Num(x) => x != 0.0
    case Flag(b) => b
    case Text(s) => s != []
  }

  /**
   * _map_value: driver_license becomes 1 or 0 by truthiness, sex becomes 1 exactly for
   * "Man", every other column passes through.
   */
  function MapValue(raw: Cell, column: string): (r: Cell)
    ensures column == "driver_license" ==> r == Num(if Truthy(raw) then 1.0 else 0.0)
    ensures column == "sex" ==> r == Num(if raw == Text("Man") then 1.0 else 0.0)
    ensures column != "driver_license" && column != "sex" ==> r == raw
  {
    if column == "driver_license" then Num(if Truthy(raw) then 1.0 else 0.0)
    else if column == "sex" then Num(if raw == Text("Man") then 1.0 else 0.0)
    else raw
  }

  /** float(xval): `parse` plays float() on text, None when it raises. */
  function ToFloat(c: Cell, parse: string -> Option<real>): (r: Option<real>)
    ensures c.Null? ==> r.None?
    ensures c.Num? || c.Flag? ==> r.Some?
    ensures c.Flag? ==> (r == Some(1.0) <==> Truthy(c)) && (r == Some(0.0) <==> !Truthy(c))
    ensures c.Text? ==> r == parse(c.s)
  {
    match c
    case Null => None
    case Num(x) => Some(x)
    case Flag(b) => Some(if b then 1.0 else 0.0)
    case Text(s) => parse(s)
  }

  /** The two encoded columns always convert, to 0 or 1. */
  lemma EncodedColumnsAreBinary(raw: Cell, column: string, parse: string -> Option<real>)
    requires column == "driver_license" || column == "sex"
    ensures ToFloat(MapValue(raw, column), parse) == Some(0.0) || ToFloat(MapValue(raw, column), parse) == Some(1.0)
  {
  }

  /** One result row of the aggregation query. */
  datatype DbRow = DbRow(participant: int, weather: string, velocity: real, safety: Option<real>, value: Cell)

  /** One scatter point: data_by_weather_velocity[weather][velocity] holds (pid, safety, x). */
  datatype Point = Point(weather: string, velocity: real, participant: int, safety: real, x: real)

  /** The point a row contributes, if any: null cells and unconvertible values are skipped. */
  function PointOf(row: DbRow, column: string, parse: string -> Option<real>): (r: Option<Point>)
    ensures r.Some? <==> row.safety.Some? && row.value != Null && ToFloat(MapValue(row.value, column), parse).Some?
    ensures r.Some? ==> r.value == Point(row.weather, row.velocity, row.participant, row.safety.value,
                                         ToFloat(MapValue(row.value, column), parse).value)
  {
    if row.safety.None? || row.value == Null then None
    else
      match ToFloat(MapValue(row.value, column), parse)
      case None => None
      case Some(x) => Some(Point(row.weather, row.velocity, row.participant, row.safety.value, x))
  }

  /** The points in row order. */
  function Points(rows: seq<DbRow>, column: string, parse: string -> Option<real>): (r: seq<Point>)
    ensures |r| <= |rows|
  {
    if rows == [] then []
    else
      var init := Points(rows[..|rows| - 1], column, parse);
      match PointOf(rows[|rows| - 1], column, parse)
      case None => init
      case Some(p) => init + [p]
  }

  function Safeties(ps: seq<Point>): (r: seq<real>)
    ensures |r| == |ps| && forall k | 0 <= k < |ps| :: r[k] == ps[k].safety
  {
    seq(|ps|, k requires 0 <= k < |ps| => ps[k].safety)
  }

  function Values(ps: seq<Point>): (r: seq<real>)
    ensures |r| == |ps| && forall k | 0 <= k < |ps| :: r[k] == ps[k].x
  {
    seq(|ps|, k requires 0 <= k < |ps| => ps[k].x)
  }

  lemma PointsAppend(rows: seq<DbRow>, column: string, parse: string -> Option<real>, i: nat)
    requires i < |rows|
    ensures Points(rows[..i + 1], column, parse)
            == Points(rows[..i], column, parse) + match PointOf(rows[i], column, parse)
                                                  case None => []
                                                  case Some(p) => [p]
  {
    assert rows[..i + 1][..i] == rows[..i];
  }

  /**
   * fetch_data's loop: each kept row adds one point to its (weather, velocity) list and
   * its safety distance and value to the two global lists. The nested dictionary is
   * returned as its points in insertion order.
   */
  method FetchData(rows: seq<DbRow>, column: string, parse: string -> Option<real>)
    returns (points: seq<Point>, allSafety: seq<real>, allValues: seq<real>)
    ensures points == Points(rows, column, parse)
    ensures allSafety == Safeties(points) && allValues == Values(points)
  {
    points, allSafety, allValues := [], [], [];
    var i := 0;
    while i < |rows|
      invariant 0 <= i <= |rows|
      invariant points == Points(rows[..i], column, parse)
      invariant allSafety == Safeties(points) && allValues == Values(points)
    {
      PointsAppend(rows, column, parse, i);
      var row := rows[i];
      if row.safety.Some? && row.value != Null {
        var x := ToFloat(MapValue(row.value, column), parse);
        if x.Some? {
          var p := Point(row.weather, row.velocity, row.participant, row.safety.value, x.value);
          allSafety := allSafety + [p.safety];
          allValues := allValues + [p.x];
          points := points + [p];
        }
      }
      i := i + 1;
    }
    assert rows[..i] == rows;
  }

  /** Some row of `rows` yields the point `x`. */
  predicate FromSomeRow(rows: seq<DbRow>, column: string, parse: string -> Option<real>, x: Point)
  {
    exists j | 0 <= j < |rows| :: PointOf(rows[j], column, parse) == Some(x)
  }

  /** Every kept point comes from a row with a safety distance and a usable value, and back. */
  lemma {:induction false} PointsComeFromRows(rows: seq<DbRow>, column: string, parse: string -> Option<real>)
    ensures forall k | 0 <= k < |Points(rows, column, parse)| :: FromSomeRow(rows, column, parse, Points(rows, column, parse)[k])
    ensures forall j | 0 <= j < |rows| :: PointOf(rows[j], column, parse).Some? ==>
              PointOf(rows[j], column, parse).value in Points(rows, column, parse)
  {
    if rows != [] {
      var p := rows[..|rows| - 1];
      PointsComeFromRows(p, column, parse);
      assert forall j | 0 <= j < |p| :: p[j] == rows[j];
      var init := Points(p, column, parse);
      var r := Points(rows, column, parse);
      var x := PointOf(rows[|rows| - 1], column, parse);
      assert r == init + (if x.Some? then [x.value] else []);
      forall k | 0 <= k < |r|
        ensures FromSomeRow(rows, column, parse, r[k])
      {
        if k < |init| {
          assert r[k] == init[k];
          assert FromSomeRow(p, column, parse, init[k]);
          var j :| 0 <= j < |p| && PointOf(p[j], column, parse) == Some(init[k]);
          assert PointOf(rows[j], column, parse) == Some(r[k]);
        } else {
          assert r[k] == x.value;
          assert PointOf(rows[|rows| - 1], column, parse) == Some(r[k]);
        }
      }
      forall j | 0 <= j < |rows| && PointOf(rows[j], column, parse).Some?
        ensures PointOf(rows[j], column, parse).value in r
      {
        if j < |p| {
          assert PointOf(p[j], column, parse).value in init;
        }
      }
    }
  }

  // ---------------------------------------------------------------------------
  // Correlations.
  // ---------------------------------------------------------------------------

  /** data_by_weather_velocity[weather][velocity]. */
  function Group(ps: seq<Point>, weather: string, velocity: real): (r: seq<Point>)
    ensures |r| <= |ps|
    ensures forall k | 0 <= k < |r| :: r[k].weather == weather && r[k].velocity == velocity && r[k] in ps
    ensures forall k | 0 <= k < |ps| :: ps[k].weather == weather && ps[k].velocity == velocity ==> ps[k] in r
  {
    if ps == [] then []
    else
      var p := ps[..|ps| - 1];
      assert forall k | 0 <= k < |p| :: p[k] == ps[k];
      var init := Group(p, weather, velocity);
      var last := ps[|ps| - 1];
      if last.weather == weather && last.velocity == velocity then init + [last] else init
  }

  function InCell(weather: string, velocity: real): Point -> Option<Point>
  {
    (pt: Point) => if pt.weather == weather && pt.velocity == velocity then Some(pt) else None
  }

  lemma {:induction false} GroupIsFiltered(ps: seq<Point>, weather: string, velocity: real)
    ensures Group(ps, weather, velocity) == FilterMap(ps, InCell(weather, velocity))
  {
    if ps != [] {
      GroupIsFiltered(ps[..|ps| - 1], weather, velocity);
    }
  }

  /** A cell's list is appended to in reading order. */
  lemma GroupKeepsOrder(a: seq<Point>, b: seq<Point>, pt: Point, weather: string, velocity: real)
    ensures Group(a + b, weather, velocity) == Group(a, weather, velocity) + Group(b, weather, velocity)
    ensures Group([pt], weather, velocity) == if pt.weather == weather && pt.velocity == velocity then [pt] else []
  {
    GroupIsFiltered(a + b, weather, velocity);
    GroupIsFiltered(a, weather, velocity);
    GroupIsFiltered(b, weather, velocity);
    GroupIsFiltered([pt], weather, velocity);
    FilterMapConcat(a, b, InCell(weather, velocity));
    FilterMapOne(pt, InCell(weather, velocity));
  }

  function WeatherKeys(ps: seq<Point>): (r: seq<string>)
    ensures |r| == |ps| && forall k | 0 <= k < |ps| :: r[k] == ps[k].weather
  {
    seq(|ps|, k requires 0 <= k < |ps| => ps[k].weather)
  }

  /** The dictionary's weathers, in insertion order. */
  function Weathers(ps: seq<Point>): seq<string>
  {
    Unique(WeatherKeys(ps))
  }

  function VelocityKeys(ps: seq<Point>, weather: string): (r: seq<real>)
    ensures forall k | 0 <= k < |ps| && ps[k].weather == weather :: ps[k].velocity in r
  {
    if ps == [] then []
    else
      var p := ps[..|ps| - 1];
      assert forall k | 0 <= k < |p| :: p[k] == ps[k];
      var init := VelocityKeys(p, weather);
      if ps[|ps| - 1].weather == weather then init + [ps[|ps| - 1].velocity] else init
  }

  /** The velocities of one weather's dictionary, in insertion order. */
  function Velocities(ps: seq<Point>, weather: string): seq<real>
  {
    Unique(VelocityKeys(ps, weather))
  }

  /** The Low, Medium or High bucket: the velocity lists of that group, concatenated in order. */
  function BucketOver(ps: seq<Point>, weather: string, group: string, vs: seq<real>): (r: seq<Point>)
    ensures forall k | 0 <= k < |r| :: r[k].weather == weather && VelocityGroups.CategoryOrHigh(r[k].velocity) == group
  {
    if vs == [] then []
    else
      var init := BucketOver(ps, weather, group, vs[..|vs| - 1]);
      var v := vs[|vs| - 1];
      if VelocityGroups.CategoryOrHigh(v) == group then init + Group(ps, weather, v) else init
  }

  /** A point of the bucket over `vs` is one of the points, with a velocity of `vs`. */
  lemma {:induction false} BucketOverSound(ps: seq<Point>, weather: string, group: string, vs: seq<real>)
    ensures forall k | 0 <= k < |BucketOver(ps, weather, group, vs)| ::
              BucketOver(ps, weather, group, vs)[k] in ps && BucketOver(ps, weather, group, vs)[k].velocity in vs
  {
    if vs != [] {
      var u, v := vs[..|vs| - 1], vs[|vs| - 1];
      BucketOverSound(ps, weather, group, u);
      var init := BucketOver(ps, weather, group, u);
      var tail := if VelocityGroups.CategoryOrHigh(v) == group then Group(ps, weather, v) else [];
      var r := init + tail;
      assert BucketOver(ps, weather, group, vs) == r;
      forall k | 0 <= k < |r|
        ensures r[k] in ps && r[k].velocity in vs
      {
        if k < |init| {
          assert r[k] == init[k];
          var i :| 0 <= i < |u| && u[i] == init[k].velocity;
          assert vs[i] == u[i];
        } else {
          assert r[k] == tail[k - |init|];
          assert vs[|vs| - 1] == v;
        }
      }
    }
  }

  /** Every point of the weather with a velocity of `vs` in the group is in the bucket over `vs`. */
  lemma {:induction false} BucketOverComplete(ps: seq<Point>, weather: string, group: string, vs: seq<real>)
    ensures forall k | 0 <= k < |ps| && ps[k].weather == weather && ps[k].velocity in vs
                       && VelocityGroups.CategoryOrHigh(ps[k].velocity) == group ::
              ps[k] in BucketOver(ps, weather, group, vs)
  {
    if vs != [] {
      var u, v := vs[..|vs| - 1], vs[|vs| - 1];
      BucketOverComplete(ps, weather, group, u);
      var init := BucketOver(ps, weather, group, u);
      var tail := if VelocityGroups.CategoryOrHigh(v) == group then Group(ps, weather, v) else [];
      assert BucketOver(ps, weather, group, vs) == init + tail;
      forall k | 0 <= k < |ps| && ps[k].weather == weather && ps[k].velocity in vs
                 && VelocityGroups.CategoryOrHigh(ps[k].velocity) == group
        ensures ps[k] in init + tail
      {
        var i :| 0 <= i < |vs| && vs[i] == ps[k].velocity;
        if i < |u| {
          assert u[i] == vs[i];
          assert ps[k] in init;
        } else {
          assert ps[k] in tail;
        }
      }
    }
  }

  function GroupIfIn(ps: seq<Point>, weather: string, group: string): real -> seq<Point>
  {
    (v: real) => if VelocityGroups.CategoryOrHigh(v) == group then Group(ps, weather, v) else []
  }

  lemma {:induction false} BucketOverIsFlat(ps: seq<Point>, weather: string, group: string, vs: seq<real>)
    ensures BucketOver(ps, weather, group, vs) == FlatMap(vs, GroupIfIn(ps, weather, group))
  {
    if vs != [] {
      BucketOverIsFlat(ps, weather, group, vs[..|vs| - 1]);
    }
  }

  /** The bucket's lists follow the velocity order: one velocity's list after another's. */
  lemma BucketOverKeepsOrder(ps: seq<Point>, weather: string, group: string, a: seq<real>, b: seq<real>)
    ensures BucketOver(ps, weather, group, a + b) == BucketOver(ps, weather, group, a) + BucketOver(ps, weather, group, b)
  {
    BucketOverIsFlat(ps, weather, group, a + b);
    BucketOverIsFlat(ps, weather, group, a);
    BucketOverIsFlat(ps, weather, group, b);
    FlatMapConcat(a, b, GroupIfIn(ps, weather, group));
  }

  /** A single velocity's contribution: its whole list when it falls in the group. */
  lemma BucketOverOne(ps: seq<Point>, weather: string, group: string, v: real)
    ensures BucketOver(ps, weather, group, [v])
            == if VelocityGroups.CategoryOrHigh(v) == group then Group(ps, weather, v) else []
  {
    assert [v][..0] == [];
  }

  function Bucket(ps: seq<Point>, weather: string, group: string): seq<Point>
  {
    BucketOver(ps, weather, group, Velocities(ps, weather))
  }

  /** The bucket holds exactly the weather's points whose velocity falls in the group. */
  lemma BucketMembers(ps: seq<Point>, weather: string, group: string)
    ensures var r := Bucket(ps, weather, group);
            forall k | 0 <= k < |r| :: r[k] in ps && r[k].weather == weather
                                       && VelocityGroups.CategoryOrHigh(r[k].velocity) == group
    ensures var r := Bucket(ps, weather, group);
            forall k | 0 <= k < |ps| ::
              ps[k].weather == weather && VelocityGroups.CategoryOrHigh(ps[k].velocity) == group ==> ps[k] in r
  {
    var vs := Velocities(ps, weather);
    BucketOverSound(ps, weather, group, vs);
    BucketOverComplete(ps, weather, group, vs);
    forall k | 0 <= k < |ps| && ps[k].weather == weather
      ensures ps[k].velocity in vs
    {
      var keys := VelocityKeys(ps, weather);
      var i :| 0 <= i < |keys| && keys[i] == ps[k].velocity;
      assert keys[i] in Unique(keys);
    }
  }

  predicate InHeightWindow(x: real)
  {
    160.0 <= x <= 180.0
  }

  /** A point inside the height window is kept as it is; any other point is dropped. */
  function InWindowPoint(): Point -> Option<Point>
  {
    (pt: Point) => if InHeightWindow(pt.x) then Some(pt) else None
  }

  /** The points a p-value is computed on: heights are restricted to [160, 180] cm. */
  function CorrInput(ps: seq<Point>, column: string): (r: seq<Point>)
    ensures |r| <= |ps|
    ensures column != "height" ==> r == ps
    ensures column == "height" ==> forall k | 0 <= k < |r| :: InHeightWindow(r[k].x) && r[k] in ps
    ensures column == "height" ==> forall k | 0 <= k < |ps| :: InHeightWindow(ps[k].x) ==> ps[k] in r
    ensures column == "height" ==> r == FilterMap(ps, InWindowPoint())
  {
    if column != "height" || ps == [] then ps
    else
      var p := ps[..|ps| - 1];
      assert forall k | 0 <= k < |p| :: p[k] == ps[k];
      var init := CorrInput(p, column);
      var last := ps[|ps| - 1];
      if InHeightWindow(last.x) then init + [last] else init
  }

  /** The height window keeps the bucket's order and every repeated point: stretches stay in sequence. */
  lemma CorrInputKeepsOrder(a: seq<Point>, b: seq<Point>, pt: Point)
    ensures CorrInput(a + b, "height") == CorrInput(a, "height") + CorrInput(b, "height")
    ensures CorrInput([pt], "height") == if InHeightWindow(pt.x) then [pt] else []
  {
    FilterMapConcat(a, b, InWindowPoint());
    FilterMapOne(pt, InWindowPoint());
  }

  /** The two p-value routines; None when scipy raises or returns NaN. */
  datatype Tests = Tests(pearson: (seq<real>, seq<real>) -> Option<real>, spearman: (seq<real>, seq<real>) -> Option<real>)

  /** corr_pair: no p-values below three points. */
  function CorrPair(xs: seq<real>, ys: seq<real>, t: Tests): (r: (Option<real>, Option<real>))
    ensures |xs| < 3 ==> r == (None, None)
    ensures |xs| >= 3 ==> r == (t.pearson(xs, ys), t.spearman(xs, ys))
  {
    if |xs| < 3 then (None, None) else (t.pearson(xs, ys), t.spearman(xs, ys))
  }

  datatype CorrRow = CorrRow(weather: string, velocity: string, pearson: Option<real>, spearman: Option<real>)

  /** The row of one bucket. */
  function RowOf(title: string, group: string, bucket: seq<Point>, column: string, t: Tests): (r: CorrRow)
    ensures r.weather == title
    ensures |CorrInput(bucket, column)| < 3 ==> r.pearson.None? && r.spearman.None?
  {
    var input := CorrInput(bucket, column);
    var (p, s) := CorrPair(Values(input), Safeties(input), t);
    CorrRow(title, group, p, s)
  }

  const BucketNames: seq<string> := ["Low", "Medium", "High"]
  /** velocity_category's results, whose capitalisations are the bucket names. */
  const GroupKeys: seq<string> := ["low", "medium", "high"]

  /** The row of bucket `k` of a weather, when that bucket holds a point. */
  function BucketRow(ps: seq<Point>, weather: string, k: nat, column: string, t: Tests): (r: seq<CorrRow>)
    requires k < 3
    ensures |r| <= 1
    ensures r == [] <==> Bucket(ps, weather, GroupKeys[k]) == []
    ensures r != [] ==> r[0] == RowOf(Capitalize(weather), BucketNames[k], Bucket(ps, weather, GroupKeys[k]), column, t)
    ensures forall j | 0 <= j < |r| :: r[j].weather == Capitalize(weather) && r[j].velocity == BucketNames[k]
  {
    var bucket := Bucket(ps, weather, GroupKeys[k]);
    if bucket == [] then [] else [RowOf(Capitalize(weather), BucketNames[k], bucket, column, t)]
  }

  /** The rows of one weather: one per non-empty bucket, in Low, Medium, High order. */
  function WeatherRows(ps: seq<Point>, weather: string, column: string, t: Tests): (r: seq<CorrRow>)
    ensures |r| <= 3
    ensures forall k | 0 <= k < |r| :: r[k].weather == Capitalize(weather) && r[k].velocity in BucketNames
  {
    var low, medium, high := BucketRow(ps, weather, 0, column, t), BucketRow(ps, weather, 1, column, t),
                             BucketRow(ps, weather, 2, column, t);
    LabelledRows(low, medium, high, Capitalize(weather), BucketNames);
    low + medium + high
  }

  /** Three runs of rows, each with one title and its own group label, concatenated. */
  lemma LabelledRows(a: seq<CorrRow>, b: seq<CorrRow>, c: seq<CorrRow>, title: string, labels: seq<string>)
    requires |labels| == 3
    requires forall j | 0 <= j < |a| :: a[j].weather == title && a[j].velocity == labels[0]
    requires forall j | 0 <= j < |b| :: b[j].weather == title && b[j].velocity == labels[1]
    requires forall j | 0 <= j < |c| :: c[j].weather == title && c[j].velocity == labels[2]
    ensures forall k | 0 <= k < |a + b + c| :: (a + b + c)[k].weather == title && (a + b + c)[k].velocity in labels
  {
    forall k | 0 <= k < |a + b + c|
      ensures (a + b + c)[k].weather == title && (a + b + c)[k].velocity in labels
    {
      if k < |a| {
        assert (a + b + c)[k] == a[k];
      } else if k < |a| + |b| {
        assert (a + b + c)[k] == b[k - |a|];
      } else {
        assert (a + b + c)[k] == c[k - |a| - |b|];
      }
    }
  }

  /** The rows of the first `n` weathers. */
  function RowsUpTo(ps: seq<Point>, ws: seq<string>, column: string, t: Tests): (r: seq<CorrRow>)
  {
    if ws == [] then [] else RowsUpTo(ps, ws[..|ws| - 1], column, t) + WeatherRows(ps, ws[|ws| - 1], column, t)
  }

  function GlobalRow(ps: seq<Point>, column: string, t: Tests): CorrRow
  {
    RowOf("Global", "Global", ps, column, t)
  }

  /** One more weather appends its rows. */
  lemma RowsUpToStep(ps: seq<Point>, ws: seq<string>, i: nat, column: string, t: Tests)
    requires i < |ws|
    ensures RowsUpTo(ps, ws[..i + 1], column, t) == RowsUpTo(ps, ws[..i], column, t) + WeatherRows(ps, ws[i], column, t)
  {
    assert ws[..i + 1][..i] == ws[..i];
  }

  /**
   * calculate_correlations: the rows of each weather in dictionary order, then the
   * global row over all points.
   */
  method CalculateCorrelations(ps: seq<Point>, column: string, t: Tests) returns (rows: seq<CorrRow>)
    ensures rows == RowsUpTo(ps, Weathers(ps), column, t) + [GlobalRow(ps, column, t)]
  {
    var ws := Weathers(ps);
    rows := [];
    var i := 0;
    while i < |ws|
      invariant 0 <= i <= |ws|
      invariant rows == RowsUpTo(ps, ws[..i], column, t)
    {
      RowsUpToStep(ps, ws, i, column, t);
      rows := rows + WeatherRows(ps, ws[i], column, t);
      i := i + 1;
    }
    assert ws[..i] == ws;
    rows := rows + [GlobalRow(ps, column, t)];
  }

  /** Every row of the first weathers names a speed bucket, at most three per weather. */
  lemma {:induction false} RowsNameBuckets(ps: seq<Point>, ws: seq<string>, column: string, t: Tests)
    ensures forall k | 0 <= k < |RowsUpTo(ps, ws, column, t)| :: RowsUpTo(ps, ws, column, t)[k].velocity in BucketNames
    ensures |RowsUpTo(ps, ws, column, t)| <= 3 * |ws|
  {
    if ws != [] {
      var init := RowsUpTo(ps, ws[..|ws| - 1], column, t);
      var last := WeatherRows(ps, ws[|ws| - 1], column, t);
      RowsNameBuckets(ps, ws[..|ws| - 1], column, t);
      assert RowsUpTo(ps, ws, column, t) == init + last;
    }
  }

  /** The global row always closes the table and every other row names a speed bucket. */
  lemma TableShape(ps: seq<Point>, ws: seq<string>, column: string, t: Tests)
    ensures var rows := RowsUpTo(ps, ws, column, t) + [GlobalRow(ps, column, t)];
            rows[|rows| - 1].weather == "Global" && rows[|rows| - 1].velocity == "Global"
            && (forall k | 0 <= k < |rows| - 1 :: rows[k].velocity in BucketNames)
            && |rows| <= 3 * |ws| + 1
  {
    var init := RowsUpTo(ps, ws, column, t);
    RowsNameBuckets(ps, ws, column, t);
    var rows := init + [GlobalRow(ps, column, t)];
    assert forall k | 0 <= k < |rows| - 1 :: rows[k] == init[k];
  }

  /** Three at-most-one-row parts named Low, Medium and High, in that order. */
  lemma ThreeNamedParts(r0: seq<CorrRow>, r1: seq<CorrRow>, r2: seq<CorrRow>, k: nat)
    requires k < 3 && |r0| <= 1 && |r1| <= 1 && |r2| <= 1
    requires r0 != [] ==> r0[0].velocity == BucketNames[0]
    requires r1 != [] ==> r1[0].velocity == BucketNames[1]
    requires r2 != [] ==> r2[0].velocity == BucketNames[2]
    ensures var rk := [r0, r1, r2][k];
            rk == [] ==> forall j | 0 <= j < |r0 + r1 + r2| :: (r0 + r1 + r2)[j].velocity != BucketNames[k]
    ensures var rk := [r0, r1, r2][k];
            rk != [] ==> rk[0] in r0 + r1 + r2
  {
    var rs := r0 + r1 + r2;
    forall j | 0 <= j < |rs|
      ensures rs[j] in r0 || rs[j] in r1 || rs[j] in r2
    {
      if j < |r0| {
        assert rs[j] == r0[j];
      } else if j < |r0| + |r1| {
        assert rs[j] == r1[j - |r0|];
      } else {
        assert rs[j] == r2[j - |r0| - |r1|];
      }
    }
    assert r1 != [] ==> rs[|r0|] == r1[0];
    assert r2 != [] ==> rs[|r0| + |r1|] == r2[0];
  }

  /** An empty bucket produces no row, and a non-empty one produces the row of its points. */
  lemma BucketRowsFollowBuckets(ps: seq<Point>, weather: string, column: string, t: Tests, k: nat)
    requires k < 3
    ensures Bucket(ps, weather, GroupKeys[k]) == [] ==>
              forall j | 0 <= j < |WeatherRows(ps, weather, column, t)| :: WeatherRows(ps, weather, column, t)[j].velocity != BucketNames[k]
    ensures Bucket(ps, weather, GroupKeys[k]) != [] ==>
              RowOf(Capitalize(weather), BucketNames[k], Bucket(ps, weather, GroupKeys[k]), column, t) in WeatherRows(ps, weather, column, t)
  {
    var r0, r1, r2 := BucketRow(ps, weather, 0, column, t), BucketRow(ps, weather, 1, column, t), BucketRow(ps, weather, 2, column, t);
    assert WeatherRows(ps, weather, column, t) == r0 + r1 + r2;
    ThreeNamedParts(r0, r1, r2, k);
    assert [r0, r1, r2][k] == BucketRow(ps, weather, k, column, t);
  }

  // ---------------------------------------------------------------------------
  // Highlighting.
  // ---------------------------------------------------------------------------

  /** float(val) < 0.01 in a p-value column; NaN compares false. */
  predicate Significant(p: Option<real>)
  {
    p.Some? && p.value < 0.01
  }

  /** _style_corr's row rule: green when both p-value cells are significant. */
  predicate GreenRow(r: CorrRow)
  {
    Significant(r.pearson) && Significant(r.spearman)
  }

  /** Below three points a row is never highlighted. */
  lemma SmallBucketsAreNeverGreen(title: string, group: string, bucket: seq<Point>, column: string, t: Tests)
    requires |CorrInput(bucket, column)| < 3
    ensures !GreenRow(RowOf(title, group, bucket, column, t))
  {
  }
}

// The three perception pages: the loaders that turn the perception table into timed rows
// (or, for the bar page, into perception errors), the sort they apply, the means the
// figures draw and the horizontal offsets of their error bars.
module PerceptionDashboards {
  import opened Common
  import VelocityGroups

  // ---------------------------------------------------------------------------
  // The perception table and dropna.
  // ---------------------------------------------------------------------------

  /** One row of the perception table as the driver returns it; None is SQL NULL. */
  datatype RawRow = RawRow(participant: Option<int>, velocity: Option<real>, distance: Option<real>,
                           weather: Option<string>, perceived: Option<real>)

  /** A row without missing values. */
  datatype Row = Row(participant: int, velocity: real, distance: real, weather: string, perceived: real)

  /** The raw row a complete row comes from. */
  function Full(x: Row): RawRow
  {
    RawRow(Some(x.participant), Some(x.velocity), Some(x.distance), Some(x.weather), Some(x.perceived))
  }

  predicate Complete(r: RawRow)
  {
    r.participant.Some? && r.velocity.Some? && r.distance.Some? && r.weather.Some? && r.perceived.Some?
  }

  /** DataFrame.dropna(): the complete rows, in table order. */
  function DropNa(raw: seq<RawRow>): (r: seq<Row>)
    ensures |r| <= |raw|
    ensures forall x :: x in r <==> Full(x) in raw
  {
    if raw == [] then []
    else
      var init := DropNa(raw[..|raw| - 1]);
      var last := raw[|raw| - 1];
      assert forall x :: Full(x) in raw <==> Full(x) in raw[..|raw| - 1] || Full(x) == last;
      if Complete(last) then
        var x := Row(last.participant.value, last.velocity.value, last.distance.value, last.weather.value, last.perceived.value);
        assert Full(x) == last;
        init + [x]
      else init
  }

  /** What dropna keeps of one row: the row without its options, when it is complete. */
  function CompleteRow(): RawRow -> Option<Row>
  {
    (x: RawRow) => if Complete(x) then Some(Row(x.participant.value, x.velocity.value, x.distance.value,
                                                x.weather.value, x.perceived.value))
                   else None
  }

  lemma {:induction false} DropNaIsFiltered(raw: seq<RawRow>)
    ensures DropNa(raw) == FilterMap(raw, CompleteRow())
  {
    if raw != [] {
      DropNaIsFiltered(raw[..|raw| - 1]);
    }
  }

  /** dropna works row by row and keeps the table's order. */
  lemma DropNaKeepsOrder(a: seq<RawRow>, b: seq<RawRow>, c: RawRow)
    ensures DropNa(a + b) == DropNa(a) + DropNa(b)
    ensures DropNa([c]) == if Complete(c) then [Row(c.participant.value, c.velocity.value, c.distance.value,
                                                    c.weather.value, c.perceived.value)] else []
  {
    DropNaIsFiltered(a + b);
    DropNaIsFiltered(a);
    DropNaIsFiltered(b);
    DropNaIsFiltered([c]);
    FilterMapConcat(a, b, CompleteRow());
    FilterMapOne(c, CompleteRow());
  }

  // ---------------------------------------------------------------------------
  // load_perception_df (both time/distance pages).
  // ---------------------------------------------------------------------------

  /** A row with its speed in m/s, its two times and its speed group. */
  datatype Timed = Timed(row: Row, velocityMs: real, realTime: real, perceivedTime: real, group: string)

  /** The rows whose speed in m/s is neither 0 nor NaN. */
  function Moving(rows: seq<Row>): (r: seq<Row>)
    ensures |r| <= |rows|
    ensures forall x :: x in r <==> x in rows && VelocityGroups.KmhToMs(x.velocity) != 0.0
  {
    if rows == [] then []
    else
      var init := Moving(rows[..|rows| - 1]);
      var last := rows[|rows| - 1];
      assert forall x :: x in rows <==> x in rows[..|rows| - 1] || x == last;
      if VelocityGroups.KmhToMs(last.velocity) != 0.0 then init + [last] else init
  }

  function MovingRow(): Row -> Option<Row>
  {
    (x: Row) => if VelocityGroups.KmhToMs(x.velocity) != 0.0 then Some(x) else None
  }

  lemma {:induction false} MovingIsFiltered(rows: seq<Row>)
    ensures Moving(rows) == FilterMap(rows, MovingRow())
  {
    if rows != [] {
      MovingIsFiltered(rows[..|rows| - 1]);
    }
  }

  /** The speed filter works row by row and keeps the rows' order. */
  lemma MovingKeepsOrder(a: seq<Row>, b: seq<Row>, c: Row)
    ensures Moving(a + b) == Moving(a) + Moving(b)
    ensures Moving([c]) == if VelocityGroups.KmhToMs(c.velocity) != 0.0 then [c] else []
  {
    MovingIsFiltered(a + b);
    MovingIsFiltered(a);
    MovingIsFiltered(b);
    MovingIsFiltered([c]);
    FilterMapConcat(a, b, MovingRow());
    FilterMapOne(c, MovingRow());
  }

  /** The columns added to one moving row. */
  function Derive(x: Row): (t: Timed)
    requires VelocityGroups.KmhToMs(x.velocity) != 0.0
    ensures t.row == x && t.velocityMs != 0.0 && t.velocityMs * 3.6 == x.velocity
    ensures t.realTime * t.velocityMs == x.distance
    ensures t.perceivedTime * t.velocityMs == x.perceived
    ensures t.group == VelocityGroups.CategoryOrUnknown(x.velocity)
  {
    var vms := VelocityGroups.KmhToMs(x.velocity);
    Timed(x, vms, x.distance / vms, x.perceived / vms, VelocityGroups.CategoryOrUnknown(x.velocity))
  }

  function DeriveAll(rows: seq<Row>): (r: seq<Timed>)
    requires forall k | 0 <= k < |rows| :: VelocityGroups.KmhToMs(rows[k].velocity) != 0.0
    ensures |r| == |rows| && forall k | 0 <= k < |rows| :: r[k] == Derive(rows[k])
  {
    seq(|rows|, k requires 0 <= k < |rows| => Derive(rows[k]))
  }

  // ---------------------------------------------------------------------------
  // sort_values(by=["velocity_id", "weather_id", "distance_id"]).
  // ---------------------------------------------------------------------------

  /** Python's `<` on strings: lexicographic by code point. */
  predicate StrLt(a: string, b: string)
  {
    if a == [] then b != []
    else if b == [] then false
    else if a[0] != b[0] then a[0] < b[0]
    else StrLt(a[1..], b[1..])
  }

  lemma {:induction false} StrLtTrichotomy(a: string, b: string)
    ensures a == b || StrLt(a, b) || StrLt(b, a)
  {
    if a != [] && b != [] && a[0] == b[0] {
      StrLtTrichotomy(a[1..], b[1..]);
      if a[1..] == b[1..] {
        assert a == [a[0]] + a[1..] && b == [b[0]] + b[1..];
      }
    }
  }

  lemma {:induction false} StrLtTransitive(a: string, b: string, c: string)
    requires StrLt(a, b) && StrLt(b, c)
    ensures StrLt(a, c)
  {
    if a != [] && b != [] && c != [] && a[0] == b[0] && b[0] == c[0] {
      StrLtTransitive(a[1..], b[1..], c[1..]);
    }
  }

  lemma {:induction false} StrLtIrreflexive(a: string)
    ensures !StrLt(a, a)
  {
    if a != [] {
      StrLtIrreflexive(a[1..]);
    }
  }

  /** The sort key order: speed, then weather name, then distance. */
  predicate KeyLe(x: Timed, y: Timed)
  {
    x.row.velocity < y.row.velocity
    || (x.row.velocity == y.row.velocity
        && (StrLt(x.row.weather, y.row.weather)
            || (x.row.weather == y.row.weather && x.row.distance <= y.row.distance)))
  }

  lemma KeyLeTotal(x: Timed, y: Timed)
    ensures KeyLe(x, y) || KeyLe(y, x)
  {
    StrLtTrichotomy(x.row.weather, y.row.weather);
  }

  lemma KeyLeTransitive(x: Timed, y: Timed, z: Timed)
    requires KeyLe(x, y) && KeyLe(y, z)
    ensures KeyLe(x, z)
  {
    if x.row.velocity == y.row.velocity == z.row.velocity {
      if StrLt(x.row.weather, y.row.weather) && StrLt(y.row.weather, z.row.weather) {
        StrLtTransitive(x.row.weather, y.row.weather, z.row.weather);
      }
    }
  }

  predicate SortedByKey(s: seq<Timed>)
  {
    forall i, j | 0 <= i < j < |s| :: KeyLe(s[i], s[j])
  }

  /** Insert `x` before the first element it does not sort after. */
  function InsertByKey(x: Timed, s: seq<Timed>): (r: seq<Timed>)
    ensures multiset(r) == multiset(s) + multiset{x}
  {
    if s == [] then [x]
    else if KeyLe(x, s[0]) then [x] + s
    else
      var rest := InsertByKey(x, s[1..]);
      assert s == [s[0]] + s[1..];
      [s[0]] + rest
  }

  /** A sorted frame stays sorted with a row in front that sorts before all of its rows. */
  lemma SortedCons(y: Timed, s: seq<Timed>)
    requires SortedByKey(s)
    requires forall k | 0 <= k < |s| :: KeyLe(y, s[k])
    ensures SortedByKey([y] + s)
  {
    var r := [y] + s;
    forall i, j | 0 <= i < j < |r|
      ensures KeyLe(r[i], r[j])
    {
      assert r[j] == s[j - 1];
      if i > 0 {
        assert r[i] == s[i - 1];
      }
    }
  }

  /** The rows after the first of a sorted frame are sorted. */
  lemma SortedTail(s: seq<Timed>)
    requires s != [] && SortedByKey(s)
    ensures SortedByKey(s[1..])
  {
    var tail := s[1..];
    forall i, j | 0 <= i < j < |tail|
      ensures KeyLe(tail[i], tail[j])
    {
      assert tail[i] == s[i + 1] && tail[j] == s[j + 1];
    }
  }

  /** Every row after an insertion is the inserted row or a row of the frame. */
  lemma InsertedRows(x: Timed, s: seq<Timed>, k: nat)
    requires k < |InsertByKey(x, s)|
    ensures InsertByKey(x, s)[k] == x || InsertByKey(x, s)[k] in s
  {
    var r := InsertByKey(x, s);
    assert r[k] in multiset(r);
    assert r[k] in multiset(s) + multiset{x};
  }

  lemma {:induction false} InsertKeepsSorted(x: Timed, s: seq<Timed>)
    requires SortedByKey(s)
    ensures SortedByKey(InsertByKey(x, s))
  {
    if s == [] {
    } else if KeyLe(x, s[0]) {
      forall k | 0 <= k < |s|
        ensures KeyLe(x, s[k])
      {
        if k > 0 {
          KeyLeTransitive(x, s[0], s[k]);
        }
      }
      SortedCons(x, s);
    } else {
      var tail := s[1..];
      SortedTail(s);
      var rest := InsertByKey(x, tail);
      InsertKeepsSorted(x, tail);
      KeyLeTotal(x, s[0]);
      forall k | 0 <= k < |rest|
        ensures KeyLe(s[0], rest[k])
      {
        InsertedRows(x, tail, k);
        if rest[k] != x {
          var j :| 0 <= j < |tail| && tail[j] == rest[k];
          assert s[j + 1] == rest[k];
        }
      }
      SortedCons(s[0], rest);
    }
  }

  /** The frame in key order. */
  function SortByKey(s: seq<Timed>): (r: seq<Timed>)
    ensures multiset(r) == multiset(s)
  {
    if s == [] then []
    else
      assert s == [s[0]] + s[1..];
      InsertByKey(s[0], SortByKey(s[1..]))
  }

  /** The sorted frame is ordered by the key and holds exactly the rows it was given. */
  lemma {:induction false} SortIsOrderedPermutation(s: seq<Timed>)
    ensures SortedByKey(SortByKey(s)) && multiset(SortByKey(s)) == multiset(s)
  {
    if s != [] {
      SortIsOrderedPermutation(s[1..]);
      InsertKeepsSorted(s[0], SortByKey(s[1..]));
    }
  }

  /**
   * load_perception_df: dropna, an empty frame as it is, otherwise the moving rows with
   * their derived columns, sorted.
   */
  function LoadPerception(raw: seq<RawRow>): (r: seq<Timed>)
    ensures |r| <= |raw|
  {
    var df := DropNa(raw);
    if df == [] then []
    else
      var d := DeriveAll(Moving(df));
      assert |multiset(SortByKey(d))| == |multiset(d)|;
      SortByKey(d)
  }

  /**
   * The loaded frame is sorted, and holds exactly one derived row per complete, moving
   * table row; its times are the distances divided by the speed in m/s.
   */
  lemma LoadedFrameIsTheSortedMovingRows(raw: seq<RawRow>)
    ensures SortedByKey(LoadPerception(raw))
    ensures multiset(LoadPerception(raw)) == multiset(DeriveAll(Moving(DropNa(raw))))
    ensures forall t | t in LoadPerception(raw) ::
              Full(t.row) in raw && VelocityGroups.KmhToMs(t.row.velocity) != 0.0 && t == Derive(t.row)
    ensures forall x | Full(x) in raw && VelocityGroups.KmhToMs(x.velocity) != 0.0 :: Derive(x) in LoadPerception(raw)
  {
    var df := DropNa(raw);
    var out := LoadPerception(raw);
    if df != [] {
      var d := DeriveAll(Moving(df));
      SortIsOrderedPermutation(d);
      forall t | t in out
        ensures Full(t.row) in raw && VelocityGroups.KmhToMs(t.row.velocity) != 0.0 && t == Derive(t.row)
      {
        assert t in multiset(out);
        assert t in d;
      }
      forall x | Full(x) in raw && VelocityGroups.KmhToMs(x.velocity) != 0.0
        ensures Derive(x) in out
      {
        var m := Moving(df);
        var k :| 0 <= k < |m| && m[k] == x;
        assert d[k] == Derive(x);
        assert Derive(x) in multiset(d);
      }
    }
  }

  /** Zero speeds never reach the time columns. */
  lemma StoppedRowsAreDropped(raw: seq<RawRow>, x: Row)
    requires x.velocity == 0.0
    ensures forall t | t in LoadPerception(raw) :: t.row != x
  {
    LoadedFrameIsTheSortedMovingRows(raw);
  }

  // ---------------------------------------------------------------------------
  // Means and offsets of the two time/distance figures.
  // ---------------------------------------------------------------------------

  /** The values `val` takes on the rows `keep` selects, in frame order. */
  function Select<T>(ts: seq<T>, keep: T -> bool, val: T -> real): (r: seq<real>)
    ensures |r| <= |ts|
    ensures |r| > 0 <==> exists k | 0 <= k < |ts| :: keep(ts[k])
  {
    if ts == [] then []
    else
      var init := Select(ts[..|ts| - 1], keep, val);
      var last := ts[|ts| - 1];
      if keep(last) then init + [val(last)] else init
  }

  /** Rows that `keep` rejects do not change a selection. */
  lemma {:induction false} SelectIgnoresRejected<T>(ts: seq<T>, extra: seq<T>, keep: T -> bool, val: T -> real)
    requires forall k | 0 <= k < |extra| :: !keep(extra[k])
    ensures Select(ts + extra, keep, val) == Select(ts, keep, val)
  {
    if extra != [] {
      var e := extra[..|extra| - 1];
      assert (ts + extra)[..|ts + extra| - 1] == ts + e;
      var all := ts + extra;
      assert all[|all| - 1] == extra[|extra| - 1];
      assert !keep(all[|all| - 1]);
      assert forall k | 0 <= k < |e| :: e[k] == extra[k];
      SelectIgnoresRejected(ts, e, keep, val);
      assert Select(all, keep, val) == Select(all[..|all| - 1], keep, val);
    } else {
      assert ts + extra == ts;
    }
  }

  /** A selection holds two values exactly when two rows are selected. */
  lemma {:induction false} SelectAtLeastTwo<T>(ts: seq<T>, keep: T -> bool, val: T -> real)
    ensures |Select(ts, keep, val)| >= 2 <==> exists i, j | 0 <= i < j < |ts| :: keep(ts[i]) && keep(ts[j])
  {
    if ts != [] {
      var init := ts[..|ts| - 1];
      var last := ts[|ts| - 1];
      SelectAtLeastTwo(init, keep, val);
      assert forall k | 0 <= k < |init| :: init[k] == ts[k];
      if exists i, j | 0 <= i < j < |ts| :: keep(ts[i]) && keep(ts[j]) {
        var i, j :| 0 <= i < j < |ts| && keep(ts[i]) && keep(ts[j]);
        if j < |ts| - 1 {
          assert keep(init[i]) && keep(init[j]);
        } else {
          assert keep(init[i]);
        }
      }
      if |Select(ts, keep, val)| >= 2 {
        if keep(last) {
          var k :| 0 <= k < |init| && keep(init[k]);
          assert keep(ts[k]) && keep(ts[|ts| - 1]);
        } else {
          var i, j :| 0 <= i < j < |init| && keep(init[i]) && keep(init[j]);
          assert keep(ts[i]) && keep(ts[j]);
        }
      }
    }
  }

  /** Every selected value is the value of a selected row. */
  lemma {:induction false} SelectBounds<T>(ts: seq<T>, keep: T -> bool, val: T -> real, lo: real, hi: real)
    requires forall k | 0 <= k < |ts| :: keep(ts[k]) ==> lo <= val(ts[k]) <= hi
    ensures forall k | 0 <= k < |Select(ts, keep, val)| :: lo <= Select(ts, keep, val)[k] <= hi
  {
    if ts != [] {
      SelectBounds(ts[..|ts| - 1], keep, val, lo, hi);
    }
  }

  /**
   * The velocity/weather page's mean perceived distance at one distance for one speed
   * group: clear-weather rows only.
   */
  function ClearMeanDistance(ts: seq<Timed>, distance: real, group: string): (r: Option<real>)
    ensures r.Some? <==> exists k | 0 <= k < |ts| ::
                           ts[k].row.weather == "clear" && ts[k].row.distance == distance && ts[k].group == group
  {
    Mean(Select(ts, (t: Timed) => t.row.weather == "clear" && t.row.distance == distance && t.group == group,
                (t: Timed) => t.row.perceived))
  }

  /** Its mean perceived time at one real time for one speed group, clear weather only. */
  function ClearMeanTime(ts: seq<Timed>, realTime: real, group: string): Option<real>
  {
    Mean(Select(ts, (t: Timed) => t.row.weather == "clear" && t.realTime == realTime && t.group == group,
                (t: Timed) => t.perceivedTime))
  }

  /** Adding rain or night rows never moves the velocity/weather page's mean curves. */
  lemma OtherWeathersDoNotMoveClearMeans(ts: seq<Timed>, extra: seq<Timed>, distance: real, realTime: real, group: string)
    requires forall k | 0 <= k < |extra| :: extra[k].row.weather != "clear"
    ensures ClearMeanDistance(ts + extra, distance, group) == ClearMeanDistance(ts, distance, group)
    ensures ClearMeanTime(ts + extra, realTime, group) == ClearMeanTime(ts, realTime, group)
  {
    SelectIgnoresRejected(ts, extra, (t: Timed) => t.row.weather == "clear" && t.row.distance == distance && t.group == group,
                          (t: Timed) => t.row.perceived);
    SelectIgnoresRejected(ts, extra, (t: Timed) => t.row.weather == "clear" && t.realTime == realTime && t.group == group,
                          (t: Timed) => t.perceivedTime);
  }

  /** The speed groups with a mean curve: those with at least one clear row. */
  predicate GroupIsDrawn(ts: seq<Timed>, group: string)
  {
    exists k | 0 <= k < |ts| :: ts[k].row.weather == "clear" && ts[k].group == group
  }

  /** A speed group seen only in rain or at night gets neither a curve nor error bars. */
  lemma GroupWithoutClearRowsIsNotDrawn(ts: seq<Timed>, group: string)
    requires forall k | 0 <= k < |ts| :: ts[k].group == group ==> ts[k].row.weather != "clear"
    ensures !GroupIsDrawn(ts, group)
    ensures forall d: real :: ClearMeanDistance(ts, d, group).None?
  {
    forall d: real
      ensures ClearMeanDistance(ts, d, group).None?
    {
      SelectIgnoresRejected([], ts, (t: Timed) => t.row.weather == "clear" && t.row.distance == d && t.group == group,
                            (t: Timed) => t.row.perceived);
      assert [] + ts == ts;
    }
  }

  /** The weather/velocity page's mean perceived distance at one distance for one weather, over every speed. */
  function WeatherMeanDistance(ts: seq<Timed>, distance: real, weather: string): Option<real>
  {
    Mean(Select(ts, (t: Timed) => t.row.distance == distance && t.row.weather == weather, (t: Timed) => t.row.perceived))
  }

  /** A weather mean lies between the smallest and largest perceived distance of its rows. */
  lemma WeatherMeanIsWithinItsRows(ts: seq<Timed>, distance: real, weather: string, lo: real, hi: real)
    requires exists k | 0 <= k < |ts| :: ts[k].row.distance == distance && ts[k].row.weather == weather
    requires forall k | 0 <= k < |ts| :: ts[k].row.distance == distance && ts[k].row.weather == weather ==>
                                         lo <= ts[k].row.perceived <= hi
    ensures WeatherMeanDistance(ts, distance, weather).Some?
    ensures lo <= WeatherMeanDistance(ts, distance, weather).value <= hi
  {
    var keep := (t: Timed) => t.row.distance == distance && t.row.weather == weather;
    var val := (t: Timed) => t.row.perceived;
    SelectBounds(ts, keep, val, lo, hi);
    var k :| 0 <= k < |ts| && keep(ts[k]);
    SelectNonEmpty(ts, keep, val, k);
    MeanBounds(Select(ts, keep, val), lo, hi);
  }

  lemma {:induction false} SelectNonEmpty<T>(ts: seq<T>, keep: T -> bool, val: T -> real, k: nat)
    requires k < |ts| && keep(ts[k])
    ensures |Select(ts, keep, val)| > 0
  {
    if k < |ts| - 1 {
      SelectNonEmpty(ts[..|ts| - 1], keep, val, k);
    }
  }

  /** Its mean perceived time at one real time for one weather, over every speed. */
  function WeatherMeanTime(ts: seq<Timed>, realTime: real, weather: string): (r: Option<real>)
    ensures r.Some? <==> exists k | 0 <= k < |ts| :: ts[k].realTime == realTime && ts[k].row.weather == weather
  {
    Mean(Select(ts, (t: Timed) => t.realTime == realTime && t.row.weather == weather, (t: Timed) => t.perceivedTime))
  }

  /** The rows behind one error bar of either page: one distance, one speed group, one weather. */
  predicate InDistanceCell(t: Timed, distance: real, group: string, weather: string)
  {
    t.row.distance == distance && t.group == group && t.row.weather == weather
  }

  /** The rows behind one error bar of the time panels: one real time, one speed group, one weather. */
  predicate InTimeCell(t: Timed, realTime: real, group: string, weather: string)
  {
    t.realTime == realTime && t.group == group && t.row.weather == weather
  }

  /**
   * The spread of the perceived distance in one cell, as both pages group it for their
   * error bars: pandas' variance of the cell's values (the bar is its square root). It
   * exists exactly when the cell holds two rows, and is then never negative.
   */
  function StdDistance(ts: seq<Timed>, distance: real, group: string, weather: string): (r: Option<real>)
    ensures r.Some? <==> exists i, j | 0 <= i < j < |ts| :: InDistanceCell(ts[i], distance, group, weather)
                                                          && InDistanceCell(ts[j], distance, group, weather)
    ensures r.Some? ==> r.value >= 0.0
  {
    var keep := (t: Timed) => InDistanceCell(t, distance, group, weather);
    var val := (t: Timed) => t.row.perceived;
    var v := Select(ts, keep, val);
    SelectAtLeastTwo(ts, keep, val);
    if |v| >= 2 then PandasVarianceNonNegative(v); PandasVariance(v) else None
  }

  /** The same spread for the perceived time at one real time. */
  function StdTime(ts: seq<Timed>, realTime: real, group: string, weather: string): (r: Option<real>)
    ensures r.Some? <==> exists i, j | 0 <= i < j < |ts| :: InTimeCell(ts[i], realTime, group, weather)
                                                          && InTimeCell(ts[j], realTime, group, weather)
    ensures r.Some? ==> r.value >= 0.0
  {
    var keep := (t: Timed) => InTimeCell(t, realTime, group, weather);
    var val := (t: Timed) => t.perceivedTime;
    var v := Select(ts, keep, val);
    SelectAtLeastTwo(ts, keep, val);
    if |v| >= 2 then PandasVarianceNonNegative(v); PandasVariance(v) else None
  }

  /** A cell whose participants all perceived the same distance draws a bar of length 0. */
  lemma UnanimousCellHasNoSpread(ts: seq<Timed>, distance: real, group: string, weather: string, x: real, i: nat, j: nat)
    requires i < j < |ts| && InDistanceCell(ts[i], distance, group, weather) && InDistanceCell(ts[j], distance, group, weather)
    requires forall k | 0 <= k < |ts| :: InDistanceCell(ts[k], distance, group, weather) ==> ts[k].row.perceived == x
    ensures StdDistance(ts, distance, group, weather) == Some(0.0)
  {
    var keep := (t: Timed) => InDistanceCell(t, distance, group, weather);
    var val := (t: Timed) => t.row.perceived;
    SelectAtLeastTwo(ts, keep, val);
    SelectBounds(ts, keep, val, x, x);
    PandasVarianceOfConstant(Select(ts, keep, val), x);
  }

  /** The keys of OFFSETS (velocity/weather page) and VELOCITY_OFFSETS (weather/velocity page), left to right. */
  const WeatherOrder: seq<string> := ["clear", "rain", "night"]
  const GroupOrder: seq<string> := ["low", "medium", "high"]

  /**
   * OFFSETS.get(key, 0.0) and VELOCITY_OFFSETS.get(key, 0.0): both tables shift the first
   * of their three keys left by 0.1, the last right by 0.1, and leave the middle one and
   * every other key in place.
   */
  function BarOffset(keys: seq<string>, key: string): (r: real)
    requires |keys| == 3
    ensures key == keys[0] ==> r == -0.1
    ensures key != keys[0] && key == keys[2] ==> r == 0.1
    ensures key != keys[0] && key != keys[2] ==> r == 0.0
  {
    if key == keys[0] then -0.1 else if key == keys[2] then 0.1 else 0.0
  }

  /** An error bar's x: the offset as is on the distance axis, a tenth of it on the time axis. */
  function ErrorBarX(x: real, offset: real, timeAxis: bool): real
  {
    if timeAxis then x + offset / 10.0 else x + offset
  }

  /**
   * On either page, the bars of two different keys of the table sit at distinct x, within
   * 0.1 of the point (0.01 on the time axis).
   */
  lemma BarsAreSeparated(keys: seq<string>, x: real, k1: string, k2: string, timeAxis: bool)
    requires keys == WeatherOrder || keys == GroupOrder
    requires k1 in keys && k2 in keys && k1 != k2
    ensures ErrorBarX(x, BarOffset(keys, k1), timeAxis) != ErrorBarX(x, BarOffset(keys, k2), timeAxis)
    ensures Abs(ErrorBarX(x, BarOffset(keys, k1), timeAxis) - x) <= (if timeAxis then 0.01 else 0.1)
  {
  }

  // ---------------------------------------------------------------------------
  // bar_perception_delta.
  // ---------------------------------------------------------------------------

  /** perceived_distance - distance_id AS delta: NULL when either operand is. */
  function SqlDelta(r: RawRow): Option<real>
  {
    if r.perceived.Some? && r.distance.Some? then Some(r.perceived.value - r.distance.value) else None
  }

  /** One row of the bar page's frame. */
  datatype DeltaRow = DeltaRow(participant: int, velocity: real, distance: real, weather: string,
                               delta: real, velocityMs: real, group: string)

  function DeltaOf(x: Row): DeltaRow
  {
    DeltaRow(x.participant, x.velocity, x.distance, x.weather, x.perceived - x.distance,
             VelocityGroups.KmhToMs(x.velocity), VelocityGroups.CategoryOrUnknown(x.velocity))
  }

  /**
   * load_delta_df: the selected columns with dropna (a row whose delta is NULL is one
   * whose perceived distance or distance is NULL), then the speed in m/s and the group
   * for every row; no speed is filtered out.
   */
  function LoadDelta(raw: seq<RawRow>): (r: seq<DeltaRow>)
    ensures |r| == |DropNa(raw)|
    ensures forall k | 0 <= k < |r| :: r[k] == DeltaOf(DropNa(raw)[k])
  {
    var df := DropNa(raw);
    if df == [] then [] else seq(|df|, k requires 0 <= k < |df| => DeltaOf(df[k]))
  }

  /** The delta is the SQL expression's value on the row's own table row. */
  lemma DeltaIsPerceivedMinusReal(x: Row)
    ensures SqlDelta(Full(x)) == Some(DeltaOf(x).delta)
    ensures DeltaOf(x).delta + x.distance == x.perceived
  {
  }

  /** Unlike the time pages, the bar page keeps a stopped participant's rows. */
  lemma StoppedRowsReachOnlyTheBarPage(raw: seq<RawRow>, x: Row)
    requires Full(x) in raw && x.velocity == 0.0
    ensures DeltaOf(x) in LoadDelta(raw)
    ensures forall t | t in LoadPerception(raw) :: t.row != x
  {
    var df := DropNa(raw);
    var k :| 0 <= k < |df| && df[k] == x;
    assert LoadDelta(raw)[k] == DeltaOf(x);
    StoppedRowsAreDropped(raw, x);
  }

  /** WEATHER_COLOR.get(weather, "#7f7f7f"). */
  function WeatherColor(weather: string): (c: string)
    ensures weather !in {"clear", "rain", "night"} <==> c == "#7f7f7f"
  {
    if weather == "clear" then "#00BFFF"
    else if weather == "rain" then "#4682B4"
    else if weather == "night" then "#191970"
    else "#7f7f7f"
  }

  /** One bar series: its name, its colour and its per-distance mean for a given distance. */
  datatype BarSeries = BarSeries(name: string, color: string, keep: DeltaRow -> bool)

  /** The bar at one distance: the mean delta of the series' rows there. */
  function BarMean(ds: seq<DeltaRow>, s: BarSeries, distance: real): (r: Option<real>)
    ensures r.Some? <==> exists k | 0 <= k < |ds| :: s.keep(ds[k]) && ds[k].distance == distance
  {
    Mean(Select(ds, (d: DeltaRow) => s.keep(d) && d.distance == distance, (d: DeltaRow) => d.delta))
  }

  /** The spread of a bar (its error bar before the square root): pandas' variance of the deltas there. */
  function BarStd(ds: seq<DeltaRow>, s: BarSeries, distance: real): (r: Option<real>)
    ensures r.Some? <==> exists i, j | 0 <= i < j < |ds| :: s.keep(ds[i]) && ds[i].distance == distance
                                                          && s.keep(ds[j]) && ds[j].distance == distance
    ensures r.Some? ==> r.value >= 0.0
  {
    var keep := (d: DeltaRow) => s.keep(d) && d.distance == distance;
    var val := (d: DeltaRow) => d.delta;
    var v := Select(ds, keep, val);
    SelectAtLeastTwo(ds, keep, val);
    if |v| >= 2 then PandasVarianceNonNegative(v); PandasVariance(v) else None
  }

  /** The weather_id and velocity_group columns of the bar page. */
  function WeatherColumn(ds: seq<DeltaRow>): (r: seq<string>)
    ensures |r| == |ds| && forall k | 0 <= k < |ds| :: r[k] == ds[k].weather
  {
    seq(|ds|, k requires 0 <= k < |ds| => ds[k].weather)
  }

  function GroupColumn(ds: seq<DeltaRow>): (r: seq<string>)
    ensures |r| == |ds| && forall k | 0 <= k < |ds| :: r[k] == ds[k].group
  {
    seq(|ds|, k requires 0 <= k < |ds| => ds[k].group)
  }

  /**
   * df["weather_id"].unique(): each row's weather exactly once, every key some row's
   * weather, in order of first appearance.
   */
  function WeatherKeys(ds: seq<DeltaRow>): (r: seq<string>)
    ensures NoDup(r) && forall k | 0 <= k < |ds| :: ds[k].weather in r
    ensures forall i | 0 <= i < |r| :: exists k | 0 <= k < |ds| :: ds[k].weather == r[i]
    ensures FirstAppearanceOrder(WeatherColumn(ds), r)
  {
    var ws := WeatherColumn(ds);
    var u := Unique(ws);
    assert forall i | 0 <= i < |u| :: ds[FirstIndex(ws, u[i])].weather == u[i];
    u
  }

  /** df["velocity_group"].unique(), in the same sense. */
  function GroupKeys(ds: seq<DeltaRow>): (r: seq<string>)
    ensures NoDup(r) && forall k | 0 <= k < |ds| :: ds[k].group in r
    ensures forall i | 0 <= i < |r| :: exists k | 0 <= k < |ds| :: ds[k].group == r[i]
    ensures FirstAppearanceOrder(GroupColumn(ds), r)
  {
    var gs := GroupColumn(ds);
    var u := Unique(gs);
    assert forall i | 0 <= i < |u| :: ds[FirstIndex(gs, u[i])].group == u[i];
    u
  }

  /** The figure grouped by weather: one series per weather, in order of first appearance. */
  function WeatherBars(ds: seq<DeltaRow>): (r: seq<BarSeries>)
    ensures |r| == |WeatherKeys(ds)|
    ensures forall i | 0 <= i < |r| :: r[i].color == WeatherColor(WeatherKeys(ds)[i])
                                      && forall d: DeltaRow :: r[i].keep(d) <==> d.weather == WeatherKeys(ds)[i]
  {
    var ws := WeatherKeys(ds);
    seq(|ws|, k requires 0 <= k < |ws| =>
      var w := ws[k];
      BarSeries(Capitalize(w) + " Weather", WeatherColor(w), (d: DeltaRow) => d.weather == w))
  }

  /** The figure grouped by speed: one series per speed group, "unknown" included. */
  function SpeedBars(ds: seq<DeltaRow>): (r: seq<BarSeries>)
    ensures |r| == |GroupKeys(ds)|
    ensures forall i | 0 <= i < |r| :: r[i].color == VelocityGroups.GroupColor(GroupKeys(ds)[i], "#7f7f7f")
                                      && forall d: DeltaRow :: r[i].keep(d) <==> d.group == GroupKeys(ds)[i]
  {
    var gs := GroupKeys(ds);
    seq(|gs|, k requires 0 <= k < |gs| =>
      var g := gs[k];
      BarSeries(Capitalize(g) + " Speed", VelocityGroups.GroupColor(g, "#7f7f7f"), (d: DeltaRow) => d.group == g))
  }

  /** Each row falls in exactly one weather series. */
  lemma EveryRowHasOneWeatherSeries(ds: seq<DeltaRow>, k: nat)
    requires k < |ds|
    ensures exists i | 0 <= i < |WeatherBars(ds)| :: WeatherBars(ds)[i].keep(ds[k])
    ensures forall i, j | 0 <= i < j < |WeatherBars(ds)| :: !(WeatherBars(ds)[i].keep(ds[k]) && WeatherBars(ds)[j].keep(ds[k]))
  {
    var ws := WeatherKeys(ds);
    var i :| 0 <= i < |ws| && ws[i] == ds[k].weather;
    assert WeatherBars(ds)[i].keep(ds[k]);
  }

  /** Each row falls in exactly one speed series; an unknown speed makes a grey one. */
  lemma EveryRowHasOneSpeedSeries(ds: seq<DeltaRow>, k: nat)
    requires k < |ds|
    ensures exists i | 0 <= i < |SpeedBars(ds)| :: SpeedBars(ds)[i].keep(ds[k])
    ensures forall i, j | 0 <= i < j < |SpeedBars(ds)| :: !(SpeedBars(ds)[i].keep(ds[k]) && SpeedBars(ds)[j].keep(ds[k]))
    ensures ds[k].group == "unknown" ==>
              exists i | 0 <= i < |SpeedBars(ds)| :: SpeedBars(ds)[i].keep(ds[k]) && SpeedBars(ds)[i].color == "#7f7f7f"
  {
    var gs := GroupKeys(ds);
    var i :| 0 <= i < |gs| && gs[i] == ds[k].group;
    assert SpeedBars(ds)[i].keep(ds[k]);
  }

  /** A bar lies between the smallest and largest delta of its rows at that distance. */
  lemma BarIsWithinItsRows(ds: seq<DeltaRow>, s: BarSeries, distance: real, lo: real, hi: real)
    requires exists k | 0 <= k < |ds| :: s.keep(ds[k]) && ds[k].distance == distance
    requires forall k | 0 <= k < |ds| :: s.keep(ds[k]) && ds[k].distance == distance ==> lo <= ds[k].delta <= hi
    ensures BarMean(ds, s, distance).Some? && lo <= BarMean(ds, s, distance).value <= hi
  {
    var keep := (d: DeltaRow) => s.keep(d) && d.distance == distance;
    var val := (d: DeltaRow) => d.delta;
    SelectBounds(ds, keep, val, lo, hi);
    var k :| 0 <= k < |ds| && keep(ds[k]);
    SelectNonEmpty(ds, keep, val, k);
    MeanBounds(Select(ds, keep, val), lo, hi);
  }
}

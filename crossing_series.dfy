// The "crossing vs distance (V,W,P)" page: every trial of a participant as one curve,
// read from the crossing table, cleaned row by row, grouped by participant, weather and
// position, and drawn in a 3 x 3 grid with a small vertical offset per speed group.
module CrossingSeries {
  import opened Common
  import VelocityGroups

  // ---------------------------------------------------------------------------
  // Rows and series.
  // ---------------------------------------------------------------------------

  /**
   * One row of the crossing table. The two JSON columns are already decoded into their
   * lists (a NULL or empty column is the empty list); an entry is None when float()
   * rejects it.
   */
  datatype CrossingRow = CrossingRow(
    participant: int,
    weather: Option<string>,
    position: Option<int>,
    velocity: Option<real>,
    distance: seq<Option<real>>,
    crossing: seq<Option<real>>,
    crossingId: int)

  /** One stored trial: its id, its speed and the two aligned lists. */
  datatype Series = Series(crossingId: int, velocity: real, distance: seq<real>, crossing: seq<real>)

  /** data[participant][str(weather)][position]. */
  datatype Key = Key(participant: int, weather: string, position: int)

  /** The error float() raises on an entry that is not a number. */
  const FloatError: string := "ValueError: could not convert to float"

  predicate AllNumbers(xs: seq<Option<real>>)
  {
    forall k | 0 <= k < |xs| :: xs[k].Some?
  }

  function Numbers(xs: seq<Option<real>>): (r: seq<real>)
    requires AllNumbers(xs)
    ensures |r| == |xs| && forall k | 0 <= k < |xs| :: Some(r[k]) == xs[k]
  {
    seq(|xs|, k requires 0 <= k < |xs| => xs[k].value)
  }

  /** The position-1 sign flip: every entry negated, or [] as soon as one is not a number. */
  function Negated(xs: seq<Option<real>>): (r: seq<Option<real>>)
    ensures AllNumbers(xs) ==> |r| == |xs| && forall k | 0 <= k < |xs| :: r[k] == Some(-xs[k].value)
    ensures !AllNumbers(xs) ==> r == []
  {
    if AllNumbers(xs) then seq(|xs|, k requires 0 <= k < |xs| => Some(-xs[k].value)) else []
  }

  /** The distance list after the position-1 rule. */
  function SignedDistance(r: CrossingRow): seq<Option<real>>
  {
    if r.position == Some(1) then Negated(r.distance) else r.distance
  }

  /** The common length both lists are cut to. */
  function Aligned(r: CrossingRow): nat
  {
    Min(|SignedDistance(r)|, |r.crossing|)
  }

  predicate HasKey(r: CrossingRow)
  {
    r.position.Some? && r.velocity.Some? && r.weather.Some?
  }

  /**
   * One iteration of load_crossing_series: rows missing a position, speed or weather and
   * rows whose aligned length is 0 are skipped; a non-number among the first n entries
   * raises; otherwise the row's key and its truncated series.
   */
  function RowEntry(r: CrossingRow): (res: Result<Option<(Key, Series)>>)
    ensures !HasKey(r) ==> res == Ok(None)
    ensures HasKey(r) && Aligned(r) == 0 ==> res == Ok(None)
    ensures res.Err? <==> HasKey(r) && Aligned(r) > 0
                          && !(AllNumbers(SignedDistance(r)[..Aligned(r)]) && AllNumbers(r.crossing[..Aligned(r)]))
    ensures res.Ok? && res.value.Some? ==>
              var (key, s) := res.value.value;
              HasKey(r)
              && key == Key(r.participant, r.weather.value, r.position.value)
              && s.crossingId == r.crossingId && s.velocity == r.velocity.value
              && |s.distance| == |s.crossing| == Aligned(r) > 0
              && (forall k | 0 <= k < Aligned(r) :: Some(s.crossing[k]) == r.crossing[k])
              && (forall k | 0 <= k < Aligned(r) :: Some(s.distance[k]) == SignedDistance(r)[k])
  {
    if !HasKey(r) then Ok(None)
    else
      var d := SignedDistance(r);
      var n := Aligned(r);
      if n == 0 then Ok(None)
      else if !(AllNumbers(d[..n]) && AllNumbers(r.crossing[..n])) then Err(FloatError)
      else
        var key := Key(r.participant, r.weather.value, r.position.value);
        Ok(Some((key, Series(r.crossingId, r.velocity.value, Numbers(d[..n]), Numbers(r.crossing[..n])))))
  }

  /** Position-1 trials are stored with every distance negated. */
  lemma PositionOneIsMirrored(r: CrossingRow)
    requires r.position == Some(1)
    requires RowEntry(r).Ok? && RowEntry(r).value.Some?
    ensures var s := RowEntry(r).value.value.1;
            forall k | 0 <= k < |s.distance| :: r.distance[k].Some? && s.distance[k] == -r.distance[k].value
  {
    var s := RowEntry(r).value.value.1;
    assert AllNumbers(r.distance);
  }

  /** A position-1 row whose distances do not all convert is skipped, never an error. */
  lemma BadMirroredRowIsSkipped(r: CrossingRow)
    requires r.position == Some(1) && !AllNumbers(r.distance)
    ensures RowEntry(r) == Ok(None)
  {
  }

  // ---------------------------------------------------------------------------
  // The nested dictionary.
  // ---------------------------------------------------------------------------

  type Store = map<Key, seq<Series>>

  /** setdefault(...).append(series). */
  function Append(m: Store, key: Key, s: Series): (r: Store)
    ensures r.Keys == m.Keys + {key}
    ensures r[key] == (if key in m then m[key] else []) + [s]
    ensures forall k | k in m && k != key :: r[k] == m[k]
  {
    m[key := (if key in m then m[key] else []) + [s]]
  }

  /** The dictionary after the given rows, or the first error raised. */
  function Load(rows: seq<CrossingRow>): (res: Result<Store>)
    ensures res.Ok? ==> forall key | key in res.value :: res.value[key] != []
  {
    if rows == [] then Ok(map[])
    else
      match Load(rows[..|rows| - 1])
      case Err(e) => Err(e)
      case Ok(m) =>
        match RowEntry(rows[|rows| - 1])
        case Err(e) => Err(e)
        case Ok(None) => Ok(m)
        case Ok(Some(entry)) => Ok(Append(m, entry.0, entry.1))
  }

  /** The series of the rows stored under `key`, in row order: the reference grouping. */
  function SeriesUnder(rows: seq<CrossingRow>, key: Key): seq<Series>
  {
    if rows == [] then []
    else
      var init := SeriesUnder(rows[..|rows| - 1], key);
      var e := RowEntry(rows[|rows| - 1]);
      if e.Ok? && e.value.Some? && e.value.value.0 == key then init + [e.value.value.1] else init
  }

  lemma LoadAppend(rows: seq<CrossingRow>, i: nat)
    requires i < |rows|
    ensures Load(rows[..i + 1]) == match Load(rows[..i])
                                   case Err(e) => Err(e)
                                   case Ok(m) =>
                                     match RowEntry(rows[i])
                                     case Err(e) => Err(e)
                                     case Ok(None) => Ok(m)
                                     case Ok(Some(entry)) => Ok(Append(m, entry.0, entry.1))
  {
    assert rows[..i + 1][..i] == rows[..i];
  }

  /** Once a row raises, the rest of the table does not matter. */
  lemma {:induction false} ErrorPersists(rows: seq<CrossingRow>, i: nat)
    requires i <= |rows| && Load(rows[..i]).Err?
    ensures Load(rows) == Load(rows[..i])
    decreases |rows| - i
  {
    if i < |rows| {
      LoadAppend(rows, i);
      ErrorPersists(rows, i + 1);
    } else {
      assert rows[..i] == rows;
    }
  }

  /** The load fails exactly when some row raises. */
  lemma {:induction false} LoadFailsIffSomeRowRaises(rows: seq<CrossingRow>)
    ensures Load(rows).Err? <==> exists j | 0 <= j < |rows| :: RowEntry(rows[j]).Err?
  {
    if rows != [] {
      var p := rows[..|rows| - 1];
      LoadFailsIffSomeRowRaises(p);
      assert forall j | 0 <= j < |p| :: p[j] == rows[j];
      if Load(rows).Err? && Load(p).Ok? {
        assert RowEntry(rows[|rows| - 1]).Err?;
      }
    }
  }

  /** The dictionary holds exactly the non-empty groups, each in row order. */
  lemma {:induction false} LoadGroupsByKey(rows: seq<CrossingRow>)
    requires Load(rows).Ok?
    ensures forall key :: key in Load(rows).value <==> SeriesUnder(rows, key) != []
    ensures forall key | key in Load(rows).value :: Load(rows).value[key] == SeriesUnder(rows, key)
  {
    if rows != [] {
      var p := rows[..|rows| - 1];
      LoadGroupsByKey(p);
    }
  }

  /** Some row of `rows` stores `s` under `key`. */
  predicate StoredBySomeRow(rows: seq<CrossingRow>, key: Key, s: Series)
  {
    exists j | 0 <= j < |rows| :: RowEntry(rows[j]) == Ok(Some((key, s)))
  }

  /** Every grouped series comes from a stored row with that key. */
  lemma {:induction false} GroupedSeriesComeFromRows(rows: seq<CrossingRow>, key: Key)
    ensures forall k | 0 <= k < |SeriesUnder(rows, key)| :: StoredBySomeRow(rows, key, SeriesUnder(rows, key)[k])
  {
    if rows != [] {
      var p := rows[..|rows| - 1];
      GroupedSeriesComeFromRows(p, key);
      var init := SeriesUnder(p, key);
      var r := SeriesUnder(rows, key);
      forall k | 0 <= k < |r|
        ensures StoredBySomeRow(rows, key, r[k])
      {
        if k < |init| {
          assert r[k] == init[k];
          assert StoredBySomeRow(p, key, init[k]);
          var j :| 0 <= j < |p| && RowEntry(p[j]) == Ok(Some((key, init[k])));
          assert rows[j] == p[j];
        } else {
          assert RowEntry(rows[|rows| - 1]) == Ok(Some((key, r[k])));
        }
      }
    }
  }

  /** Stored series always have two lists of equal, non-zero length, and the speed of their key's row. */
  lemma StoredSeriesAreAligned(rows: seq<CrossingRow>, key: Key, s: Series)
    requires Load(rows).Ok? && key in Load(rows).value && s in Load(rows).value[key]
    ensures |s.distance| == |s.crossing| > 0
    ensures StoredBySomeRow(rows, key, s)
  {
    LoadGroupsByKey(rows);
    GroupedSeriesComeFromRows(rows, key);
    var k :| 0 <= k < |SeriesUnder(rows, key)| && SeriesUnder(rows, key)[k] == s;
    assert StoredBySomeRow(rows, key, s);
    var j :| 0 <= j < |rows| && RowEntry(rows[j]) == Ok(Some((key, s)));
  }

  /**
   * load_crossing_series' loop: the dictionary grows by one appended series per kept row;
   * the first row that raises ends the load with its error.
   */
  method LoadCrossingSeries(rows: seq<CrossingRow>) returns (res: Result<Store>)
    ensures res == Load(rows)
  {
    var data: Store := map[];
    var i := 0;
    while i < |rows|
      invariant 0 <= i <= |rows|
      invariant Load(rows[..i]) == Ok(data)
    {
      LoadAppend(rows, i);
      var e := RowEntry(rows[i]);
      if e.Err? {
        ErrorPersists(rows, i + 1);
        return Err(e.error);
      }
      if e.value.Some? {
        var (key, s) := e.value.value;
        var list := if key in data then data[key] else [];
        data := data[key := list + [s]];
      }
      i := i + 1;
    }
    assert rows[..i] == rows;
    res := Ok(data);
  }

  // ---------------------------------------------------------------------------
  // The 3 x 3 grid.
  // ---------------------------------------------------------------------------

  /** Grid rows, top to bottom; grid columns are positions 0, 1, 2. */
  const GridWeathers: seq<string> := ["clear", "rain", "night"]

  /** Y_OFFSET.get(vcat, 0.0). */
  function YOffset(vcat: string): (r: real)
    ensures vcat == "low" ==> r == 0.0
    ensures vcat == "medium" ==> r == 0.02
    ensures vcat == "high" ==> r == 0.04
    ensures vcat !in {"low", "medium", "high"} ==> r == 0.0
  {
    if vcat == "medium" then 0.02 else if vcat == "high" then 0.04 else 0.0
  }

  /** One curve of the grid. */
  datatype Trace = Trace(row: nat, col: nat, xs: seq<real>, ys: seq<real>, name: string, color: string, showLegend: bool)

  /** The curve of one trial in grid cell (w, pos); None when either list is empty. */
  function SeriesTrace(s: Series, w: nat, pos: nat): (r: Option<Trace>)
    requires w < 3 && pos < 3
    ensures r.None? <==> s.distance == [] || s.crossing == []
    ensures r.Some? ==> r.value.row == w + 1 && r.value.col == pos + 1
    ensures r.Some? ==> (r.value.showLegend <==> pos == 0 && w == 0)
  {
    var vcat := VelocityGroups.CategoryOrHigh(s.velocity);
    if s.distance == [] || s.crossing == [] then None
    else
      var yofs := YOffset(vcat);
      Some(Trace(w + 1, pos + 1, s.distance, seq(|s.crossing|, k requires 0 <= k < |s.crossing| => s.crossing[k] + yofs),
                 Capitalize(vcat) + " Speed", VelocityGroups.GroupColor(vcat, "#000000"), pos == 0 && GridWeathers[w] == "clear"))
  }

  /** A drawn curve is the trial's crossing list lifted by its speed group's offset, in that group's colour. */
  lemma TraceIsOffsetCrossing(s: Series, w: nat, pos: nat)
    requires w < 3 && pos < 3 && s.distance != [] && s.crossing != []
    ensures var t := SeriesTrace(s, w, pos).value;
            var vcat := VelocityGroups.CategoryOrHigh(s.velocity);
            t.xs == s.distance && |t.ys| == |s.crossing|
            && (forall k | 0 <= k < |s.crossing| :: t.ys[k] == s.crossing[k] + YOffset(vcat))
            && t.color != "#000000"
            && (t.ys == s.crossing <==> vcat == "low")
  {
    var t := SeriesTrace(s, w, pos).value;
    var vcat := VelocityGroups.CategoryOrHigh(s.velocity);
    if t.ys == s.crossing {
      assert t.ys[0] == s.crossing[0] + YOffset(vcat);
    }
  }

  /** The curves of one cell, in list order. */
  function CellTraces(ss: seq<Series>, w: nat, pos: nat): (r: seq<Trace>)
    requires w < 3 && pos < 3
    ensures |r| <= |ss|
    ensures forall k | 0 <= k < |r| :: r[k].row == w + 1 && r[k].col == pos + 1
                                      && (r[k].showLegend <==> pos == 0 && w == 0)
  {
    if ss == [] then []
    else
      var init := CellTraces(ss[..|ss| - 1], w, pos);
      match SeriesTrace(ss[|ss| - 1], w, pos)
      case None => init
      case Some(t) => init + [t]
  }

  /** Every stored series of a cell is drawn. */
  lemma {:induction false} NoStoredSeriesIsDropped(ss: seq<Series>, w: nat, pos: nat)
    requires w < 3 && pos < 3
    requires forall k | 0 <= k < |ss| :: |ss[k].distance| == |ss[k].crossing| > 0
    ensures |CellTraces(ss, w, pos)| == |ss|
  {
    if ss != [] {
      NoStoredSeriesIsDropped(ss[..|ss| - 1], w, pos);
    }
  }

  /** participant_data.get(weather, {}).get(pos, []). */
  function Cell(m: Store, participant: int, w: nat, pos: nat): seq<Series>
    requires w < 3
  {
    var key := Key(participant, GridWeathers[w], pos);
    if key in m then m[key] else []
  }

  /** The curves of the first `c` cells, weather-major, position-minor. */
  function GridTraces(m: Store, participant: int, c: nat): (r: seq<Trace>)
    requires c <= 9
    ensures forall k | 0 <= k < |r| :: 1 <= r[k].row <= 3 && 1 <= r[k].col <= 3
                                      && (r[k].showLegend <==> r[k].row == 1 && r[k].col == 1)
  {
    if c == 0 then []
    else GridTraces(m, participant, c - 1) + CellTraces(Cell(m, participant, (c - 1) / 3, (c - 1) % 3), (c - 1) / 3, (c - 1) % 3)
  }

  /** build_figure's loops over WEATHERS and POSITIONS, for one participant's data. */
  function Figure(m: Store, participant: int): (r: seq<Trace>)
    ensures forall k | 0 <= k < |r| :: (r[k].showLegend <==> r[k].row == 1 && r[k].col == 1)
  {
    GridTraces(m, participant, 9)
  }

  /** Every series a load stores for the participant is drawn: one curve per stored trial. */
  lemma {:induction false} LoadedCellsAreFullyDrawn(rows: seq<CrossingRow>, participant: int, w: nat, pos: nat)
    requires Load(rows).Ok? && w < 3 && pos < 3
    ensures |CellTraces(Cell(Load(rows).value, participant, w, pos), w, pos)| == |Cell(Load(rows).value, participant, w, pos)|
  {
    var ss := Cell(Load(rows).value, participant, w, pos);
    var key := Key(participant, GridWeathers[w], pos);
    forall k | 0 <= k < |ss|
      ensures |ss[k].distance| == |ss[k].crossing| > 0
    {
      StoredSeriesAreAligned(rows, key, ss[k]);
    }
    NoStoredSeriesIsDropped(ss, w, pos);
  }
}

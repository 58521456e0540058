// Calibration of the crossing model: loading the per-condition CSV files, deriving
// the safety time, filtering at the safety-time limit, adding polynomial features,
// K-fold estimation of the per-weather scaling alpha and the final refit whose
// coefficients are the ones saved.
module Training {
  import opened Common
  import Paths

  // ---------------------------------------------------------------------------
  // Loading.
  // ---------------------------------------------------------------------------

  /** One CSV line; None is a missing (NaN) cell. `othersComplete` is false when
      any further column of the line is missing, which dropna also catches. */
  datatype RawRow = RawRow(height: Option<real>, velocityExp2: Option<real>,
                           avgSafetyDistance: Option<real>, othersComplete: bool)

  /** A directory entry: its name, the columns of its header and its lines. */
  datatype CsvFile = CsvFile(name: string, columns: set<string>, rows: seq<RawRow>)

  /** A line after concatenation: tagged with the weather taken from its file name. */
  datatype TaggedRow = TaggedRow(weather: string, raw: RawRow)

  /** A complete line with its derived columns. */
  datatype Row = Row(weather: string, height: real, velocityExp2: real, avgSafetyDistance: real,
                     velocityMs: real, avgSafetyTime: Float)

  function FirstUnderscore(s: string): (r: Option<nat>)
    ensures r.Some? ==> r.value < |s| && s[r.value] == '_' && '_' !in s[..r.value]
    ensures r.None? <==> '_' !in s
  {
    if s == [] then None
    else if s[0] == '_' then Some(0)
    else match FirstUnderscore(s[1..])
      case None => None
      case Some(i) => Some(i + 1)
  }

  /** `name.split("_")[0]` when the name holds an underscore; otherwise the file is skipped. */
  function WeatherLabel(name: string): (r: Option<string>)
    ensures r.Some? <==> '_' in name
    ensures r.Some? ==> '_' !in r.value && StartsWith(name, r.value + "_")
  {
    match FirstUnderscore(name)
    case None => None
    case Some(i) =>
      assert name[..i + 1] == name[..i] + "_";
      Some(name[..i])
  }

  /** Only entries with the ".csv" suffix are read. */
  predicate IsCsv(f: CsvFile)
  {
    Paths.PathSuffix(f.name) == ".csv"
  }

  /** A column a file lacks is NaN-filled by the concatenation. */
  function Cell(f: CsvFile, column: string, v: Option<real>): Option<real>
  {
    if column in f.columns then v else None
  }

  function TagRows(f: CsvFile, weather: string): (r: seq<TaggedRow>)
    ensures |r| == |f.rows|
    ensures forall k | 0 <= k < |r| :: r[k].weather == weather && r[k].raw.othersComplete == f.rows[k].othersComplete
    ensures forall k | 0 <= k < |r| ::
              (r[k].raw.height == if "height" in f.columns then f.rows[k].height else None)
              && (r[k].raw.velocityExp2 == if "velocity_exp2" in f.columns then f.rows[k].velocityExp2 else None)
              && (r[k].raw.avgSafetyDistance == if "avg_safety_distance" in f.columns then f.rows[k].avgSafetyDistance else None)
  {
    seq(|f.rows|, k requires 0 <= k < |f.rows| =>
      var row := f.rows[k];
      TaggedRow(weather, RawRow(Cell(f, "height", row.height), Cell(f, "velocity_exp2", row.velocityExp2),
                                Cell(f, "avg_safety_distance", row.avgSafetyDistance), row.othersComplete)))
  }

  /** The lines of every file that is read, in directory order. */
  function Concatenated(files: seq<CsvFile>): seq<TaggedRow>
  {
    if files == [] then []
    else
      var f := files[|files| - 1];
      var tail := if IsCsv(f) && WeatherLabel(f.name).Some? then TagRows(f, WeatherLabel(f.name).value) else [];
      Concatenated(files[..|files| - 1]) + tail
  }

  /** The columns of the concatenated frame (the empty frame has none). */
  function LoadedColumns(files: seq<CsvFile>): set<string>
  {
    if files == [] then {}
    else
      var f := files[|files| - 1];
      LoadedColumns(files[..|files| - 1]) + (if IsCsv(f) && WeatherLabel(f.name).Some? then f.columns else {})
  }

  /** velocity_ms and avg_safety_time of a line, or None when dropna removes it. */
  function Derive(t: TaggedRow): (r: Option<Row>)
    ensures r.Some? ==> r.value.weather == t.weather && !r.value.avgSafetyTime.NaN?
  {
    match (t.raw.height, t.raw.velocityExp2, t.raw.avgSafetyDistance)
    case (Some(h), Some(v), Some(d)) =>
      var ms := v * (5.0 / 18.0);
      var time := FDiv(d, ms);
      if t.raw.othersComplete && !time.NaN? then Some(Row(t.weather, h, v, d, ms, time)) else None
    case _ => None
  }

  /** dropna: the derivable lines, each once and in the order of the concatenation. */
  function DropNa(ts: seq<TaggedRow>): (r: seq<Row>)
    ensures |r| <= |ts|
    ensures r == FilterMap(ts, Derive)
  {
    if ts == [] then []
    else
      var last := Derive(ts[|ts| - 1]);
      DropNa(ts[..|ts| - 1]) + (if last.Some? then [last.value] else [])
  }

  /** dropna works line by line: the kept lines of two stretches follow each other. */
  lemma DropNaKeepsOrder(a: seq<TaggedRow>, b: seq<TaggedRow>, t: TaggedRow)
    ensures DropNa(a + b) == DropNa(a) + DropNa(b)
    ensures DropNa([t]) == if Derive(t).Some? then [Derive(t).value] else []
  {
    FilterMapConcat(a, b, Derive);
    FilterMapOne(t, Derive);
  }

  /**
   * The loaded lines, or the KeyError of the first column the pipeline reads and no file
   * has: velocity_exp2 and avg_safety_distance while loading, height when prepare_data
   * first squares it.
   */
  function LoadSpec(files: seq<CsvFile>): (r: Result<seq<Row>>)
    ensures r.Err? <==> "velocity_exp2" !in LoadedColumns(files) || "avg_safety_distance" !in LoadedColumns(files)
                        || "height" !in LoadedColumns(files)
    ensures r.Ok? ==> r.value == DropNa(Concatenated(files))
  {
    var cols := LoadedColumns(files);
    if "velocity_exp2" !in cols then Err("KeyError: 'velocity_exp2'")
    else if "avg_safety_distance" !in cols then Err("KeyError: 'avg_safety_distance'")
    else if "height" !in cols then Err("KeyError: 'height'")
    else Ok(DropNa(Concatenated(files)))
  }

  /** The directory loop: every CSV file with an underscore in its name is tagged and appended. */
  method ConcatenateFiles(files: seq<CsvFile>) returns (datas: seq<TaggedRow>, columns: set<string>)
    ensures datas == Concatenated(files) && columns == LoadedColumns(files)
  {
    datas, columns := [], {};
    var i := 0;
    while i < |files|
      invariant 0 <= i <= |files|
      invariant datas == Concatenated(files[..i])
      invariant columns == LoadedColumns(files[..i])
    {
      var f := files[i];
      ConcatenatedStep(files, i);
      if IsCsv(f) {
        var tag := WeatherLabel(f.name);
        if tag.Some? {
          datas := datas + TagRows(f, tag.value);
          columns := columns + f.columns;
        }
      }
      i := i + 1;
    }
    assert files[..|files|] == files;
  }

  /** Reading one more file appends its tagged lines and columns, when it is read at all. */
  lemma ConcatenatedStep(files: seq<CsvFile>, i: nat)
    requires i < |files|
    ensures Concatenated(files[..i + 1]) == Concatenated(files[..i])
              + if IsCsv(files[i]) && WeatherLabel(files[i].name).Some? then TagRows(files[i], WeatherLabel(files[i].name).value) else []
    ensures LoadedColumns(files[..i + 1]) == LoadedColumns(files[..i])
              + if IsCsv(files[i]) && WeatherLabel(files[i].name).Some? then files[i].columns else {}
  {
    assert files[..i + 1][..i] == files[..i];
  }

  /** dropna over the derived lines. */
  method DropIncomplete(datas: seq<TaggedRow>) returns (kept: seq<Row>)
    ensures kept == DropNa(datas)
  {
    kept := [];
    var j := 0;
    while j < |datas|
      invariant 0 <= j <= |datas|
      invariant kept == DropNa(datas[..j])
    {
      assert datas[..j + 1][..j] == datas[..j];
      var d := Derive(datas[j]);
      if d.Some? {
        kept := kept + [d.value];
      }
      j := j + 1;
    }
    assert datas[..|datas|] == datas;
  }

  /** Reads every matching file, concatenates, derives the safety time and drops incomplete lines. */
  method LoadCsvFiles(files: seq<CsvFile>) returns (r: Result<seq<Row>>)
    ensures r == LoadSpec(files)
  {
    var datas, columns := ConcatenateFiles(files);
    if "velocity_exp2" !in columns {
      return Err("KeyError: 'velocity_exp2'");
    }
    if "avg_safety_distance" !in columns {
      return Err("KeyError: 'avg_safety_distance'");
    }
    if "height" !in columns {
      return Err("KeyError: 'height'");
    }
    var kept := DropIncomplete(datas);
    return Ok(kept);
  }

  /** Every line of the concatenation comes from a CSV file whose name starts with its weather. */
  lemma {:induction false} ConcatenatedFromNamedFiles(files: seq<CsvFile>, k: nat)
    requires k < |Concatenated(files)|
    ensures exists f | f in files :: IsCsv(f) && WeatherLabel(f.name) == Some(Concatenated(files)[k].weather)
  {
    var f := files[|files| - 1];
    var head := Concatenated(files[..|files| - 1]);
    if k < |head| {
      ConcatenatedFromNamedFiles(files[..|files| - 1], k);
      var g :| g in files[..|files| - 1] && IsCsv(g) && WeatherLabel(g.name) == Some(head[k].weather);
      assert g in files;
    } else {
      assert IsCsv(f) && WeatherLabel(f.name).Some?;
      assert f in files;
    }
  }

  /** The rows dropna keeps are exactly the complete derived lines, in order. */
  lemma {:induction false} DropNaKeepsCompleteLines(ts: seq<TaggedRow>, row: Row)
    ensures row in DropNa(ts) <==> exists k | 0 <= k < |ts| :: Derive(ts[k]) == Some(row)
  {
    if ts != [] {
      var init := ts[..|ts| - 1];
      DropNaKeepsCompleteLines(init, row);
      if row in DropNa(init) {
        var k :| 0 <= k < |init| && Derive(init[k]) == Some(row);
        assert ts[k] == init[k];
      }
      if exists k | 0 <= k < |ts| :: Derive(ts[k]) == Some(row) {
        var k :| 0 <= k < |ts| && Derive(ts[k]) == Some(row);
        if k < |init| {
          assert init[k] == ts[k];
        }
      }
    }
  }

  /** A loaded row carries its speed in m/s and its safety time, which is never NaN. */
  lemma {:induction false} LoadedRowsAreDerived(ts: seq<TaggedRow>, k: nat)
    requires k < |DropNa(ts)|
    ensures var r := DropNa(ts)[k];
            r.velocityMs * 18.0 == r.velocityExp2 * 5.0
            && r.avgSafetyTime == FDiv(r.avgSafetyDistance, r.velocityMs)
            && !r.avgSafetyTime.NaN?
  {
    var init := ts[..|ts| - 1];
    if k < |DropNa(init)| {
      LoadedRowsAreDerived(init, k);
    }
  }

  // ---------------------------------------------------------------------------
  // Feature preparation.
  // ---------------------------------------------------------------------------

  function Pow(x: real, n: nat): real
  {
    if n == 0 then 1.0 else x * Pow(x, n - 1)
  }

  datatype Prepared = Prepared(row: Row, height2: real, height3: real, height4: real,
                               velocity2: real, velocity3: real, velocity4: real)

  /** avg_safety_time < limit under IEEE comparison: +inf is never below a limit, -inf always is. */
  predicate UnderLimit(row: Row, limit: Option<real>)
    ensures limit.Some? && row.avgSafetyTime == Inf(false) ==> !UnderLimit(row, limit)
    ensures limit.Some? && row.avgSafetyTime == Inf(true) ==> UnderLimit(row, limit)
    ensures limit.Some? && row.avgSafetyTime.Fin? ==> (UnderLimit(row, limit) <==> row.avgSafetyTime.v < limit.value)
  {
    limit.None? || FLess(row.avgSafetyTime, limit.value)
  }

  lemma SmallPowers(x: real)
    ensures Pow(x, 2) == x * x && Pow(x, 3) == x * x * x && Pow(x, 4) == x * x * x * x
  {
    assert Pow(x, 1) == x;
    assert Pow(x, 2) == x * x;
    assert Pow(x, 3) == x * (x * x);
    assert Pow(x, 4) == x * (x * x * x);
  }

  /** The squared, cubed and fourth-power columns of height and speed. */
  function WithPowers(row: Row): (p: Prepared)
    ensures p.row == row
    ensures p.height2 == Pow(row.height, 2) && p.height3 == Pow(row.height, 3) && p.height4 == Pow(row.height, 4)
    ensures p.velocity2 == Pow(row.velocityExp2, 2) && p.velocity3 == Pow(row.velocityExp2, 3)
            && p.velocity4 == Pow(row.velocityExp2, 4)
  {
    var h := row.height;
    var v := row.velocityExp2;
    SmallPowers(h);
    SmallPowers(v);
    Prepared(row, h * h, h * h * h, h * h * h * h, v * v, v * v * v, v * v * v * v)
  }

  /** What prepare_data makes of one line: its powers when it passes the limit, else nothing. */
  function Prepare(limit: Option<real>): Row -> Option<Prepared>
  {
    (row: Row) => if UnderLimit(row, limit) then Some(WithPowers(row)) else None
  }

  /** Keeps lines whose safety time is strictly below the limit (when given) and adds the powers. */
  function PrepareData(rows: seq<Row>, limit: Option<real>): (r: seq<Prepared>)
    ensures |r| <= |rows|
    ensures r == FilterMap(rows, Prepare(limit))
    ensures forall k | 0 <= k < |r| :: UnderLimit(r[k].row, limit) && r[k].row in rows
    ensures forall k | 0 <= k < |r| :: r[k] == WithPowers(r[k].row)
    ensures limit.None? ==> |r| == |rows|
  {
    if rows == [] then []
    else
      var init := PrepareData(rows[..|rows| - 1], limit);
      var last := rows[|rows| - 1];
      init + (if UnderLimit(last, limit) then [WithPowers(last)] else [])
  }

  /** No line under the limit is lost. */
  lemma {:induction false} PrepareDataKeepsRowsUnderLimit(rows: seq<Row>, limit: Option<real>, k: nat)
    requires k < |rows| && UnderLimit(rows[k], limit)
    ensures WithPowers(rows[k]) in PrepareData(rows, limit)
  {
    if k < |rows| - 1 {
      PrepareDataKeepsRowsUnderLimit(rows[..|rows| - 1], limit, k);
    }
  }

  /** The boolean indexing keeps the table's order: two stretches stay one after the other. */
  lemma PrepareDataKeepsOrder(a: seq<Row>, b: seq<Row>, row: Row, limit: Option<real>)
    ensures PrepareData(a + b, limit) == PrepareData(a, limit) + PrepareData(b, limit)
    ensures PrepareData([row], limit) == if UnderLimit(row, limit) then [WithPowers(row)] else []
  {
    FilterMapConcat(a, b, Prepare(limit));
    FilterMapOne(row, Prepare(limit));
  }

  // ---------------------------------------------------------------------------
  // Cross-validated calibration.
  // ---------------------------------------------------------------------------

  /** A training line: the predictors height, height^2 and speed (km/h), and the safety time. */
  datatype Sample = Sample(weather: string, height: real, height2: real, velocity: real, target: real)

  /** A linear model: coefficients of the three predictors and the intercept. */
  datatype Coefs = Coefs(height: real, height2: real, velocity: real, intercept: real)

  function Predict(m: Coefs, s: Sample): real
  {
    m.height * s.height + m.height2 * s.height2 + m.velocity * s.velocity + m.intercept
  }

  /** Fitting rejects an infinite target, so the training frame is all finite. */
  function ToSamples(ps: seq<Prepared>): (r: Result<seq<Sample>>)
    ensures r.Ok? <==> forall k | 0 <= k < |ps| :: ps[k].row.avgSafetyTime.Fin?
    ensures r.Ok? ==> |r.value| == |ps|
    ensures r.Ok? ==> forall k | 0 <= k < |ps| ::
              r.value[k].target == ps[k].row.avgSafetyTime.v && r.value[k].weather == ps[k].row.weather
  {
    if ps == [] then Ok([])
    else
      var last := ps[|ps| - 1];
      match ToSamples(ps[..|ps| - 1])
      case Err(e) => Err(e)
      case Ok(init) =>
        if last.row.avgSafetyTime.Fin? then
          Ok(init + [Sample(last.row.weather, last.row.height, last.height2, last.row.velocityExp2, last.row.avgSafetyTime.v)])
        else Err("ValueError: Input contains infinity")
  }

  /** The fitting routine is not modelled: any map from training lines to coefficients. */
  type Fitter = seq<Sample> -> Coefs

  datatype Fold = Fold(trainIdx: seq<nat>, valIdx: seq<nat>)

  predicate ValidFold(n: nat, f: Fold)
  {
    (forall k | 0 <= k < |f.trainIdx| :: f.trainIdx[k] < n)
    && (forall k | 0 <= k < |f.valIdx| :: f.valIdx[k] < n)
  }

  function Select(s: seq<Sample>, idx: seq<nat>): (r: seq<Sample>)
    requires forall k | 0 <= k < |idx| :: idx[k] < |s|
    ensures |r| == |idx| && forall k | 0 <= k < |idx| :: r[k] == s[idx[k]]
  {
    seq(|idx|, k requires 0 <= k < |idx| => s[idx[k]])
  }

  /** A line of weather `w` is kept as it is; any other line is dropped. */
  function HasWeather(w: string): Sample -> Option<Sample>
  {
    (x: Sample) => if x.weather == w then Some(x) else None
  }

  /** val_df[val_df["weather"] == w]: the lines of one weather, each once and in order. */
  function OfWeather(s: seq<Sample>, w: string): (r: seq<Sample>)
    ensures |r| <= |s|
    ensures forall k | 0 <= k < |r| :: r[k].weather == w && r[k] in s
  {
    if s == [] then []
    else OfWeather(s[..|s| - 1], w) + (if s[|s| - 1].weather == w then [s[|s| - 1]] else [])
  }

  /** The subset of one weather is the order-keeping filter of the lines by their weather. */
  lemma {:induction false} OfWeatherIsFiltered(s: seq<Sample>, w: string)
    ensures OfWeather(s, w) == FilterMap(s, HasWeather(w))
  {
    if s != [] {
      OfWeatherIsFiltered(s[..|s| - 1], w);
    }
  }

  /** The subset of a concatenation is the concatenation of the subsets. */
  lemma OfWeatherKeepsOrder(a: seq<Sample>, b: seq<Sample>, x: Sample, w: string)
    ensures OfWeather(a + b, w) == OfWeather(a, w) + OfWeather(b, w)
    ensures OfWeather([x], w) == if x.weather == w then [x] else []
  {
    OfWeatherIsFiltered(a + b, w);
    OfWeatherIsFiltered(a, w);
    OfWeatherIsFiltered(b, w);
    OfWeatherIsFiltered([x], w);
    FilterMapConcat(a, b, HasWeather(w));
    FilterMapOne(x, HasWeather(w));
  }

  lemma {:induction false} OfWeatherEmpty(s: seq<Sample>, w: string)
    ensures OfWeather(s, w) == [] <==> forall k | 0 <= k < |s| :: s[k].weather != w
  {
    if s != [] {
      OfWeatherEmpty(s[..|s| - 1], w);
      assert forall k | 0 <= k < |s| - 1 :: s[..|s| - 1][k] == s[k];
    }
  }

  function Targets(s: seq<Sample>): (r: seq<real>)
    ensures |r| == |s| && forall k | 0 <= k < |s| :: r[k] == s[k].target
  {
    seq(|s|, k requires 0 <= k < |s| => s[k].target)
  }

  function Predictions(m: Coefs, s: seq<Sample>): (r: seq<real>)
    ensures |r| == |s| && forall k | 0 <= k < |s| :: r[k] == Predict(m, s[k])
  {
    seq(|s|, k requires 0 <= k < |s| => Predict(m, s[k]))
  }

  /** alpha of one weather: mean observed over mean predicted; None when the weather is absent. */
  function WeatherAlpha(m: Coefs, s: seq<Sample>, w: string): (r: Option<Float>)
    ensures r.None? <==> OfWeather(s, w) == []
  {
    var sub := OfWeather(s, w);
    if sub == [] then None
    else Some(FDiv(Mean(Targets(sub)).value, Mean(Predictions(m, sub)).value))
  }

  function FoldModel(train: seq<Sample>, f: Fold, fit: Fitter): Coefs
    requires ValidFold(|train|, f)
  {
    fit(Select(train, f.trainIdx))
  }

  /** The alphas one weather collects over the folds, in fold order. */
  function FoldAlphas(train: seq<Sample>, folds: seq<Fold>, fit: Fitter, w: string): seq<Float>
    requires forall k | 0 <= k < |folds| :: ValidFold(|train|, folds[k])
  {
    if folds == [] then []
    else
      var f := folds[|folds| - 1];
      FoldAlphas(train, folds[..|folds| - 1], fit, w) + FoldAlpha(FoldModel(train, f, fit), Select(train, f.valIdx), w)
  }

  /** One alpha per fold at most, and exactly one per fold whose validation part has the weather. */
  lemma {:induction false} FoldAlphasCount(train: seq<Sample>, folds: seq<Fold>, fit: Fitter, w: string)
    requires forall k | 0 <= k < |folds| :: ValidFold(|train|, folds[k])
    ensures |FoldAlphas(train, folds, fit, w)| <= |folds|
    ensures (forall k | 0 <= k < |folds| :: OfWeather(Select(train, folds[k].valIdx), w) != [])
            ==> |FoldAlphas(train, folds, fit, w)| == |folds|
    ensures (forall k | 0 <= k < |folds| :: OfWeather(Select(train, folds[k].valIdx), w) == [])
            ==> FoldAlphas(train, folds, fit, w) == []
  {
    if folds != [] {
      var init, f := folds[..|folds| - 1], folds[|folds| - 1];
      assert forall k | 0 <= k < |init| :: init[k] == folds[k];
      FoldAlphasCount(train, init, fit, w);
      var v := Select(train, f.valIdx);
      var a := FoldAlpha(FoldModel(train, f, fit), v, w);
      assert FoldAlphas(train, folds, fit, w) == FoldAlphas(train, init, fit, w) + a;
      FoldAlphaEmptyExactly(FoldModel(train, f, fit), v, w);
      if forall k | 0 <= k < |folds| :: OfWeather(Select(train, folds[k].valIdx), w) != [] {
        assert OfWeather(v, w) != [];
        assert forall k | 0 <= k < |init| :: OfWeather(Select(train, init[k].valIdx), w) != [];
      }
      if forall k | 0 <= k < |folds| :: OfWeather(Select(train, folds[k].valIdx), w) == [] {
        assert OfWeather(v, w) == [];
        assert forall k | 0 <= k < |init| :: OfWeather(Select(train, init[k].valIdx), w) == [];
      }
    }
  }

  /** A fold gives no alpha exactly when its validation part has no line of the weather. */
  lemma FoldAlphaEmptyExactly(model: Coefs, validation: seq<Sample>, w: string)
    ensures |FoldAlpha(model, validation, w)| == if OfWeather(validation, w) == [] then 0 else 1
  {
    OfWeatherEmpty(validation, w);
  }

  /** The alpha of weather `w` for one fold, as a list of zero or one element. */
  function FoldAlpha(model: Coefs, validation: seq<Sample>, w: string): (r: seq<Float>)
    ensures |r| <= 1
    ensures r == [] <==> forall k | 0 <= k < |validation| :: validation[k].weather != w
    ensures r != [] ==> WeatherAlpha(model, validation, w) == Some(r[0])
  {
    OfWeatherEmpty(validation, w);
    var a := WeatherAlpha(model, validation, w);
    if a.Some? then [a.value] else []
  }

  /** The per-weather loop of one fold: each weather with validation lines gets its alpha appended. */
  method AppendFoldAlphas(alphasCv: map<string, seq<Float>>, weathers: seq<string>, model: Coefs,
                          validation: seq<Sample>) returns (next: map<string, seq<Float>>)
    requires NoDup(weathers) && alphasCv.Keys == set w | w in weathers
    ensures next.Keys == alphasCv.Keys
    ensures forall w | w in next :: next[w] == alphasCv[w] + FoldAlpha(model, validation, w)
  {
    next := alphasCv;
    var j := 0;
    ghost var done: seq<string> := [];
    while j < |weathers|
      invariant 0 <= j <= |weathers|
      invariant done == weathers[..j]
      invariant next.Keys == alphasCv.Keys
      invariant forall w | w in next ::
        next[w] == if w in done then alphasCv[w] + FoldAlpha(model, validation, w) else alphasCv[w]
    {
      var w := weathers[j];
      assert w !in done;
      assert w in alphasCv;
      next := AppendWeatherAlpha(alphasCv, next, done, w, model, validation);
      PrefixStep(weathers, j);
      done := done + [w];
      j := j + 1;
    }
    assert done == weathers;
  }

  /** One weather's step of the per-weather loop: its alpha, if any, goes at the end of its list. */
  method AppendWeatherAlpha(alphasCv: map<string, seq<Float>>, next: map<string, seq<Float>>, ghost done: seq<string>,
                            w: string, model: Coefs, validation: seq<Sample>) returns (after: map<string, seq<Float>>)
    requires next.Keys == alphasCv.Keys && w in alphasCv && w !in done
    requires forall x | x in next ::
      next[x] == if x in done then alphasCv[x] + FoldAlpha(model, validation, x) else alphasCv[x]
    ensures after.Keys == alphasCv.Keys
    ensures forall x | x in after ::
      after[x] == if x in done + [w] then alphasCv[x] + FoldAlpha(model, validation, x) else alphasCv[x]
  {
    var alpha := WeatherAlpha(model, validation, w);
    after := next;
    if alpha.Some? {
      after := next[w := next[w] + [alpha.value]];
    }
  }

  /**
   * The fold loop: each fold's coefficients are recorded, and every weather of the
   * filtered data set collects the alpha of each fold whose validation part holds it.
   */
  method CrossValidate(train: seq<Sample>, folds: seq<Fold>, weathers: seq<string>, fit: Fitter)
    returns (alphasCv: map<string, seq<Float>>, coefsCv: seq<Coefs>)
    requires forall k | 0 <= k < |folds| :: ValidFold(|train|, folds[k])
    requires NoDup(weathers)
    ensures |coefsCv| == |folds|
    ensures forall k | 0 <= k < |folds| :: coefsCv[k] == FoldModel(train, folds[k], fit)
    ensures alphasCv.Keys == set w | w in weathers
    ensures forall w | w in alphasCv :: alphasCv[w] == FoldAlphas(train, folds, fit, w)
  {
    alphasCv := map w | w in weathers :: [];
    coefsCv := [];
    var i := 0;
    while i < |folds|
      invariant 0 <= i <= |folds|
      invariant |coefsCv| == i
      invariant forall k | 0 <= k < i :: coefsCv[k] == FoldModel(train, folds[k], fit)
      invariant alphasCv.Keys == set w | w in weathers
      invariant forall w | w in alphasCv :: alphasCv[w] == FoldAlphas(train, folds[..i], fit, w)
    {
      var f := folds[i];
      var model := fit(Select(train, f.trainIdx));
      var validation := Select(train, f.valIdx);
      coefsCv := coefsCv + [model];
      FoldAlphasStep(train, folds, fit, i);
      alphasCv := AppendFoldAlphas(alphasCv, weathers, model, validation);
      i := i + 1;
    }
    assert folds[..|folds|] == folds;
  }

  /** One more fold appends, for every weather, that fold's alpha if its validation part has the weather. */
  lemma FoldAlphasStep(train: seq<Sample>, folds: seq<Fold>, fit: Fitter, i: nat)
    requires forall k | 0 <= k < |folds| :: ValidFold(|train|, folds[k])
    requires i < |folds|
    ensures forall w :: FoldAlphas(train, folds[..i + 1], fit, w)
                        == FoldAlphas(train, folds[..i], fit, w)
                           + FoldAlpha(FoldModel(train, folds[i], fit), Select(train, folds[i].valIdx), w)
  {
    PrefixStep(folds, i);
    assert folds[..i + 1][..i] == folds[..i];
  }

  /** The i-th saved coefficient, in the order height, height^2, velocity, intercept. */
  function Coef(c: Coefs, i: nat): real
    requires i < 4
  {
    match i
    case 0 => c.height
    case 1 => c.height2
    case 2 => c.velocity
    case _ => c.intercept
  }

  /** Column i of the fold coefficient array. */
  function CoefColumn(cs: seq<Coefs>, i: nat): (r: seq<real>)
    requires i < 4
    ensures |r| == |cs| && forall k | 0 <= k < |cs| :: r[k] == Coef(cs[k], i)
  {
    seq(|cs|, k requires 0 <= k < |cs| => Coef(cs[k], i))
  }

  /** Column means of the fold coefficients; None (NaN) when there are no folds. */
  function MeanCoefs(cs: seq<Coefs>): (r: Option<Coefs>)
    ensures r.Some? <==> cs != []
    ensures r.Some? ==> forall i | 0 <= i < 4 :: Coef(r.value, i) == Mean(CoefColumn(cs, i)).value
  {
    if cs == [] then None
    else
      Some(Coefs(Mean(CoefColumn(cs, 0)).value, Mean(CoefColumn(cs, 1)).value,
                 Mean(CoefColumn(cs, 2)).value, Mean(CoefColumn(cs, 3)).value))
  }

  /** Each averaged coefficient lies within the range of its fold values. */
  lemma MeanCoefsWithinFoldRange(cs: seq<Coefs>, lo: Coefs, hi: Coefs)
    requires cs != []
    requires forall k, i | 0 <= k < |cs| && 0 <= i < 4 :: Coef(lo, i) <= Coef(cs[k], i) <= Coef(hi, i)
    ensures forall i | 0 <= i < 4 :: Coef(lo, i) <= Coef(MeanCoefs(cs).value, i) <= Coef(hi, i)
  {
    forall i | 0 <= i < 4
      ensures Coef(lo, i) <= Coef(MeanCoefs(cs).value, i) <= Coef(hi, i)
    {
      MeanBounds(CoefColumn(cs, i), Coef(lo, i), Coef(hi, i));
    }
  }

  /** Folds that all fit the same coefficients average to those coefficients. */
  lemma MeanOfIdenticalFolds(cs: seq<Coefs>, c: Coefs)
    requires cs != [] && forall k | 0 <= k < |cs| :: cs[k] == c
    ensures MeanCoefs(cs) == Some(c)
  {
    MeanCoefsWithinFoldRange(cs, c, c);
    var m := MeanCoefs(cs).value;
    assert Coef(m, 0) == c.height && Coef(m, 1) == c.height2;
    assert Coef(m, 2) == c.velocity && Coef(m, 3) == c.intercept;
  }

  /** The cross-validated alpha of each weather: the mean of its fold alphas. */
  function AlphaMeans(alphasCv: map<string, seq<Float>>): (r: map<string, Float>)
    ensures r.Keys == alphasCv.Keys
    ensures forall w | w in r :: r[w] == FMean(alphasCv[w])
  {
    map w | w in alphasCv :: FMean(alphasCv[w])
  }

  /** Final alphas on the whole training part, only for weathers it contains. */
  function FinalAlphas(m: Coefs, train: seq<Sample>, weathers: seq<string>): (r: map<string, Float>)
    ensures forall w :: w in r <==> w in weathers && OfWeather(train, w) != []
    ensures forall w | w in r :: Some(r[w]) == WeatherAlpha(m, train, w)
  {
    if weathers == [] then map[]
    else
      var w := weathers[|weathers| - 1];
      var init := FinalAlphas(m, train, weathers[..|weathers| - 1]);
      assert forall x :: x in weathers <==> x in weathers[..|weathers| - 1] || x == w;
      match WeatherAlpha(m, train, w)
      case None => init - {w}
      case Some(a) => init[w := a]
  }

  /** The coefficients of every fold's model, in fold order. */
  function FoldModels(train: seq<Sample>, folds: seq<Fold>, fit: Fitter): (r: seq<Coefs>)
    requires forall k | 0 <= k < |folds| :: ValidFold(|train|, folds[k])
    ensures |r| == |folds| && forall k | 0 <= k < |folds| :: r[k] == FoldModel(train, folds[k], fit)
  {
    seq(|folds|, k requires 0 <= k < |folds| => FoldModel(train, folds[k], fit))
  }

  /** What is saved: the final refit's coefficients, its alphas, and the fold summaries. */
  datatype LearnedParams = LearnedParams(coefficients: Coefs, alphas: map<string, Float>,
                                         alphasCvMean: map<string, Float>, coefsCvMean: Option<Coefs>)

  /**
   * The calibration run on the filtered data: the weathers in order of first
   * appearance, the split's training part, the K folds over it, and the final refit.
   */
  method Calibrate(data: seq<Sample>, trainIdx: seq<nat>, folds: seq<Fold>, fit: Fitter)
    returns (p: LearnedParams)
    requires forall k | 0 <= k < |trainIdx| :: trainIdx[k] < |data|
    requires forall k | 0 <= k < |folds| :: ValidFold(|trainIdx|, folds[k])
    ensures p.coefficients == fit(Select(data, trainIdx))
    ensures forall w :: w in p.alphas <==> exists k | 0 <= k < |trainIdx| :: data[trainIdx[k]].weather == w
    ensures forall w :: w in p.alphasCvMean <==> exists k | 0 <= k < |data| :: data[k].weather == w
    ensures forall w | w in p.alphasCvMean ::
              p.alphasCvMean[w] == FMean(FoldAlphas(Select(data, trainIdx), folds, fit, w))
    ensures forall w | w in p.alphas :: Some(p.alphas[w]) == WeatherAlpha(p.coefficients, Select(data, trainIdx), w)
    ensures p.coefsCvMean == MeanCoefs(FoldModels(Select(data, trainIdx), folds, fit))
    ensures p.coefsCvMean.Some? <==> folds != []
  {
    var weathers := DataWeathers(data);
    var train := Select(data, trainIdx);
    var alphasCv, coefsCv := CrossValidate(train, folds, weathers, fit);
    var finalModel := fit(train);
    var alphas := FinalAlphas(finalModel, train, weathers);
    FinalAlphaKeys(data, trainIdx, weathers, alphas);
    assert coefsCv == FoldModels(train, folds, fit);
    var means := AlphaMeans(alphasCv);
    CvMeansOfDataWeathers(data, weathers, train, folds, fit, alphasCv);
    p := LearnedParams(finalModel, alphas, means, MeanCoefs(coefsCv));
  }

  /** The final alphas cover exactly the weathers of the lines the training indices point at. */
  lemma FinalAlphaKeys(data: seq<Sample>, trainIdx: seq<nat>, weathers: seq<string>, alphas: map<string, Float>)
    requires forall k | 0 <= k < |trainIdx| :: trainIdx[k] < |data|
    requires forall x :: x in weathers <==> exists k | 0 <= k < |data| :: data[k].weather == x
    requires forall w :: w in alphas <==> w in weathers && OfWeather(Select(data, trainIdx), w) != []
    ensures forall w :: w in alphas <==> exists k | 0 <= k < |trainIdx| :: data[trainIdx[k]].weather == w
  {
    TrainWeathersAreDataWeathers(data, trainIdx, weathers);
  }

  /** The averaged fold alphas cover exactly the data's weathers, each the mean of its fold alphas. */
  lemma CvMeansOfDataWeathers(data: seq<Sample>, weathers: seq<string>, train: seq<Sample>, folds: seq<Fold>,
                              fit: Fitter, alphasCv: map<string, seq<Float>>)
    requires forall x :: x in weathers <==> exists k | 0 <= k < |data| :: data[k].weather == x
    requires forall k | 0 <= k < |folds| :: ValidFold(|train|, folds[k])
    requires alphasCv.Keys == set w | w in weathers
    requires forall w | w in alphasCv :: alphasCv[w] == FoldAlphas(train, folds, fit, w)
    ensures forall w :: w in AlphaMeans(alphasCv) <==> exists k | 0 <= k < |data| :: data[k].weather == w
    ensures forall w | w in AlphaMeans(alphasCv) :: AlphaMeans(alphasCv)[w] == FMean(FoldAlphas(train, folds, fit, w))
  {
    var means := AlphaMeans(alphasCv);
    forall w ensures w in means <==> exists k | 0 <= k < |data| :: data[k].weather == w {
      assert w in means <==> w in weathers;
    }
  }

  lemma TrainWeathersAreDataWeathers(data: seq<Sample>, trainIdx: seq<nat>, weathers: seq<string>)
    requires forall k | 0 <= k < |trainIdx| :: trainIdx[k] < |data|
    requires forall x :: x in weathers <==> exists k | 0 <= k < |data| :: data[k].weather == x
    ensures forall w :: (w in weathers && OfWeather(Select(data, trainIdx), w) != [])
                        <==> exists k | 0 <= k < |trainIdx| :: data[trainIdx[k]].weather == w
  {
    var train := Select(data, trainIdx);
    forall w ensures (w in weathers && OfWeather(train, w) != [])
                     <==> exists k | 0 <= k < |trainIdx| :: data[trainIdx[k]].weather == w {
      OfWeatherEmpty(train, w);
      if exists k | 0 <= k < |trainIdx| :: data[trainIdx[k]].weather == w {
        var k :| 0 <= k < |trainIdx| && data[trainIdx[k]].weather == w;
        assert train[k].weather == w;
      }
    }
  }

  /** The weathers of a data set, in order of first appearance. */
  function DataWeathers(data: seq<Sample>): (r: seq<string>)
    ensures NoDup(r)
    ensures forall x :: x in r <==> exists k | 0 <= k < |data| :: data[k].weather == x
  {
    var ws := seq(|data|, k requires 0 <= k < |data| => data[k].weather);
    assert forall k | 0 <= k < |data| :: ws[k] == data[k].weather;
    Unique(ws)
  }

  /** A weather no validation part ever contained gets a NaN cross-validated alpha. */
  lemma AbsentWeatherHasNaNAlphaMean(train: seq<Sample>, folds: seq<Fold>, fit: Fitter, w: string)
    requires forall k | 0 <= k < |folds| ::
               ValidFold(|train|, folds[k]) && OfWeather(Select(train, folds[k].valIdx), w) == []
    ensures FMean(FoldAlphas(train, folds, fit, w)).NaN?
  {
    FoldAlphasCount(train, folds, fit, w);
  }
}

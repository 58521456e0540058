# Pedestrian crossing study: a verified model of its deterministic core

The repository studies when pedestrians decide to cross in front of an approaching car.
It has five parts:

- VR experiments (time-to-arrival estimation, crossing intention).
- A calibrated decision rule: a weather-scaled regression on the pedestrian's height and the car's speed.
- Validation on the BPI LiDAR dataset.
- A small weather-annotation tool.
- Streamlit dashboards over the experiment database.

This project models the sequential, deterministic logic inside that glue and proves properties of it.
Each module follows one source file, or one group of files that share logic.

- `BehaviorModel`: the decision rule of `CNRS_behavior_model.py`.
  - Unknown weathers are rejected.
  - The perceived time is computed from the coefficient tables, with the optional `-2·std + ME` shift.
  - A non-positive speed is replaced by 1e-9 m/s.
  - The rule is monotone in distance, and the adjusted threshold dominates the unadjusted one.
- `Training`: the bookkeeping of `train.py` with the regression fit left abstract.
  - The weather label comes from the file name; the derived and polynomial columns are built.
  - The outlier filter is strict.
  - Per-fold, per-weather alphas are ratios of means, and coefficients are averaged over folds.
  - Final alphas come from the train split.
- `NumText`, `Exp1Log`, `Exp2Log`: the two VR-log analyses.
  - Numbers are read out of text, and log headers are normalised.
  - Exp1Log finds the car's disappearance with a hold window and the first press, then computes the timing error, the tolerance test, error metrics and group aggregation.
  - Exp2Log binarises the crossing signal, detects the first rise and the fall after it, and computes the safety distance, the stacked samples and the EOCI measure.
- `BpiColumns`, `BpiCrossing`, `BpiAnnotate`, `PedHeight`: the BPI validation scripts.
  - BpiColumns: suffix column lookup ordered by numeric prefix, and the time-column priority.
  - BpiCrossing: the pc_lat sign-change detector and the image-name candidates.
  - BpiAnnotate: frame file patterns, session guessing, angle windows, label and keep masks, the constant height, and the annotated outputs.
  - PedHeight: the LiDAR and keypoint height estimators and the per-frame series.
  - `find_col` and `pick_time_col` appear in three scripts (`visualize_crossing.py`, `annotate_crossing_intention.py`, `annotate_crossing.py`) with the same body. They are modelled once and cited for each copy. `ped_height.py` has its own first-match `_find_col`, modelled separately.
- `WeatherGui`: the `Annotator` of `annotate_weather_gui.py` as a class.
  - Its cursor is clamped; a label is written and then the cursor advances, with periodic autosave.
  - Keys are dispatched to actions.
  - Also modelled: the image index (last digit run of the name, shortest name wins) and the output path rule.
- `VelocityGroups`, `CrossingAvgDashboard`, `ParticipantVariables`, `CrossingSeries`, `PerceptionDashboards`: the dashboard pages.
  - Speed categories come in two variants: one falls back to "unknown", the other to "high".
  - The step threshold curve and its offsets.
  - Participant-variable encoding, the correlation table and its highlighting.
  - Crossing-series loading and the 3 x 3 grid.
  - The perception loaders, their sort, means and error-bar offsets.
- `TrialCommands`, `PlanExp1`, `PlanExp2`: the two trial-plan generators.
  - The weather flag table, and the command lines, which split back into their parameters.
  - `random.shuffle` as an in-place Fisher-Yates loop over explicit draws.
  - The 27 trials per participant.
  - The balanced allocation of experiment 1, and the group counter of experiment 2 as a class.
- `Common`, `Paths`: Python built-in behaviour the scripts rely on.
  - `round` half to even, `int()` truncation, `str(n)` and zero padding.
  - Extended float quotients (infinity and NaN).
  - Windows `os.path` and `pathlib` name handling.

Floats are `real`. A missing value or NaN is `None` (or `Float.NaN` where a division by zero matters). Every operation that may raise returns a `Result`.

Randomness is passed in explicitly as parameters:
- the indices `random.sample` picks;
- the Fisher-Yates draws of `random.shuffle` and `df.sample(frac=1)`;
- the value `random.randint` returns;
- the group `random.choice` picks.

Library numerics are function parameters of the operations that use them:
- the regression fit and the fold split;
- `float()` on text, percentiles and `hypot`;
- the Pearson and Spearman p-values.

File-system queries (`glob`, `os.path.isdir`, file listings, point-cloud loading) are also parameters.

Where the repository's prose and the code disagree, the model follows the code:
- The default threshold of `pedestrian_behavior_model` is the unadjusted perceived time.
- A speed of 0 is replaced by 1e-9 m/s, not treated as an infinite time to contact. So at a zero gap to a stationary car the rule does not cross (`BehaviorModel.StationaryVehicleAtZeroGapRefuses`).

## Model

| member | source | states |
|---|---|---|
| Common.FDiv | model/model_training/train.py:113 | an IEEE quotient: finite exactly when the divisor is non-zero, and then times the divisor it gives the dividend; NaN exactly for 0/0; an infinity has the dividend's sign |
| Common.FMean | model/model_training/train.py:218 | the mean of an empty list is NaN; otherwise a finite sum gives a finite mean that times the count is the sum, and an infinite or NaN sum is the mean itself |
| Common.FSumFinite | model/model_training/train.py:218 | a sum of finite values is finite |
| Common.FMeanNaNAbsorbs | model/model_training/train.py:218 | a NaN anywhere in the list makes the mean NaN |
| Common.Mean | model/model_training/train.py:215 | numpy's mean over reals exists exactly for a non-empty list, and times the count it is the sum |
| Common.SumBounds | model/model_training/train.py:215 | a sum of values in [lo, hi] lies between n·lo and n·hi |
| Common.MeanBounds | model/model_training/train.py:215 | the mean of values in [lo, hi] lies in [lo, hi] |
| Common.PandasVariance | model/data_visualization/features/bar_perception_delta.py:148 | pandas' std before its square root: defined exactly for two values or more (NaN below), and then the sum of squared deviations from the mean divided by n - 1 |
| Common.PandasVarianceNonNegative | model/data_visualization/features/bar_perception_delta.py:148 | the ddof=1 variance is never negative, so the std the bars draw exists |
| Common.PandasVarianceOfConstant | model/data_visualization/features/bar_perception_delta.py:148 | equal values have variance 0 |
| Common.Abs | vr-experiment/analysis/analyze_exp1_log.py:91 | the absolute value is non-negative and is the value or its negation |
| Common.AbsSumLeSumAbs | vr-experiment/analysis/analyze_exp1_log.py:181-182 | the absolute value of a sum is at most the sum of the absolute values |
| Common.Trunc | validation/datasets/BPI/annotate_crossing_intention.py:199 | int() truncates toward zero: below the value in absolute terms by less than one, with the value's sign unless 0 |
| Common.Lower | validation/datasets/BPI/annotate_crossing_intention.py:246 | lower() maps each character, keeping the length |
| Common.LowerIdempotent | validation/datasets/BPI/annotate_crossing_intention.py:246 | lowering twice is lowering once |
| Common.LowerKeepsLowerPrefix | validation/datasets/BPI/annotate_crossing_intention.py:246 | a prefix without capitals stays a prefix after lowering |
| Common.Capitalize | model/data_visualization/features/participant_crossing_vs_distance_vwp.py:215 | capitalize() keeps the length, upper-cases the first character and lower-cases every other one |
| Common.StripLeft | vr-experiment/analysis/analyze_exp1_log.py:52 | the stripped text is a suffix that starts with no space, and every character removed before it is whitespace: exactly the leading whitespace goes |
| Common.StripRight | vr-experiment/analysis/analyze_exp1_log.py:52 | the stripped text is a prefix that ends with no space, and every character removed after it is whitespace: exactly the trailing whitespace goes |
| Common.NatToString | validation/datasets/BPI/annotate_crossing_intention.py:168 | str(n) of a natural number is a non-empty string of digits with no leading zero; it is "0" exactly for 0 |
| Common.PadZeros | validation/datasets/BPI/annotate_crossing_intention.py:168 | the padded text ends with the digits, is the width long unless they are longer, and every character before them is '0' |
| Common.Unique | model/data_visualization/features/bar_perception_delta.py:142 | unique() has no repeats, holds every input value and nothing else, and lists the values in the order of their first appearance |
| Common.PyIndex | vr-experiment/analysis/analyze_exp2_log.py:243 | Python indexing succeeds exactly for -len ≤ i < len, counting a negative index from the end |
| Common.FilterMap | validation/datasets/BPI/visualize_crossing.py:91 | a list comprehension with a condition gives no more values than elements |
| Common.FilterMapMembers | validation/datasets/BPI/visualize_crossing.py:91 | every kept value is in the comprehension, and each of its values comes from some element |
| Common.FilterMapConcat | validation/datasets/BPI/visualize_crossing.py:91 | a comprehension over two stretches is the comprehension over the first followed by that over the second |
| Common.FilterMapPosition | validation/datasets/BPI/visualize_crossing.py:91 | the j-th kept value comes from an element whose predecessors contribute exactly the first j values |
| Common.FlatMapConcat | vr-experiment/analysis/analyze_exp2_log.py:405 | concatenating the lists of two stretches is concatenating each stretch's lists |
| Common.RoundHalfEven | vr-experiment/analysis/analyze_exp2_log.py:210 | round() lands within 0.5 of its argument, and a tie goes to the even neighbour |
| Common.RoundStaysBetweenIntegers | vr-experiment/analysis/analyze_exp2_log.py:207-212 | rounding a value between two whole numbers stays between them |
| Common.NatToStringRoundTrip | vr-experiment/scripts/generate_participant_plan_exp1.py:74 | reading back the digits of str(n) gives n |
| Common.NatToStringInjective | vr-experiment/scripts/generate_participant_plan_exp1.py:74 | distinct numbers are written differently in a command line |
| Common.ZeroPad | validation/datasets/BPI/annotate_crossing_intention.py:168 | a non-negative number is written as its digits preceded by '0' up to the width; a negative one as '-' then its digits, with '0' between them up to the width; either way the result is the width long unless the sign and digits are longer |
| Paths.Basename | validation/datasets/BPI/ped_height.py:119 | the base name ends the path, holds no separator, and follows a separator when it is not the whole path |
| Paths.Join | validation/datasets/BPI/ped_height.py:127 | the joined path starts with the first part and ends with the second; the Windows separator is inserted between them exactly when the first part is non-empty and does not already end with a separator |
| Paths.PathSuffix | model/model_training/train.py:89 | stem plus suffix is the name, and the suffix is empty or one dot followed by no other dot |
| Paths.SplitExtRoot | validation/datasets/BPI/annotate_crossing_intention.py:349 | splitext's root is a prefix of the path; it stops at the last dot of the base name when something other than a dot comes before that dot in the base name, and is the whole path otherwise |
| Paths.SplitExtDropsSingleExtension | validation/datasets/BPI/annotate_crossing_intention.py:349 | a separator-free name made of a non-empty stem without dots and an extension that is one dot followed by no other dot loses exactly that extension |
| BehaviorModel.ParseWeather | model/saved_models/CNRS_behavior_model.py:81-108 | a weather string is accepted exactly when it is one of the three keys of the alpha table, and the accepted value names that string |
| BehaviorModel.Alpha | model/saved_models/CNRS_behavior_model.py:81-85 | every weather's perceptual scaling lies strictly between 0.96 and 1.04 |
| BehaviorModel.Std | model/saved_models/CNRS_behavior_model.py:88-92 | every weather's standard deviation lies in [0.72, 1.0] |
| BehaviorModel.MeanError | model/saved_models/CNRS_behavior_model.py:95-99 | every weather's mean error lies in [0, 0.04] and stays below twice its standard deviation, so the adjustment always lowers the threshold |
| BehaviorModel.WeatherOnlyScalesPredictedTime | model/saved_models/CNRS_behavior_model.py:114-122 | two weathers give perceived times in the ratio of their alphas: the weather only rescales the regression |
| BehaviorModel.AdjustedTime | model/saved_models/CNRS_behavior_model.py:125 | the adjusted threshold lies strictly below the predicted time, by exactly 2·std − ME of the weather |
| BehaviorModel.SpeedMs | model/saved_models/CNRS_behavior_model.py:131-135 | the speed in m/s is always positive; a positive km/h speed is converted exactly (r·3.6 = v), a non-positive one becomes 1e-9 |
| BehaviorModel.RealTime | model/saved_models/CNRS_behavior_model.py:137 | the kinematic time multiplied by the guarded speed gives back the distance |
| BehaviorModel.Threshold | model/saved_models/CNRS_behavior_model.py:125-142 | the threshold never exceeds the perceived time, and equals it exactly when the adjusted threshold is not asked for |
| BehaviorModel.Decide | model/saved_models/CNRS_behavior_model.py:37-148 | an unknown weather is the ValueError; otherwise the pedestrian crosses exactly when real_time is not below the chosen threshold (adjusted or predicted) |
| BehaviorModel.DecideAcceptsExactlyKnownWeathers | model/saved_models/CNRS_behavior_model.py:104-108 | the decision is defined exactly for "clear", "night" and "rain" |
| BehaviorModel.DecideIsDistanceBound | model/saved_models/CNRS_behavior_model.py:137-148 | crossing is equivalent to the distance being at least threshold × speed: the rule is a distance bound |
| BehaviorModel.CrossingMonotoneInDistance | model/saved_models/CNRS_behavior_model.py:137-148 | a pedestrian who crosses at some gap also crosses at every larger gap |
| BehaviorModel.AdjustedThresholdIsMorePermissive | model/saved_models/CNRS_behavior_model.py:125-142 | wherever the default threshold allows crossing, the adjusted one does too |
| BehaviorModel.ThresholdsDisagreeInBand | model/saved_models/CNRS_behavior_model.py:125-148 | for gaps between the two thresholds the default rule refuses while the adjusted rule crosses |
| BehaviorModel.PredictedTimeDecreasesWithSpeed | model/saved_models/CNRS_behavior_model.py:114-122 | a faster vehicle never raises the perceived time to collision |
| BehaviorModel.StationaryVehicleAtZeroGapRefuses | model/saved_models/CNRS_behavior_model.py:134-148 | with speed 0 the 1e-9 guard applies and at a zero gap the pedestrian does not cross |
| BehaviorModel.WorkedExampleNoCrossing | model/saved_models/CNRS_behavior_model.py:37-148 | 175 cm, 50 km/h, 40 m, clear weather: the rule refuses to cross |
| NumText.RunEnd | vr-experiment/analysis/analyze_exp2_log.py:62 | the `\d+` / `\d*` run from i ends at the first non-digit, and every character before it is a digit |
| NumText.FirstMatch | vr-experiment/analysis/analyze_exp2_log.py:62 | str.extract finds the leftmost position where `[-+]?\d` can begin, and none exists before it; None means no position matches |
| NumText.NumFromAny | vr-experiment/analysis/analyze_exp2_log.py:54-64 | a cell gives NaN exactly when its text holds no digit |
| NumText.NumFromAnyReadsLeadingNumber | vr-experiment/analysis/analyze_exp2_log.py:57-59 | a whole number at the start of the text, followed by a unit such as " km/h" or by nothing, is read back exactly |
| NumText.NumFromAnyReadsNegative | vr-experiment/analysis/analyze_exp2_log.py:62 | a leading minus sign is part of the match, so "-n" reads as −n |
| NumText.NumFromAnyDecimalComma | vr-experiment/analysis/analyze_exp2_log.py:62-63 | the comma is read as a decimal point: "60,5" gives 60.5 |
| VelocityGroups.CategoryOrUnknown | model/data_visualization/features/participant_avg_crossing_vs_distance.py:39-63 | each group name is returned exactly for the two speeds of that group, and "unknown" exactly for every speed outside the six experiment speeds |
| VelocityGroups.CategoryOrHigh | model/data_visualization/features/safety_distance_participant_variables.py:50-58 | "low" and "medium" exactly for their two speeds; "high" for every other speed, including ones outside the experiment |
| VelocityGroups.LookupsAgreeExactlyOnExperimentSpeeds | model/data_visualization/features/participant_crossing_vs_distance_vwp.py:53-62 | the two lookups give the same group on the six experiment speeds; on every other speed one says "high" and the other "unknown" |
| VelocityGroups.KmhToMs | model/data_visualization/features/avg_perc_dist_by_velocity_err_weather.py:104 | v·(5/18) is v/3.6; it is zero exactly for a zero speed and positive for a positive one |
| VelocityGroups.GroupColor | model/data_visualization/features/participant_avg_crossing_vs_distance.py:46 | low, medium and high get #1f77b4, #2ca02c and #d62728, and every other category gets the caller's fallback: black on the crossing pages (line 168 here, line 199 of participant_crossing_vs_distance_vwp.py), grey on the delta bars (line 193 of bar_perception_delta.py) |
| VelocityGroups.GroupColorsAreDistinct | model/data_visualization/features/participant_crossing_vs_distance_vwp.py:43-47 | the three speed groups get three different colours, and a fallback outside the palette is returned exactly for the other categories |
| CrossingAvgDashboard.CrossingValue | model/data_visualization/features/participant_avg_crossing_vs_distance.py:66-76 | the value is 0 or 1, and 0 exactly when the distance is at least −safety_distance |
| CrossingAvgDashboard.CrossingValueIsMonotone | model/data_visualization/features/participant_avg_crossing_vs_distance.py:76 | the value never rises with the distance: the threshold curve is one downward step |
| CrossingAvgDashboard.StepMovesWithSafety | model/data_visualization/features/participant_avg_crossing_vs_distance.py:76 | a larger safety distance never raises the value at a given distance |
| CrossingAvgDashboard.CurveXs | model/data_visualization/features/participant_avg_crossing_vs_distance.py:160 | range(-150, 6): 156 distances, entry k is k − 150 |
| CrossingAvgDashboard.YOffset | model/data_visualization/features/participant_avg_crossing_vs_distance.py:164 | low 0.0, medium 0.01, high 0.02, and the `.get` default 0.0 for any other name (with line 49 of the same file) |
| CrossingAvgDashboard.Curve | model/data_visualization/features/participant_avg_crossing_vs_distance.py:160-165 | one y value for each simulated distance |
| CrossingAvgDashboard.CurveIsAShiftedStep | model/data_visualization/features/participant_avg_crossing_vs_distance.py:160-165 | the curve equals the speed group's offset exactly where the distance is at least −m, equals offset + 1 elsewhere, and never rises |
| CrossingAvgDashboard.UnknownSpeedHasNoOffset | model/data_visualization/features/participant_avg_crossing_vs_distance.py:164-168 | a speed outside the groups is drawn as the bare step, in the default colour #000000 |
| CrossingAvgDashboard.Marker | model/data_visualization/features/participant_avg_crossing_vs_distance.py:155-194 | the marker is at x = −m, half way up the step plus the offset, and a NaN std becomes an error bar of 0 |
| CrossingAvgDashboard.WeatherColumn | model/data_visualization/features/participant_avg_crossing_vs_distance.py:140-146 | clear goes to column 1, rain to column 2 and night to column 3, each exactly; any other weather is skipped |
| CrossingAvgDashboard.ColumnsAreDistinct | model/data_visualization/features/participant_avg_crossing_vs_distance.py:146 | two different weathers never share a subplot column |
| CrossingAvgDashboard.ShowLegend | model/data_visualization/features/participant_avg_crossing_vs_distance.py:179 | the crossing curve shows its legend exactly in the first subplot column, the clear weather's |
| Training.WeatherLabel | model/model_training/train.py:97-101 | a file name yields a weather exactly when it holds an underscore; the weather is the part before the first underscore, holds none, and the name starts with it followed by "_" |
| Training.FirstUnderscore | model/model_training/train.py:97-98 | the position found holds the first underscore of the name; none exactly when the name has no underscore |
| Training.ConcatenateFiles | model/model_training/train.py:89-106 | the directory loop appends, in order, the lines of every ".csv" entry whose name holds an underscore, each tagged with that weather, and collects their columns |
| Training.TagRows | model/model_training/train.py:103-106 | one tagged line per file line, carrying the file's weather; a column the file has keeps its cells and a column it lacks is NaN in every line (the NaN-fill of pd.concat) |
| Training.DropIncomplete | model/model_training/train.py:110-116 | the dropna loop returns DropNa: the lines whose derivation is defined, each once and in the order of the concatenation |
| Training.DropNa | model/model_training/train.py:110-116 | dropna is the order-keeping filter of the concatenated lines by their derivation, so each derivable line appears once, in place |
| Training.DropNaKeepsOrder | model/model_training/train.py:116 | dropna of two stretches is dropna of the first followed by dropna of the second, and one line survives exactly when its derivation exists |
| Training.LoadCsvFiles | model/model_training/train.py:79-130 | loading fails with the KeyError of the first of velocity_exp2, avg_safety_distance and height that no file supplies (height at its first use in prepare_data), and otherwise returns the derived complete lines of the concatenation |
| Training.LoadSpec | model/model_training/train.py:79-130 | an error exactly when one of the three read columns appears in no file; otherwise the derived complete lines of the concatenation |
| Training.Derive | model/model_training/train.py:110-116 | a kept line keeps the weather of its file and never has a NaN safety time |
| Training.ConcatenatedFromNamedFiles | model/model_training/train.py:89-104 | every concatenated line comes from a CSV file whose name's weather label is the line's weather |
| Training.DropNaKeepsCompleteLines | model/model_training/train.py:116 | a row is kept if and only if it is the derivation of some concatenated line |
| Training.LoadedRowsAreDerived | model/model_training/train.py:110-113 | every kept row's velocity_ms is velocity_exp2·5/18 and its avg_safety_time is avg_safety_distance divided by velocity_ms under IEEE division, never NaN |
| Training.WithPowers | model/model_training/train.py:130-137 | the added columns are the second, third and fourth powers of height and of velocity_exp2, and the line itself is unchanged |
| Training.UnderLimit | model/model_training/train.py:126-127 | a line passes the limit under IEEE comparison: +inf never, -inf always, a finite time exactly when below the limit |
| Training.PrepareData | model/model_training/train.py:121-139 | the order-keeping filter of the lines by the limit (every line without one), each kept line once and with its power columns; no line is invented |
| Training.PrepareDataKeepsRowsUnderLimit | model/model_training/train.py:126-127 | no line under the limit is lost |
| Training.PrepareDataKeepsOrder | model/model_training/train.py:126-127 | the boolean indexing keeps the table order: two stretches give their kept lines one after the other, and one line is kept exactly when under the limit |
| Training.ToSamples | model/model_training/train.py:158-186 | the training frame exists exactly when every safety time is finite, and then carries each line's weather and target in order |
| Training.OfWeatherEmpty | model/model_training/train.py:203-205 | a weather's subset is empty exactly when no line has that weather |
| Training.OfWeatherIsFiltered | model/model_training/train.py:203-205 | the subset of one weather is the order-keeping filter of the lines by weather, so each of its lines appears once, as in the frame |
| Training.OfWeatherKeepsOrder | model/model_training/train.py:203-205 | the subset of two stretches is the subset of the first followed by that of the second; one line is in it exactly when it has the weather |
| Training.WeatherAlpha | model/model_training/train.py:203-206 | a weather has an alpha exactly when its subset is non-empty |
| Training.FoldAlpha | model/model_training/train.py:202-207 | a fold gives a weather at most one alpha, none exactly when its validation part lacks the weather, otherwise the weather's mean-ratio alpha |
| Training.FoldAlphasCount | model/model_training/train.py:178-207 | a weather collects at most one alpha per fold, one per fold when every validation part holds it, and none when none does |
| Training.AppendFoldAlphas | model/model_training/train.py:202-207 | the per-weather loop keeps the keys and appends to each weather's list its alpha exactly when the validation part holds that weather |
| Training.CrossValidate | model/model_training/train.py:175-209 | one coefficient vector per fold, fitted on that fold's training part, and for each weather of the data the list of its fold alphas in fold order |
| Training.MeanCoefs | model/model_training/train.py:212-215 | the fold means exist exactly when there is at least one fold; then each of the four saved coefficients is the mean of its column over the folds |
| Training.MeanCoefsWithinFoldRange | model/model_training/train.py:212-215 | each of the four mean coefficients lies between bounds that hold for every fold's value |
| Training.MeanOfIdenticalFolds | model/model_training/train.py:212-215 | folds that all fit the same coefficients average to exactly those coefficients |
| Training.AlphaMeans | model/model_training/train.py:218 | each weather's cross-validated alpha is the NaN-aware mean of its fold alphas, over the same keys |
| Training.AbsentWeatherHasNaNAlphaMean | model/model_training/train.py:204-218 | a weather no validation part holds ends with a NaN cross-validated alpha |
| Training.FinalAlphas | model/model_training/train.py:244-249 | a final alpha exists exactly for the weathers present in the training part, and equals that weather's mean-ratio alpha |
| Training.DataWeathers | model/model_training/train.py:175 | the weathers of the data without repetition, exactly those some line carries |
| Training.TrainWeathersAreDataWeathers | model/model_training/train.py:244-248 | a data weather has lines in the training part exactly when some training index points at a line of that weather (with line 175 of the same file) |
| Training.Calibrate | model/model_training/train.py:145-302 | the saved coefficients are the refit on the training part; final alphas exist exactly for the training part's weathers and each is that weather's mean-ratio alpha under the refit; cross-validated alphas exist for every data weather and are the mean of its fold alphas; the fold means are the column means of the fold models, present exactly when there are folds |
| Training.CvMeansOfDataWeathers | model/model_training/train.py:175-218 | the cross-validated alpha table has exactly the data weathers, each mapped to the mean of its fold alphas |
| Exp1Log.CarsTarget | vr-experiment/analysis/analyze_exp1_log.py:51-56 | a renamed column takes one of the four canonical names Time, Time_estimated, X_pos, X_est |
| Exp1Log.Rename | vr-experiment/analysis/analyze_exp1_log.py:50-58 | one name per column; each column keeps its name or takes a canonical name, the one its stripped lower-case name selects |
| Exp1Log.ReadCarsHeader | vr-experiment/analysis/analyze_exp1_log.py:37-69 | the header loads exactly when the renamed columns hold Time, Time_estimated and X_pos; the first missing column of Time, Time_estimated and X_pos is reported with the file name; a loaded header keeps every renamed column and holds X_est, added as zeros exactly when it was absent |
| Exp1Log.MinOf | vr-experiment/analysis/analyze_exp1_log.py:83 | the minimum is one of the times and no time is below it |
| Exp1Log.MinTime | vr-experiment/analysis/analyze_exp1_log.py:83 | the minimum loop returns the minimum of the times |
| Exp1Log.StartMask | vr-experiment/analysis/analyze_exp1_log.py:84-86 | one entry per sample; with at least two samples at or after the earliest time plus the ignored head (less 1e-6), exactly those; otherwise every sample |
| Exp1Log.StartMaskKeepsLaterSamples | vr-experiment/analysis/analyze_exp1_log.py:84-86 | a sample the mask keeps is never followed in time by one it drops: the mask cuts off a head |
| Exp1Log.StartMaskKeepsSamples | vr-experiment/analysis/analyze_exp1_log.py:84-86 | a non-empty trace keeps at least one sample after the start mask |
| Exp1Log.Masked | vr-experiment/analysis/analyze_exp1_log.py:88 | boolean indexing keeps as many entries as the mask has true entries |
| Exp1Log.MaskedFromInput | vr-experiment/analysis/analyze_exp1_log.py:88 | every kept entry is an input entry at a position the mask selects |
| Exp1Log.ApplyMask | vr-experiment/analysis/analyze_exp1_log.py:88 | the masking loop returns the boolean-indexed sequence |
| Exp1Log.NonZero | vr-experiment/analysis/analyze_exp1_log.py:91-92 | a NaN sample counts as zero, and with a non-negative threshold a non-zero sample is not 0 |
| Exp1Log.LongerHoldIsStricter | vr-experiment/analysis/analyze_exp1_log.py:98-101 | a drop that stays zero for a longer hold also stays zero for any shorter one |
| Exp1Log.FirstHeldDrop | vr-experiment/analysis/analyze_exp1_log.py:91-102 | the first drop to zero, at or after the start index, that stays zero for hold samples (clipped at the end); None exactly when there is no such drop |
| Exp1Log.FindHeldDrop | vr-experiment/analysis/analyze_exp1_log.py:95-102 | the loop over the transitions returns at the first held drop |
| Exp1Log.ArgMinAbs | vr-experiment/analysis/analyze_exp1_log.py:105 | argmin of the absolute values: no sample comes strictly before the chosen one, and every earlier sample comes strictly after it, so it is the first minimum (NaN counts as the smallest) |
| Exp1Log.ArgMinAbsIndex | vr-experiment/analysis/analyze_exp1_log.py:105 | the scan returns numpy's argmin of the absolute values |
| Exp1Log.DisappearanceTime | vr-experiment/analysis/analyze_exp1_log.py:72-106 | the detection method returns the disappearance time: the held drop's time, else the time of the smallest absolute position |
| Exp1Log.DisappearanceIsAMaskedTime | vr-experiment/analysis/analyze_exp1_log.py:72-106 | a non-empty trace always yields a disappearance time, and it is the time of a sample the start mask kept |
| Exp1Log.DropToZeroExample | vr-experiment/analysis/analyze_exp1_log.py:95-102 | a trace 5, 3, 0, 0 at times 0..3 with hold 2 disappears at time 2, the first zero sample |
| Exp1Log.FirstPressIndex | vr-experiment/analysis/analyze_exp1_log.py:116-121 | the first row whose chosen press column is not zero (NaN counts as pressed); None exactly when no row is |
| Exp1Log.FirstPressTime | vr-experiment/analysis/analyze_exp1_log.py:109-121 | there is no press time exactly when no row is pressed; otherwise it is the time of the first pressed row |
| Exp1Log.FilledPressColumnNeverPresses | vr-experiment/analysis/analyze_exp1_log.py:65-121 | with X_est filled with zeros, the X_est source never reports a press |
| Exp1Log.DisappearDistance | vr-experiment/analysis/analyze_exp1_log.py:159 | the distance exists exactly when the cell holds a number, and is its absolute value |
| Exp1Log.TrueTime | vr-experiment/analysis/analyze_exp1_log.py:273-274 | the theoretical time exists exactly when distance and speed are known and the speed is positive, and then the time times the speed in m/s is the distance |
| Exp1Log.PerceivedTime | vr-experiment/analysis/analyze_exp1_log.py:277-282 | the perceived time exists exactly when both the press and the disappearance exist, and the disappearance plus it is the press time |
| Exp1Log.TrialError | vr-experiment/analysis/analyze_exp1_log.py:277-283 | the error exists exactly when press, disappearance and theoretical time all exist, and the error plus the theoretical time is the perceived time |
| Exp1Log.Correct | vr-experiment/analysis/analyze_exp1_log.py:286 | a trial is correct exactly when its error exists and lies within the tolerance on either side |
| Exp1Log.CorrectTrialPressedNearArrival | vr-experiment/analysis/analyze_exp1_log.py:273-286 | a correct trial had every input present with a positive speed, and its press lies within the tolerance of the disappearance time plus the theoretical travel time |
| Exp1Log.Errors | vr-experiment/analysis/analyze_exp1_log.py:174 | the present errors: no more than the rows, each the error of some row, and every row's error among them |
| Exp1Log.ErrorsAreFiltered | vr-experiment/analysis/analyze_exp1_log.py:174 | dropna is a filter over the error column |
| Exp1Log.ErrorsKeepOrder | vr-experiment/analysis/analyze_exp1_log.py:174 | the errors of two stretches are those of the first followed by those of the second, and a row gives its error or nothing |
| Exp1Log.SampleVariance | vr-experiment/analysis/analyze_exp1_log.py:184 | 0 for a single error; otherwise the sum of squared deviations from the mean divided by n - 1 (ddof=1) |
| Exp1Log.SampleVarianceNonNegative | vr-experiment/analysis/analyze_exp1_log.py:184 | the sample variance is never negative |
| Exp1Log.CorrectShare | vr-experiment/analysis/analyze_exp1_log.py:185 | the share of correct rows lies in [0, 1] and times the row count is the count of correct rows |
| Exp1Log.MetricsTable | vr-experiment/analysis/analyze_exp1_log.py:165-188 | n counts the non-missing errors; without errors every metric is missing; otherwise bias, MAE and mean square are the means of the errors, their absolute values and their squares, the share correct lies in [0, 1], and a single error has variance 0 |
| Exp1Log.MaeAtLeastAbsBias | vr-experiment/analysis/analyze_exp1_log.py:181-182 | the mean absolute error is never below the absolute bias |
| Exp1Log.MeanAbsAtLeastAbsMean | vr-experiment/analysis/analyze_exp1_log.py:181-182 | the mean of absolute values is at least the absolute value of the mean |
| Exp1Log.VarianceNonNegative | vr-experiment/analysis/analyze_exp1_log.py:184 | the variance behind the standard deviation is never negative |
| Exp1Log.Aggregate | vr-experiment/analysis/analyze_exp1_log.py:191-205 | one metrics row per key of the given order, each the metrics of that key's group; every key present has a row and every row's group is non-empty |
| Exp1Log.GroupRowFromInput | vr-experiment/analysis/analyze_exp1_log.py:199 | every row of a group is an input row carrying its key |
| Exp1Log.GroupHasKeyedRows | vr-experiment/analysis/analyze_exp1_log.py:199 | every input row carrying the key is in its group |
| Exp1Log.AggregateCoversKeys | vr-experiment/analysis/analyze_exp1_log.py:199-205 | every key present has a row in the table, and every row of the table has a non-empty group |
| Exp1Log.GroupMembers | vr-experiment/analysis/analyze_exp1_log.py:199 | a group has exactly as many rows as carry its key |
| Exp2Log.Rename | vr-experiment/analysis/analyze_exp2_log.py:94-134 | the renamed header has one name per column: the new name of a recognised column, the old name otherwise |
| Exp2Log.ReadCarsHeader | vr-experiment/analysis/analyze_exp2_log.py:79-115 | a cars header loads exactly when the renamed columns hold Time and X_cars; otherwise the error is "<file>: colonne manquante 'Time'", or 'X_cars' when Time is present; a loaded table keeps exactly Time, X_cars and X_vel, and X_vel is filled with NaN exactly when the renamed columns lack it |
| Exp2Log.ReadPedsHeader | vr-experiment/analysis/analyze_exp2_log.py:118-139 | a peds header loads exactly when the renamed columns hold Time and Crossing, keeping exactly those two columns; otherwise the error is "<file>: colonnes attendues 'Time' et 'Crossing'" |
| Exp2Log.MergedRowsPairEqualTimes | vr-experiment/analysis/analyze_exp2_log.py:232 | every joined row is the pair of a peds line and a cars line with that same time, so only times present in both logs survive |
| Exp2Log.MergeHasEveryMatch | vr-experiment/analysis/analyze_exp2_log.py:232 | every peds line and cars line that share a time give a joined row |
| Exp2Log.MergeKeepsPedsOrder | vr-experiment/analysis/analyze_exp2_log.py:232 | the join follows the peds log: two stretches of it give their rows one after the other, and one peds line gives its matches in the cars log's order |
| Exp2Log.MergeOne | vr-experiment/analysis/analyze_exp2_log.py:232 | the rows of a single peds line are its matching cars lines, in order |
| Exp2Log.RepeatedTimeGivesEveryPair | vr-experiment/analysis/analyze_exp2_log.py:232 | a time repeated twice in each log gives all four combinations, grouped by peds line |
| Exp2Log.PaddedTimeIsRenamed | vr-experiment/analysis/analyze_exp2_log.py:96-98 | a padded upper-case " TIME " is recognised as Time |
| Exp2Log.BareXIsThePosition | vr-experiment/analysis/analyze_exp2_log.py:99-100 | a bare "X" names the car position X_cars |
| Exp2Log.CarsHeaderRecognisesVariants | vr-experiment/analysis/analyze_exp2_log.py:94-104 | the header [" TIME ", "X"] is renamed to [Time, X_cars] |
| Exp2Log.RenamePair | vr-experiment/analysis/analyze_exp2_log.py:94-104 | a two-column header whose columns both have new names is renamed to those two names, in order |
| Exp2Log.ReadRenamedTimeAndPosition | vr-experiment/analysis/analyze_exp2_log.py:107-115 | a header renamed to exactly Time and X_cars loads, with X_vel added as the filled speed column |
| Exp2Log.CarsHeaderFillsMissingSpeed | vr-experiment/analysis/analyze_exp2_log.py:94-115 | a header of a time column (any padding or case) and a bare x column, without speed, loads as exactly Time, X_cars and X_vel, with X_vel marked as filled |
| Exp2Log.CarsHeaderNeedsTime | vr-experiment/analysis/analyze_exp2_log.py:107-109 | a cars header holding only a position column is refused for lacking a time column |
| Exp2Log.Clip01 | vr-experiment/analysis/analyze_exp2_log.py:212 | the clipped value lies in [0, 1] |
| Exp2Log.Binarize | vr-experiment/analysis/analyze_exp2_log.py:207-212 | the cleaned value is 0 or 1; an exact 0 or 1 is kept; below one half it is 0 and above one half it is 1 |
| Exp2Log.FirstOne | vr-experiment/analysis/analyze_exp2_log.py:201-203 | the first sample equal to 1, with every earlier sample different; None exactly when no sample is 1 |
| Exp2Log.Binarized | vr-experiment/analysis/analyze_exp2_log.py:198-213 | the cleaned signal has one value per sample, each the cleaned value of that sample |
| Exp2Log.Filled | vr-experiment/analysis/analyze_exp2_log.py:201-204 | filling before the first exact 1 keeps the signal's length |
| Exp2Log.MakeCrossingBinary | vr-experiment/analysis/analyze_exp2_log.py:190-213 | working on a copy, the cleaned sample k is the rounded and clipped value of 1 when k lies before the first exact 1, and of the raw sample otherwise |
| Exp2Log.FillBeforeFirstOne | vr-experiment/analysis/analyze_exp2_log.py:201-204 | in place, every sample before the first exact 1 becomes 1 and the rest, the 1 included, are unchanged; with no 1 nothing changes |
| Exp2Log.BinarizeAll | vr-experiment/analysis/analyze_exp2_log.py:207-212 | in place, each sample becomes its rounded value clipped to [0, 1], with exact 0 and 1 kept |
| Exp2Log.BinarizedShape | vr-experiment/analysis/analyze_exp2_log.py:190-213 | the cleaned signal keeps its length, is binary, and is 1 up to and including the first exact 1 |
| Exp2Log.FirstRise | vr-experiment/analysis/analyze_exp2_log.py:254-256 | the first 0 to 1 step at or after the start; None exactly when there is none |
| Exp2Log.FirstFall | vr-experiment/analysis/analyze_exp2_log.py:259-261 | the first 1 to 0 step at or after the start; None exactly when there is none |
| Exp2Log.DetectTransitions | vr-experiment/analysis/analyze_exp2_log.py:249-261 | the scan records the first rise and stops at the first fall strictly after it |
| Exp2Log.HeldBetweenRiseAndFall | vr-experiment/analysis/analyze_exp2_log.py:249-261 | on a binary signal every sample after the rise up to the measured fall is 1 |
| Exp2Log.SomeFallBetween | vr-experiment/analysis/analyze_exp2_log.py:259 | a binary signal that is 1 at one sample and 0 at a later one falls before that later sample |
| Exp2Log.FilledSignalFallsBeforeItRises | vr-experiment/analysis/analyze_exp2_log.py:201-261 | when the raw signal holds an exact 1 and the cleaned one rises, the cleaned signal falls before it first rises |
| Exp2Log.Visible | vr-experiment/analysis/analyze_exp2_log.py:232-235 | the kept rows are no more than the merged rows, and the car position of each is non-zero |
| Exp2Log.VisibleAreFiltered | vr-experiment/analysis/analyze_exp2_log.py:232-235 | the kept rows are a filter over the merged rows |
| Exp2Log.VisibleKeepsOrder | vr-experiment/analysis/analyze_exp2_log.py:232-235 | the kept rows of two stretches are those of the first followed by those of the second, and one row is kept exactly when it survives both tests: the filter keeps the time order |
| Exp2Log.Times | vr-experiment/analysis/analyze_exp2_log.py:271 | the time column of the kept rows, one value per row |
| Exp2Log.Crossings | vr-experiment/analysis/analyze_exp2_log.py:240 | the crossing column of the kept rows, one value per row |
| Exp2Log.Gaps | vr-experiment/analysis/analyze_exp2_log.py:246 | each gap in metres times 100 is the car position minus the pedestrian position, in centimetres |
| Exp2Log.TrialOf | vr-experiment/analysis/analyze_exp2_log.py:238-274 | the trial of the kept rows: one time, gap and cleaned crossing value per row, a binary signal, and a safety distance that is never negative |
| Exp2Log.TrialFromRows | vr-experiment/analysis/analyze_exp2_log.py:236-274 | no kept rows gives not-ok; otherwise an out-of-range position index is an error, and the result is the trial of the rows: the times, the gaps, the cleaned signal and, when the fall after the rise exists, the absolute gap one sample after it |
| Exp2Log.ComputeTrialAsWritten | vr-experiment/analysis/analyze_exp2_log.py:232-237 | the two logs are joined on Time; with the NaN filter over every merged column, X_vel included: no surviving row gives not-ok; otherwise an out-of-range position is an error, and the result is the trial of the surviving rows |
| Exp2Log.MissingSpeedEmptiesTrialAsWritten | vr-experiment/analysis/analyze_exp2_log.py:232 | as written, a cars log whose speed column was filled with NaN leaves no row of the join at all (with lines 112-113 of the same file) |
| Exp2Log.SpeedlessRowsAreDropped | vr-experiment/analysis/analyze_exp2_log.py:232 | joined rows without a speed never pass the NaN filter as written |
| Exp2Log.MissingSpeedWitness | vr-experiment/analysis/analyze_exp2_log.py:232 | a row complete apart from the speed is dropped by the filter as written and kept by the corrected one |
| Exp2Log.ComputeTrial | vr-experiment/analysis/analyze_exp2_log.py:216-274 | the two logs are joined on Time; with the NaN filter over the used columns: no kept rows gives not-ok; an out-of-range position is an error; otherwise the result is exactly the trial of the kept rows (their times, gaps and cleaned signal, and the absolute gap one sample after the fall that follows the first rise), so its three series have one entry per kept row, its safety distance is never negative, and its signal is binary |
| Exp2Log.SpeedColumnIsOptional | vr-experiment/analysis/analyze_exp2_log.py:232-235 | under the corrected filter the speed column has no influence on which rows a trial keeps (with lines 111-113 of the same file) |
| Exp2Log.TrialSamples | vr-experiment/analysis/analyze_exp2_log.py:388-399 | a trial contributes at most as many samples as the truncation length |
| Exp2Log.SampleAt | vr-experiment/analysis/analyze_exp2_log.py:390-399 | index k gives a sample exactly when it lies in both series and both values there are finite |
| Exp2Log.TrialSamplesInIndexOrder | vr-experiment/analysis/analyze_exp2_log.py:390-399 | a trial's samples are its indices filtered for finite pairs, so they follow the index order |
| Exp2Log.TrialFrame | vr-experiment/analysis/analyze_exp2_log.py:382-399 | the per-trial loop returns the finite samples of the two series truncated to the shorter one |
| Exp2Log.StackSamples | vr-experiment/analysis/analyze_exp2_log.py:367-405 | the stacking loop returns every trial's samples, trial after trial |
| Exp2Log.Stacked | vr-experiment/analysis/analyze_exp2_log.py:380-405 | the long table has at most as many rows as the sum over trials of the shorter series |
| Exp2Log.StackedIsFlat | vr-experiment/analysis/analyze_exp2_log.py:380-405 | the long table is the trials' sample lists concatenated in trial order |
| Exp2Log.StackedConcat | vr-experiment/analysis/analyze_exp2_log.py:405 | stacking two runs of trials is stacking each and concatenating, so pd.concat keeps the trial order |
| Exp2Log.TrialSamplesFromTrial | vr-experiment/analysis/analyze_exp2_log.py:388-399 | each sample of a trial is a finite gap and crossing pair at one index below the truncation length, under that trial's speed, weather text, position and number |
| Exp2Log.StackedFromTrials | vr-experiment/analysis/analyze_exp2_log.py:380-405 | each stacked sample carries the number, weather text and position of one of the input trials |
| Exp2Log.StackedSize | vr-experiment/analysis/analyze_exp2_log.py:388 | the stacked table has at most as many rows as the sum over trials of the shorter series length |
| Exp2Log.Eoci | vr-experiment/analysis/analyze_exp2_log.py:467-474 | the time before impact exists exactly when the safety distance exists and the speed is positive, and then times the speed in m/s it gives the safety distance |
| BpiColumns.PrefNum | validation/datasets/BPI/visualize_crossing.py:95-97 | a name starting with digits followed by an underscore ranks by the value of those digits; every other name ranks 10^9 |
| BpiColumns.PrefixTwelve | validation/datasets/BPI/visualize_crossing.py:96-97 | "012_speed" has prefix number 12 |
| BpiColumns.PrefixZero | validation/datasets/BPI/visualize_crossing.py:96-97 | "000_speed" has prefix number 0 |
| BpiColumns.Hits | validation/datasets/BPI/visualize_crossing.py:91 | the columns ending with the suffix, no more and none missing |
| BpiColumns.HitsAreFiltered | validation/datasets/BPI/visualize_crossing.py:91 | the hits are a filter over the header |
| BpiColumns.HitsKeepOrder | validation/datasets/BPI/visualize_crossing.py:91 | the hits of two stretches of the header are those of the first followed by those of the second, and one column is a hit exactly when it ends with the suffix |
| BpiColumns.BothSpeedColumnsHit | validation/datasets/BPI/visualize_crossing.py:91 | both "012_speed" and "000_speed" end with "speed", in header order |
| BpiColumns.FirstMinPrefix | validation/datasets/BPI/visualize_crossing.py:98-99 | the first element of a stable sort by prefix number: no element has a smaller prefix and every earlier element a strictly larger one |
| BpiColumns.EarlierHitsHaveLargerPrefix | validation/datasets/BPI/visualize_crossing.py:91-99 | every hit before the chosen one in the header has a strictly larger prefix number |
| BpiColumns.ChosenHitIsEarliest | validation/datasets/BPI/visualize_crossing.py:91-99 | the chosen hit sits in the header after hits of strictly larger prefix number only, so a stable sort's head is the earliest smallest prefix |
| BpiColumns.FindCol | validation/datasets/BPI/visualize_crossing.py:84-99 | a KeyError exactly when no column ends with the suffix; the exact name when present; otherwise a column ending with the suffix whose prefix number is the smallest among them |
| BpiColumns.FindColPrefersSmallerPrefix | validation/datasets/BPI/visualize_crossing.py:94-99 | "000_speed" is chosen over "012_speed" although it comes second |
| BpiColumns.FirstColEndingWith | validation/datasets/BPI/ped_height.py:104-109 | a KeyError exactly when no column ends with the suffix; otherwise the first column that does |
| BpiColumns.LookupsDisagreeOnPrefixOrder | validation/datasets/BPI/ped_height.py:106-109 | on ["012_speed", "000_speed"] the first-hit lookup returns "012_speed" while the prefix rule returns "000_speed" |
| BpiColumns.Candidates | validation/datasets/BPI/visualize_crossing.py:109 | the candidates of a priority are no more than the columns; each is a column ending with the name and not an image clock, and every such column is one |
| BpiColumns.CandidatesAreFiltered | validation/datasets/BPI/visualize_crossing.py:109 | the candidates are a filter over the header |
| BpiColumns.CandidatesKeepOrder | validation/datasets/BPI/visualize_crossing.py:109 | the candidates of two stretches are those of the first followed by those of the second, and one column is a candidate exactly when it passes the test |
| BpiColumns.IndexFallback | validation/datasets/BPI/visualize_crossing.py:127-128 | the fallback returns "_idx" and adds it to the header |
| BpiColumns.PickFrom | validation/datasets/BPI/visualize_crossing.py:107-128 | the chosen column is in the header afterwards, which keeps every column; unless it is the added "_idx", the header is unchanged and the column is an input column that is not an image clock |
| BpiColumns.PickTimeCol | validation/datasets/BPI/visualize_crossing.py:102-128 | the priority loop with its early returns computes the priority scan from the first priority |
| BpiColumns.LongerNameCandidates | validation/datasets/BPI/visualize_crossing.py:107-109 | a longer rel_time name has no more candidates than "rel_time" itself |
| BpiColumns.LaterPriorityEndsInRelTime | validation/datasets/BPI/visualize_crossing.py:107 | the priorities after "rel_time" all end with "rel_time" |
| BpiColumns.SkipPriority | validation/datasets/BPI/visualize_crossing.py:107-117 | without a "rel_time" column, a later priority finds nothing and the scan moves on to the next |
| BpiColumns.LaterPrioritiesHaveNoCandidate | validation/datasets/BPI/visualize_crossing.py:108-128 | when "rel_time" has no candidate, neither the later priorities nor the generic fallback find one, and the index column is chosen |
| BpiColumns.PickTimeColDecidedByFirstTwo | validation/datasets/BPI/visualize_crossing.py:107-128 | the choice is the single "001_rel_time" candidate, else the single or smallest-prefix "rel_time" candidate, else the index column |
| BpiColumns.PickTimeColAvoidsImageClock | validation/datasets/BPI/visualize_crossing.py:102-128 | the chosen column never contains "image_rel_time"; the index column is chosen exactly when no rel_time column exists; otherwise the header is unchanged |
| BpiCrossing.Sign | validation/datasets/BPI/visualize_crossing.py:160 | the sign is -1, +1 or 0 exactly when the value is negative, positive or zero |
| BpiCrossing.Counted | validation/datasets/BPI/visualize_crossing.py:148-162 | the counted frames, in sort order, are valid with a finite non-zero pc_lat and carry its sign; every such frame of the order is counted |
| BpiCrossing.ScanAll | validation/datasets/BPI/visualize_crossing.py:152-175 | after the loop the baseline is the last counted sign; the first event starts at the first counted frame; the last event ends at the baseline frame; there are as many events as adjacent counted pairs with different signs, at most the count minus 1; the events form one chain of real changes |
| BpiCrossing.StepKeepsInv | validation/datasets/BPI/visualize_crossing.py:164-175 | one more nonzero sign keeps the scan invariant: the baseline is the newest sign, one event per sign change, each event a real change chained to the one before |
| BpiCrossing.ScanOneMore | validation/datasets/BPI/visualize_crossing.py:155-175 | one more frame of the sort order is one loop step when it counts, and no change otherwise |
| BpiCrossing.DetectSignChanges | validation/datasets/BPI/visualize_crossing.py:134-177 | the detector returns the events of the scan over the counted frames |
| BpiCrossing.RunStartIsTheBaseline | validation/datasets/BPI/visualize_crossing.py:164-175 | for signs -, +, +, - the events are (0 to 2) and (2 to 5), the later change recorded from the first positive frame |
| BpiCrossing.EventsAlternate | validation/datasets/BPI/visualize_crossing.py:168-175 | consecutive events go in opposite directions |
| BpiCrossing.SameSignNoEvent | validation/datasets/BPI/visualize_crossing.py:168 | a run of one sign holds no event |
| BpiCrossing.RemoveQuotesSpaces | validation/datasets/BPI/visualize_crossing.py:195 | the result is no longer than the input, holds no space or quote, keeps every other character of the input, and is the input when it held none |
| BpiCrossing.RemoveQuotesSpacesIsFiltered | validation/datasets/BPI/visualize_crossing.py:195 | the removal of spaces and quotes is a character filter: it keeps, in order, exactly the characters that are neither |
| BpiCrossing.RemoveQuotesSpacesByParts | validation/datasets/BPI/visualize_crossing.py:195 | on a concatenation the removal acts on each part, and a single character is removed exactly when it is a space or a quote |
| BpiCrossing.RemoveQuotesSpacesIdempotent | validation/datasets/BPI/visualize_crossing.py:195 | removing spaces and quotes a second time changes nothing |
| BpiCrossing.PngCandidates | validation/datasets/BPI/visualize_crossing.py:183-204 | no time stamp, or one that strips to empty text (float("") raises), gives no name; otherwise the names are exactly the stripped text and its form without spaces and quotes (both only when the text is non-empty), followed by str(int(float(text))) when float() succeeds and that text is not already listed |
| BpiAnnotate.Stems | validation/datasets/BPI/annotate_crossing_intention.py:168 | a frame number has three spellings |
| BpiAnnotate.StemPatterns | validation/datasets/BPI/annotate_crossing_intention.py:171-176 | one stem gives four patterns |
| BpiAnnotate.PatternsOf | validation/datasets/BPI/annotate_crossing_intention.py:170-176 | the pattern list holds four patterns per stem |
| BpiAnnotate.FrameGlobPatterns | validation/datasets/BPI/annotate_crossing_intention.py:165-177 | the loop over the stems builds the frame's pattern list |
| BpiAnnotate.PatternNamesItsStem | validation/datasets/BPI/annotate_crossing_intention.py:172-175 | a pattern starts with the session root, ends with its kind's extension, and names whatever its stem ends with |
| BpiAnnotate.PatternsOfNameUnder | validation/datasets/BPI/annotate_crossing_intention.py:170-176 | every pattern of a list of stems ending with a text lies under the root, has one of the four extensions and names that text |
| BpiAnnotate.PatternsNameTheFrame | validation/datasets/BPI/annotate_crossing_intention.py:165-177 | a frame has 12 patterns, each under the session root, with one of the four extensions, naming the frame number |
| BpiAnnotate.FrameNumbers | validation/datasets/BPI/annotate_crossing_intention.py:199 | the frame numbers are no more than the cells, none exactly when every cell is missing; each comes from a present cell, and every present cell gives one |
| BpiAnnotate.FrameNumbersAreFiltered | validation/datasets/BPI/annotate_crossing_intention.py:199 | the frame numbers are the present cells truncated to int, as a filter over the column |
| BpiAnnotate.FrameNumbersKeepOrder | validation/datasets/BPI/annotate_crossing_intention.py:199 | the numbers of two stretches of the column are the numbers of the first followed by those of the second, and a single cell gives its truncation or nothing |
| BpiAnnotate.HitCount | validation/datasets/BPI/annotate_crossing_intention.py:207-210 | a session hits at most once per sampled frame |
| BpiAnnotate.CountHits | validation/datasets/BPI/annotate_crossing_intention.py:207-210 | the inner loop computes the session's hit count |
| BpiAnnotate.FirstBest | validation/datasets/BPI/annotate_crossing_intention.py:204-212 | the position of the largest count, earliest on ties |
| BpiAnnotate.SessionCounts | validation/datasets/BPI/annotate_crossing_intention.py:206-210 | one hit count per session, in order |
| BpiAnnotate.SampledFrames | validation/datasets/BPI/annotate_crossing_intention.py:193-203 | no sample exactly when there is no frame column or no frame number; otherwise at most `sample_n` frames, the first ones of the column, all of them when fewer are available, and at least one |
| BpiAnnotate.BestSession | validation/datasets/BPI/annotate_crossing_intention.py:204-214 | the session loop returns the first session with the largest hit count |
| BpiAnnotate.BestSessionStep | validation/datasets/BPI/annotate_crossing_intention.py:212-213 | a session replaces the best so far exactly when its count is strictly larger, which keeps the best equal to the first position of the largest count seen |
| BpiAnnotate.GuessSession | validation/datasets/BPI/annotate_crossing_intention.py:189-214 | the first session when there is no frame column or no frame; otherwise the first session with the most hits on the sampled frames |
| BpiAnnotate.TiesKeepTheEarlierSession | validation/datasets/BPI/annotate_crossing_intention.py:211 | a later session is chosen only with strictly more hits than every earlier one |
| BpiAnnotate.NormalizeDegrees | validation/datasets/BPI/annotate_crossing_intention.py:217-222 | a finite angle becomes one in [0, 360), an angle already there is kept, and NaN stays NaN |
| BpiAnnotate.NormalizeIgnoresWholeTurns | validation/datasets/BPI/annotate_crossing_intention.py:220-221 | adding a whole turn does not change the normalised angle |
| BpiAnnotate.InWindow | validation/datasets/BPI/annotate_crossing_intention.py:229-233 | a NaN angle is in no window, and a one-point window holds exactly that angle |
| BpiAnnotate.InWindowsDeg | validation/datasets/BPI/annotate_crossing_intention.py:225-234 | one flag per angle, set exactly when the angle lies in some window |
| BpiAnnotate.WrappingWindowIsComplement | validation/datasets/BPI/annotate_crossing_intention.py:232-233 | a window with a > b holds exactly the angles outside the open arc from b to a |
| BpiAnnotate.OrientationOk | validation/datasets/BPI/annotate_crossing_intention.py:291-292 | a NaN orientation never faces the road |
| BpiAnnotate.OrientationOkIsTheWindow | validation/datasets/BPI/annotate_crossing_intention.py:291-292 | facing the road means a present angle whose normalised value lies in [135, 225] (with line 73 of the same file) |
| BpiAnnotate.LidarValid | validation/datasets/BPI/annotate_crossing_intention.py:285 | a NaN validity flag is never valid |
| BpiAnnotate.OnRoad | validation/datasets/BPI/annotate_crossing_intention.py:301 | a NaN lateral position is never on the road |
| BpiAnnotate.OnRoadLabel | validation/datasets/BPI/annotate_crossing_intention.py:301-302 | a frame labelled on the road has a lateral position and a validity flag |
| BpiAnnotate.KeepOnRoad | validation/datasets/BPI/annotate_crossing_intention.py:305 | a frame with a NaN flag, distance or speed is never written |
| BpiAnnotate.IntentionLabel | validation/datasets/BPI/annotate_crossing_intention.py:301-302 | the intention label is the on-road label of the other script also facing the road; a NaN orientation is never labelled |
| BpiAnnotate.KeepIntention | validation/datasets/BPI/annotate_crossing_intention.py:305 | the intention filter is the on-road filter also facing the road; a NaN orientation is never written |
| BpiAnnotate.KeptLabelsAreOnRoad | validation/datasets/BPI/annotate_crossing_intention.py:301-305 | on the frames written out, both ground-truth labels reduce to pc_lat > 0 |
| BpiAnnotate.IntentionIsStricter | validation/datasets/BPI/annotate_crossing_intention.py:301-305 | the intention script labels and keeps a subset of what the on-road script does, and keeps the same frames once the orientation test passes |
| BpiAnnotate.EstimatedHeightsAreFrameHeights | validation/datasets/BPI/annotate_crossing_intention.py:273 | the height series returned for the frame is, frame by frame, the per-row estimate of the height module under the found height columns (with lines 322-360 of ped_height.py) |
| BpiAnnotate.PlausibleHeights | validation/datasets/BPI/annotate_crossing_intention.py:275-276 | the plausible heights are present values in [150, 200] cm and every such value is among them |
| BpiAnnotate.PlausibleHeightsAreFiltered | validation/datasets/BPI/annotate_crossing_intention.py:275-276 | the plausible heights are the [150, 200] cm values of the series, as a filter over it |
| BpiAnnotate.PlausibleHeightsKeepOrder | validation/datasets/BPI/annotate_crossing_intention.py:275-276 | the plausible heights of two stretches are those of the first followed by those of the second, and one frame gives its height or nothing |
| BpiAnnotate.RoundOneDecimal | validation/datasets/BPI/annotate_crossing_intention.py:279 | round(x, 1): a value with one decimal, within half a tenth of x in tenths, a tie going to the even tenth; so within 0.05 of x |
| BpiAnnotate.RoundingKeepsPlausible | validation/datasets/BPI/annotate_crossing_intention.py:279 | rounding a height in [150, 200] to one decimal stays in [150, 200] |
| BpiAnnotate.PedHeightConst | validation/datasets/BPI/annotate_crossing_intention.py:275-282 | the default 169.6 with fewer than 5 plausible heights; otherwise their mean rounded by round(x, 1), which is within 0.05 of it; always in [150, 200] (with lines 69-70 of the same file) |
| BpiAnnotate.PredictOrFalse | validation/datasets/BPI/annotate_crossing_intention.py:321-332 | a frame is predicted to cross only when the rule returns True; a raised error gives False |
| BpiAnnotate.ClearWeatherNeverFallsBack | validation/datasets/BPI/annotate_crossing_intention.py:321-332 | with the clear weather the prediction is the decision rule itself, never the exception fallback |
| BpiAnnotate.Predict | validation/datasets/BPI/annotate_crossing_intention.py:320-332 | one prediction per kept frame, each the rule or its fallback on that frame |
| BpiAnnotate.KeptRows | validation/datasets/BPI/annotate_crossing_intention.py:305-308 | the kept frames have a distance and a speed, pass the script's write filter and come from the frame; every frame passing the filter is kept; none is kept exactly when no frame passes it |
| BpiAnnotate.KeptRowsAreFiltered | validation/datasets/BPI/annotate_crossing_intention.py:305-318 | the kept frames are the frame filtered by the write mask |
| BpiAnnotate.KeptRowsKeepOrder | validation/datasets/BPI/annotate_crossing_intention.py:305-318 | the kept frames of two stretches are those of the first followed by those of the second, and one frame is kept exactly when it passes the mask: boolean indexing keeps the order |
| BpiAnnotate.OutRows | validation/datasets/BPI/annotate_crossing_intention.py:334-342 | one output row per kept frame |
| BpiAnnotate.Annotate | validation/datasets/BPI/annotate_crossing_intention.py:316-342 | the output loop builds the expected table |
| BpiAnnotate.OutputRowsMeaning | validation/datasets/BPI/annotate_crossing_intention.py:313-342 | in both tables the ground truth is pc_lat > 0 and the inputs are the frame's speed and distance at the constant height; the tables differ in adj and each prediction is the clear-weather rule with its adj |
| BpiAnnotate.RowsOf | validation/datasets/BPI/annotate_crossing_intention.py:285-288 | one frame row per line |
| BpiAnnotate.FrameRowsOf | validation/datasets/BPI/annotate_crossing_intention.py:254-288 | one frame row per line, read from the columns the lookups found |
| BpiAnnotate.Lookups | validation/datasets/BPI/annotate_crossing_intention.py:254-259 | four lookups in the on-road script, five in the intention script, which alone looks up the orientation (with lines 235-238 of annotate_crossing.py) |
| BpiAnnotate.FirstMissing | validation/datasets/BPI/annotate_crossing_intention.py:254-259 | no error exactly when every looked-up suffix is found |
| BpiAnnotate.LowerCaseExplainIsSkipped | validation/datasets/BPI/annotate_crossing_intention.py:246-247 | a base name starting with "explain" is skipped; the test ignores case |
| BpiAnnotate.AnnotatedPath | validation/datasets/BPI/annotate_crossing_intention.py:349-350 | the annotated table lies in the output folder and is named by the base name's splitext root followed by "_annot.csv" |
| BpiAnnotate.AnnotatedPathOfCsv | validation/datasets/BPI/annotate_crossing_intention.py:349-350 | a recording "stem.csv" is written as "stem_annot.csv" in the output folder |
| BpiAnnotate.AnnotateRows | validation/datasets/BPI/annotate_crossing_intention.py:275-351 | nothing is written exactly when no frame is kept; otherwise both tables are the expected ones for the kept frames at the constant height |
| BpiAnnotate.AnnotateFile | validation/datasets/BPI/annotate_crossing_intention.py:240-353 | an "explain" file is skipped; an empty file is an error; a missing column reports the first failing lookup; then a missing height column reports the KeyError of the height estimate; a written annotation has a non-empty kept set, the file's base name and the two expected tables at the constant height of the guessed session's height series; a file that passes every one of those checks always succeeds, and it is skipped exactly when no frame is kept |
| PedHeight.ProbeRoots | validation/datasets/BPI/ped_height.py:119-129 | a LiDAR folder is probed alone; any other root is probed through its four standard subfolders, in order |
| PedHeight.CandidateDirs | validation/datasets/BPI/ped_height.py:113-135 | the root comes first, with no repeats; every later candidate is an existing probed folder, and every existing probed folder is listed; a LiDAR folder gives only itself; and the list is exactly the distinct values, in order of first appearance, of the root followed by the existing probed folders in probing order |
| PedHeight.AppendExisting | validation/datasets/BPI/ped_height.py:118-135 | starting from the root, the loop appends each existing folder not yet listed: no repeats, only existing folders from the list, every existing one included, and a list holding only the root adds nothing; the result is exactly the distinct values, in order of first appearance, of the root followed by the existing folders of the list in list order |
| PedHeight.CropAround | validation/datasets/BPI/ped_height.py:207-212 | the crop keeps exactly the points inside the box around the pedestrian, and nothing when the position is NaN |
| PedHeight.CropAroundIsFiltered | validation/datasets/BPI/ped_height.py:207-212 | with a known position the crop is the order-keeping filter of the points by the box test |
| PedHeight.CropAroundKeepsOrder | validation/datasets/BPI/ped_height.py:207-212 | the crop of a concatenation is the concatenation of the crops, and one point is kept exactly when it is in the box |
| PedHeight.CropIsIdempotent | validation/datasets/BPI/ped_height.py:211-212 | cropping twice with the same box is cropping once |
| PedHeight.ZBetween | validation/datasets/BPI/ped_height.py:226-227 | the kept points are exactly those whose height lies between the two bounds |
| PedHeight.ZBetweenIsFiltered | validation/datasets/BPI/ped_height.py:226-227 | the band selection is the order-keeping filter of the points by their height |
| PedHeight.ZBetweenKeepsOrder | validation/datasets/BPI/ped_height.py:226-227 | the selection of a concatenation is the concatenation of the selections, and one point is kept exactly when its height is in the band |
| PedHeight.RemoveGround | validation/datasets/BPI/ped_height.py:215-227 | an empty cloud has no ground and is returned whole; otherwise the ground is the 10th percentile of the heights |
| PedHeight.CloudStatus | validation/datasets/BPI/ped_height.py:255-271 | a height exists exactly with status "ok" and lies in [0.9, 2.5] m; too few cropped points are reported with their count; "ok" means enough points, a ground level, enough points kept above it, and the height head minus ground |
| PedHeight.CloudStatuses | validation/datasets/BPI/ped_height.py:258-271 | past the crop, "bad_ground", "non_positive_height" and "height_out_of_range" are each returned exactly under their own condition, and "ok" exactly when head minus ground lies in [0.9, 2.5] m |
| PedHeight.HeightFromCloud | validation/datasets/BPI/ped_height.py:252-271 | a height exists exactly with status "ok" and lies in [0.9, 2.5] m; too few points gives "too_few_points(n)"; an "ok" height is the head percentile minus a ground found on enough points |
| PedHeight.TooFewPointsComesFirst | validation/datasets/BPI/ped_height.py:253-256 | a NaN pedestrian position crops to no point and reports "too_few_points(0)" |
| PedHeight.LidarHeight | validation/datasets/BPI/ped_height.py:233-271 | a NaN frame is an error; no cloud file gives "no_pcl_file"; a height exists exactly with status "ok" and lies in [0.9, 2.5] m |
| PedHeight.ColumnsEndingWithAny | validation/datasets/BPI/ped_height.py:283-284 | the keypoint columns are columns ending with one of the suffixes |
| PedHeight.ColumnsEndingWithAnyAreFiltered | validation/datasets/BPI/ped_height.py:283-284 | the keypoint columns are a filter over the row's columns |
| PedHeight.ColumnsEndingWithAnyKeepsOrder | validation/datasets/BPI/ped_height.py:283-284 | the keypoint columns of two stretches are those of the first followed by those of the second, so the comprehension keeps the columns' order |
| PedHeight.NanMin | validation/datasets/BPI/ped_height.py:292 | the minimum is one of the present cells and none is below it; NaN exactly when every cell is |
| PedHeight.NanMax | validation/datasets/BPI/ped_height.py:293 | the maximum is one of the present cells and none is above it; NaN exactly when every cell is |
| PedHeight.KeypointHeight | validation/datasets/BPI/ped_height.py:274-316 | a height exists exactly with status "ok" and lies in [0.9, 2.5] m; no or a non-finite focal length gives "no_focal"; only a zero focal length can raise |
| PedHeight.KeypointChain | validation/datasets/BPI/ped_height.py:292-316 | the chain after the focal-length and key checks: a height exists exactly with status "ok" and lies in [0.9, 2.5] m; only f = 0 raises |
| PedHeight.KeypointStatuses | validation/datasets/BPI/ped_height.py:295-316 | in source order: no_keypoints exactly when the eye or the ankle level is NaN; bad_pixel_height exactly when hPix = ankle - eye <= 0; no_lidar_xy exactly when then x or y is NaN; the division error exactly when then f = 0; fallback_out_of_range exactly when the stature (hPix / f) * hypot(x, y) / 0.94 is outside [0.9, 2.5]; "ok" carries exactly that stature |
| PedHeight.KeypointHeightIsChain | validation/datasets/BPI/ped_height.py:283-296 | with a finite focal length the estimate is the chain on the highest eye (nanmin), the lowest ankle (nanmax) and the LiDAR position read from "006_lidar_ped_x" else "lidar_ped_x" (and likewise for y); an empty key list acts as a NaN level |
| PedHeight.Combine | validation/datasets/BPI/ped_height.py:341-369 | an accepted LiDAR height is used in centimetres; otherwise the keypoint height when a focal length is given; the source text names the estimator, the failure chain or the error |
| PedHeight.NaNFocalLengthFails | validation/datasets/BPI/ped_height.py:359-366 | with no LiDAR height, a NaN focal length still reaches the keypoint estimate and gives the source "fail:<lidar status>->no_focal" |
| PedHeight.CombinedHeightIsPlausible | validation/datasets/BPI/ped_height.py:352-362 | a height in the series lies in [90, 250] cm |
| PedHeight.SourceNamesTheEstimator | validation/datasets/BPI/ped_height.py:354-362 | a height's source starts with "lidar:" or "image:", and "image:" only when a focal length is given and the LiDAR estimate failed without raising |
| PedHeight.SeriesHeightsArePlausible | validation/datasets/BPI/ped_height.py:340-369 | every height a frame contributes lies in [90, 250] cm |
| PedHeight.FrameHeight | validation/datasets/BPI/ped_height.py:342-369 | one frame's height lies in [90, 250] cm and names its estimator with "lidar:" or "image:"; a NaN frame number gives no height |
| PedHeight.FindHeightColumns | validation/datasets/BPI/ped_height.py:332-335 | a KeyError exactly when one of the four columns is missing; otherwise the frame and position columns are header columns with the right suffixes |
| PedHeight.FillSeries | validation/datasets/BPI/ped_height.py:337-369 | the loop fills entry k of both arrays from row k |
| PedHeight.EstimateForFrame | validation/datasets/BPI/ped_height.py:322-374 | a missing column is an error; otherwise one height and one source per row, each that row's entry |
| WeatherGui.TrailingDigits | validation/datasets/BPI/annotate_weather_gui.py:102 | the result ends the name, is all digits, and is the whole run: the character before it is not a digit |
| WeatherGui.LastDigitRun | validation/datasets/BPI/annotate_weather_gui.py:102-106 | a name has a frame number exactly when it holds a digit |
| WeatherGui.TrailingDigitsOfRun | validation/datasets/BPI/annotate_weather_gui.py:102 | a digit run closing a name whose preceding character is not a digit is the trailing run |
| WeatherGui.LastRunIsTheKey | validation/datasets/BPI/annotate_weather_gui.py:102-106 | the last digit run followed only by non-digits gives the frame number |
| WeatherGui.FrameKey | validation/datasets/BPI/annotate_weather_gui.py:98-106 | only image files are keyed |
| WeatherGui.IndexKeys | validation/datasets/BPI/annotate_weather_gui.py:92-110 | the index keys are exactly the keys of the listed paths |
| WeatherGui.BestStep | validation/datasets/BPI/annotate_weather_gui.py:107-108 | one scan step keeps for every frame the best path listed so far |
| WeatherGui.IndexKeepsShortestFirst | validation/datasets/BPI/annotate_weather_gui.py:107-108 | for every frame the index keeps a path with the shortest name, the first among equals |
| WeatherGui.ImageIndexIsShortestFirst | validation/datasets/BPI/annotate_weather_gui.py:83-110 | the image index holds exactly the frames some listed image names, each mapped to its shortest-named path, the first among equals |
| WeatherGui.IndexByAppend | validation/datasets/BPI/annotate_weather_gui.py:97-108 | listing one more path applies one scan step to the index, for any key and name length |
| WeatherGui.AddListing | validation/datasets/BPI/annotate_weather_gui.py:97-108 | the inner loop adds a directory's listing to the index built so far, for any key and name length |
| WeatherGui.ScanImages | validation/datasets/BPI/annotate_weather_gui.py:83-110 | the scan builds the index of every existing directory's listing, in order |
| WeatherGui.AllFilesStep | validation/datasets/BPI/annotate_weather_gui.py:83-110 | scanning one more directory appends its listing when it exists and nothing otherwise |
| WeatherGui.Parent | validation/datasets/BPI/annotate_weather_gui.py:117-118 | the directory part followed by the base name is the path, and is empty or ends with a separator |
| WeatherGui.BasenameAfterParent | validation/datasets/BPI/annotate_weather_gui.py:117-118 | the base name of a directory followed by a separator-free name is that name |
| WeatherGui.WeatherName | validation/datasets/BPI/annotate_weather_gui.py:118 | the renamed file name is 8 characters longer and still holds no separator |
| WeatherGui.MakeOutputPath | validation/datasets/BPI/annotate_weather_gui.py:113-118 | in place gives the input itself; otherwise an error exactly when the name is empty, and a path 8 characters longer |
| WeatherGui.OutputIsTheRenamedSibling | validation/datasets/BPI/annotate_weather_gui.py:117-118 | the copy lies in the input's directory under the renamed file name |
| WeatherGui.OutputNeverOverwritesInput | validation/datasets/BPI/annotate_weather_gui.py:113-118 | the output path is the input exactly when writing in place |
| WeatherGui.ResumeRow | validation/datasets/BPI/annotate_weather_gui.py:160-165 | the cursor starts at the first row without weather, or at row 0 when every row has one |
| WeatherGui.Clamp | validation/datasets/BPI/annotate_weather_gui.py:278 | the clamped cursor is a row index; an index is kept; below 0 gives 0 and past the end gives the last row |
| WeatherGui.ActionOf | validation/datasets/BPI/annotate_weather_gui.py:292-305 | on a lower-cased key: c, r, n label clear, rain, night (each weather by its initial); right/pagedown move +1 and left/pageup -1; s saves; q/escape save and quit; each exactly for its keys, and every other key does nothing |
| WeatherGui.KeyAction | validation/datasets/BPI/annotate_weather_gui.py:288-305 | the same map on the lower-cased key in either case: c/r/n label clear/rain/night, right/pagedown +1, left/pageup -1, s save, q/escape save and quit, each exactly for its keys; no key or any other key does nothing |
| WeatherGui.ShortcutsIgnoreCase | validation/datasets/BPI/annotate_weather_gui.py:290 | every key does what its lower-case form does |
| WeatherGui.UpperCaseShortcuts | validation/datasets/BPI/annotate_weather_gui.py:290-296 | "C" labels clear and "R" labels rain |
| WeatherGui.Annotator.constructor | validation/datasets/BPI/annotate_weather_gui.py:143-165 | the weather column is the file's or NaN throughout; the cursor resumes at the first unlabelled row; the autosave period is never negative; nothing is written yet |
| WeatherGui.Annotator.Move | validation/datasets/BPI/annotate_weather_gui.py:276-279 | the cursor moves by delta, clamped to the rows; nothing else changes |
| WeatherGui.Annotator.Skip | validation/datasets/BPI/annotate_weather_gui.py:281-283 | the cursor moves on by one row, clamped, without a label |
| WeatherGui.Annotator.Save | validation/datasets/BPI/annotate_weather_gui.py:310-315 | the whole table is written once more; nothing else changes |
| WeatherGui.Annotator.SetWeatherAndNext | validation/datasets/BPI/annotate_weather_gui.py:264-271 | the current row gets the label; the table is autosaved after labelling when the autosave period divides the old cursor; the cursor moves on by one, clamped |
| WeatherGui.Annotator.OnKey | validation/datasets/BPI/annotate_weather_gui.py:288-320 | each key does what its action says: label and advance, move, save, save and close, or nothing |
| WeatherGui.Open | validation/datasets/BPI/annotate_weather_gui.py:143-215 | a missing image_frame or number column raises its KeyError; opening succeeds exactly when both exist and the table has rows, with the cursor at the first unlabelled row and nothing written |
| ParticipantVariables.Truthy | model/data_visualization/features/safety_distance_participant_variables.py:72 | bool(raw) is false exactly for the null cell, the number 0, False and the empty text |
| ParticipantVariables.ToFloat | model/data_visualization/features/safety_distance_participant_variables.py:136-139 | a null cell never converts; a number or a flag always does, a flag to 1 exactly when it is true and to 0 otherwise; a text converts as float() parses it |
| ParticipantVariables.MapValue | model/data_visualization/features/safety_distance_participant_variables.py:63-75 | driver_license becomes 1 exactly when the raw value is truthy, sex becomes 1 exactly for "Man", every other column passes through unchanged |
| ParticipantVariables.EncodedColumnsAreBinary | model/data_visualization/features/safety_distance_participant_variables.py:71-137 | for driver_license and sex the encoded value always converts to a float, and that float is 0 or 1 |
| ParticipantVariables.PointOf | model/data_visualization/features/safety_distance_participant_variables.py:127-147 | a row yields a point exactly when its safety distance and its value are present and the mapped value converts; the point carries the row's weather, velocity, participant, safety and converted value |
| ParticipantVariables.Points | model/data_visualization/features/safety_distance_participant_variables.py:127-147 | the kept points are never more than the rows |
| ParticipantVariables.PointsAppend | model/data_visualization/features/safety_distance_participant_variables.py:127-147 | processing one more row appends its point when it has one and nothing otherwise |
| ParticipantVariables.FetchData | model/data_visualization/features/safety_distance_participant_variables.py:122-149 | the loop returns the kept points in row order, with the global safety list and value list taken point by point from them |
| ParticipantVariables.PointsComeFromRows | model/data_visualization/features/safety_distance_participant_variables.py:129-147 | every kept point comes from some row, and every row that yields a point has that point kept |
| ParticipantVariables.Group | model/data_visualization/features/safety_distance_participant_variables.py:144-147 | the list under [weather][velocity] holds only points of that weather and velocity, all drawn from the kept points |
| ParticipantVariables.BucketOver | model/data_visualization/features/safety_distance_participant_variables.py:257-262 | a bucket holds only points of its weather whose velocity falls in the bucket's category |
| ParticipantVariables.CorrInput | model/data_visualization/features/safety_distance_participant_variables.py:273-293 | for height the input is the order-keeping filter of the points by the [160, 180] window, so every kept point keeps its place and its repetitions; other columns keep every point |
| ParticipantVariables.CorrInputKeepsOrder | model/data_visualization/features/safety_distance_participant_variables.py:273-276 | the window of two stretches is the window of the first followed by that of the second; one point stays exactly when its value is in [160, 180] |
| ParticipantVariables.CorrPair | model/data_visualization/features/safety_distance_participant_variables.py:241-252 | fewer than three points give no p-values; otherwise the Pearson and Spearman results are returned as the tests give them |
| ParticipantVariables.RowOf | model/data_visualization/features/safety_distance_participant_variables.py:269-285 | the row carries the weather title, and has no p-values when fewer than three points reach the tests |
| ParticipantVariables.BucketRow | model/data_visualization/features/safety_distance_participant_variables.py:265-285 | an empty bucket is skipped; a non-empty one gives exactly the row computed on its points under its bucket name |
| ParticipantVariables.WeatherRows | model/data_visualization/features/safety_distance_participant_variables.py:255-285 | a weather contributes at most three rows, each titled by the capitalised weather and named Low, Medium or High |
| ParticipantVariables.BucketRowsFollowBuckets | model/data_visualization/features/safety_distance_participant_variables.py:257-285 | an empty bucket has no row in its weather's rows, and a non-empty bucket has its row there |
| ParticipantVariables.CalculateCorrelations | model/data_visualization/features/safety_distance_participant_variables.py:227-305 | the loop returns the rows of every weather in dictionary order followed by the global row over all points |
| ParticipantVariables.RowsNameBuckets | model/data_visualization/features/safety_distance_participant_variables.py:255-285 | every per-weather row names a speed bucket, and there are at most three per weather |
| ParticipantVariables.TableShape | model/data_visualization/features/safety_distance_participant_variables.py:297-305 | the last row is the Global/Global row, every earlier row names a speed bucket, and the table has at most three rows per weather plus one |
| ParticipantVariables.SmallBucketsAreNeverGreen | model/data_visualization/features/safety_distance_participant_variables.py:320 | a row computed on fewer than three points is never painted green (with lines 242-243 of the same file) |
| CrossingSeries.Numbers | model/data_visualization/features/participant_crossing_vs_distance_vwp.py:139-140 | every converted entry is the number its source entry held, position for position |
| CrossingSeries.Negated | model/data_visualization/features/participant_crossing_vs_distance_vwp.py:128-132 | when every distance is a number the list is negated entry by entry; otherwise it becomes empty |
| CrossingSeries.RowEntry | model/data_visualization/features/participant_crossing_vs_distance_vwp.py:112-154 | a row without position, speed or weather, or with aligned length 0, is skipped; a non-number among the first n entries raises, and only then; otherwise the key is (participant, weather, position) and both lists are the first n entries converted |
| CrossingSeries.PositionOneIsMirrored | model/data_visualization/features/participant_crossing_vs_distance_vwp.py:128-130 | a stored position-1 trial holds the negation of each raw distance |
| CrossingSeries.BadMirroredRowIsSkipped | model/data_visualization/features/participant_crossing_vs_distance_vwp.py:128-137 | a position-1 row whose distances do not all convert is skipped and never raises |
| CrossingSeries.Append | model/data_visualization/features/participant_crossing_vs_distance_vwp.py:143-154 | setdefault and append add the series at the end of its key's list and leave every other key unchanged |
| CrossingSeries.Load | model/data_visualization/features/participant_crossing_vs_distance_vwp.py:112-154 | a successful load never holds an empty list: a key appears only with a stored series |
| CrossingSeries.LoadAppend | model/data_visualization/features/participant_crossing_vs_distance_vwp.py:112-154 | one more row extends the dictionary by that row's entry, skips it, or raises its error |
| CrossingSeries.ErrorPersists | model/data_visualization/features/participant_crossing_vs_distance_vwp.py:112-140 | after a row raises, the later rows do not change the outcome |
| CrossingSeries.LoadFailsIffSomeRowRaises | model/data_visualization/features/participant_crossing_vs_distance_vwp.py:112-140 | the load fails exactly when some row raises |
| CrossingSeries.LoadGroupsByKey | model/data_visualization/features/participant_crossing_vs_distance_vwp.py:143-156 | a key is in the dictionary exactly when some row stores a series under it, and its list is those series in row order |
| CrossingSeries.GroupedSeriesComeFromRows | model/data_visualization/features/participant_crossing_vs_distance_vwp.py:143-154 | every grouped series was stored by some row with that key |
| CrossingSeries.StoredSeriesAreAligned | model/data_visualization/features/participant_crossing_vs_distance_vwp.py:134-140 | every stored series has two lists of equal, non-zero length and comes from a row with its key |
| CrossingSeries.LoadCrossingSeries | model/data_visualization/features/participant_crossing_vs_distance_vwp.py:109-156 | the loop returns exactly the reference load, error included |
| CrossingSeries.YOffset | model/data_visualization/features/participant_crossing_vs_distance_vwp.py:200 | low 0.0, medium 0.02, high 0.04, and 0.0 for any other category (with line 50 of the same file) |
| CrossingSeries.SeriesTrace | model/data_visualization/features/participant_crossing_vs_distance_vwp.py:188-223 | a trial gives no curve exactly when one of its lists is empty; the curve sits in grid cell (weather + 1, position + 1) and shows its legend only for clear at position 0 |
| CrossingSeries.TraceIsOffsetCrossing | model/data_visualization/features/participant_crossing_vs_distance_vwp.py:197-216 | a drawn curve keeps the distances as x, lifts each crossing value by its speed group's offset, is never the fallback colour, and is unshifted exactly for the low group |
| CrossingSeries.CellTraces | model/data_visualization/features/participant_crossing_vs_distance_vwp.py:197-223 | a cell has at most one curve per trial, all placed in that cell |
| CrossingSeries.NoStoredSeriesIsDropped | model/data_visualization/features/participant_crossing_vs_distance_vwp.py:204-205 | when every trial has non-empty lists, every trial of the cell is drawn |
| CrossingSeries.GridTraces | model/data_visualization/features/participant_crossing_vs_distance_vwp.py:185-223 | every curve falls in the 3 x 3 grid and shows its legend exactly in the top-left cell |
| CrossingSeries.Figure | model/data_visualization/features/participant_crossing_vs_distance_vwp.py:159-223 | across the whole figure the legend is shown exactly for the curves of the clear, position-0 cell |
| CrossingSeries.LoadedCellsAreFullyDrawn | model/data_visualization/features/participant_crossing_vs_distance_vwp.py:134-205 | after a successful load every stored trial of every cell is drawn as one curve |
| PerceptionDashboards.DropNa | model/data_visualization/features/avg_perc_dist_by_velocity_err_weather.py:97 | a row is kept exactly when it has no missing value, and nothing is added |
| PerceptionDashboards.DropNaIsFiltered | model/data_visualization/features/avg_perc_dist_by_velocity_err_weather.py:97 | dropna is the order-keeping filter of the table by completeness |
| PerceptionDashboards.DropNaKeepsOrder | model/data_visualization/features/avg_perc_dist_by_velocity_err_weather.py:97 | dropna of a concatenation is the concatenation of the two, and one row survives, stripped of its options, exactly when complete |
| PerceptionDashboards.Moving | model/data_visualization/features/avg_perc_dist_by_velocity_err_weather.py:103-106 | a row is kept exactly when its speed in m/s is not 0 |
| PerceptionDashboards.MovingIsFiltered | model/data_visualization/features/avg_perc_dist_by_velocity_err_weather.py:103-106 | the speed filter is the order-keeping filter of the rows by a non-zero speed |
| PerceptionDashboards.MovingKeepsOrder | model/data_visualization/features/avg_perc_dist_by_velocity_err_weather.py:103-106 | the filter of a concatenation is the concatenation of the filters, and one row is kept exactly when its speed in m/s is not 0 |
| PerceptionDashboards.Derive | model/data_visualization/features/avg_perc_dist_by_velocity_err_weather.py:103-113 | the speed in m/s times 3.6 is the km/h speed, the real time times that speed is the distance, the perceived time times it is the perceived distance, and the group is the speed's category |
| PerceptionDashboards.DeriveAll | model/data_visualization/features/avg_perc_dist_by_velocity_err_weather.py:103-113 | every kept row gets its derived columns, in frame order |
| PerceptionDashboards.StrLtTrichotomy | model/data_visualization/features/avg_perc_dist_by_velocity_err_weather.py:116 | two weather names are equal or one sorts before the other |
| PerceptionDashboards.StrLtTransitive | model/data_visualization/features/avg_perc_dist_by_velocity_err_weather.py:116 | the weather-name order is transitive |
| PerceptionDashboards.StrLtIrreflexive | model/data_visualization/features/avg_perc_dist_by_velocity_err_weather.py:116 | no weather name sorts before itself |
| PerceptionDashboards.KeyLeTotal | model/data_visualization/features/avg_perc_dist_by_velocity_err_weather.py:116 | any two rows are comparable under the (speed, weather, distance) key |
| PerceptionDashboards.KeyLeTransitive | model/data_visualization/features/avg_perc_dist_by_velocity_err_weather.py:116 | the sort key order is transitive |
| PerceptionDashboards.InsertByKey | model/data_visualization/features/avg_perc_dist_by_velocity_err_weather.py:116 | inserting a row adds exactly that row |
| PerceptionDashboards.InsertKeepsSorted | model/data_visualization/features/avg_perc_dist_by_velocity_err_weather.py:116 | inserting into a key-sorted frame keeps it key-sorted |
| PerceptionDashboards.SortByKey | model/data_visualization/features/avg_perc_dist_by_velocity_err_weather.py:116 | the sorted frame holds exactly the rows it was given |
| PerceptionDashboards.SortIsOrderedPermutation | model/data_visualization/features/avg_perc_dist_by_velocity_err_weather.py:116 | the sorted frame is ordered by speed, weather and distance and is a permutation of its input |
| PerceptionDashboards.LoadPerception | model/data_visualization/features/avg_perc_dist_by_velocity_err_weather.py:97-116 | the loaded frame never has more rows than the table |
| PerceptionDashboards.LoadedFrameIsTheSortedMovingRows | model/data_visualization/features/avg_perc_dist_by_velocity_err_weather.py:97-116 | the loaded frame is sorted, is a permutation of the derived moving complete rows, every loaded row comes from a complete moving table row, and every such table row is loaded |
| PerceptionDashboards.StoppedRowsAreDropped | model/data_visualization/features/avg_perc_dist_by_velocity_err_weather.py:106 | a row with speed 0 never reaches the time columns |
| PerceptionDashboards.Select | model/data_visualization/features/avg_perc_dist_by_velocity_err_weather.py:133 | the selection has at most one value per row, and is non-empty exactly when some row passes the filter |
| PerceptionDashboards.SelectIgnoresRejected | model/data_visualization/features/avg_perc_dist_by_velocity_err_weather.py:133 | rows the filter rejects do not change the selection |
| PerceptionDashboards.SelectBounds | model/data_visualization/features/avg_perc_dist_by_velocity_err_weather.py:136-150 | when every selected row's value lies in [lo, hi], so does every selected value |
| PerceptionDashboards.ClearMeanDistance | model/data_visualization/features/avg_perc_dist_by_velocity_err_weather.py:132-139 | a speed group has a clear-weather mean at a distance exactly when some clear row of that group lies at that distance |
| PerceptionDashboards.OtherWeathersDoNotMoveClearMeans | model/data_visualization/features/avg_perc_dist_by_velocity_err_weather.py:132-150 | adding rain or night rows leaves both clear-only mean curves unchanged |
| PerceptionDashboards.GroupWithoutClearRowsIsNotDrawn | model/data_visualization/features/avg_perc_dist_by_velocity_err_weather.py:133-163 | a speed group with no clear row gets no mean curve at any distance |
| PerceptionDashboards.WeatherMeanIsWithinItsRows | model/data_visualization/features/avg_perc_dist_by_weather_err_velocity.py:139-142 | a weather's mean perceived distance at a distance with rows exists and lies between the smallest and largest value of those rows |
| PerceptionDashboards.WeatherMeanTime | model/data_visualization/features/avg_perc_dist_by_weather_err_velocity.py:145-149 | a weather has a mean perceived time at a real time exactly when some row of that weather lies at that real time; the mean runs over every speed |
| PerceptionDashboards.StdDistance | model/data_visualization/features/avg_perc_dist_by_velocity_err_weather.py:142-145 | the spread behind a distance error bar (distance, speed group, weather) exists exactly when the cell holds two rows, and is never negative; the other page groups it the same way (lines 154-157 of avg_perc_dist_by_weather_err_velocity.py) |
| PerceptionDashboards.StdTime | model/data_visualization/features/avg_perc_dist_by_velocity_err_weather.py:154-157 | the spread behind a time error bar (real time, speed group, weather) exists exactly when the cell holds two rows, and is never negative; the other page groups it the same way (lines 159-162 of avg_perc_dist_by_weather_err_velocity.py) |
| PerceptionDashboards.UnanimousCellHasNoSpread | model/data_visualization/features/avg_perc_dist_by_velocity_err_weather.py:142-145 | a cell whose rows all perceived the same distance has spread 0 |
| PerceptionDashboards.BarOffset | model/data_visualization/features/avg_perc_dist_by_velocity_err_weather.py:51 | the first of the table's three keys is shifted by -0.1, the last by 0.1, the middle key and any other key by 0.0: OFFSETS gives clear -0.1, rain 0.0, night 0.1, and VELOCITY_OFFSETS (line 53 of avg_perc_dist_by_weather_err_velocity.py) gives low -0.1, medium 0.0, high 0.1 |
| PerceptionDashboards.BarsAreSeparated | model/data_visualization/features/avg_perc_dist_by_velocity_err_weather.py:213-241 | on both pages (also lines 215-240 of avg_perc_dist_by_weather_err_velocity.py), the bars of two different weathers, or of two different speed groups, sit at different x, at most 0.1 from the point on the distance axis and 0.01 on the time axis |
| PerceptionDashboards.LoadDelta | model/data_visualization/features/bar_perception_delta.py:93-123 | the bar page keeps every complete row, in order, with its delta and speed group |
| PerceptionDashboards.DeltaIsPerceivedMinusReal | model/data_visualization/features/bar_perception_delta.py:96-98 | the delta is the SQL difference on the row's own table row, so delta plus distance is the perceived distance |
| PerceptionDashboards.StoppedRowsReachOnlyTheBarPage | model/data_visualization/features/bar_perception_delta.py:115-123 | a complete row with speed 0 appears on the bar page but never on the time pages |
| PerceptionDashboards.WeatherColor | model/data_visualization/features/bar_perception_delta.py:158 | the grey fallback is used exactly for a weather outside clear, rain and night (with lines 37-41 of the same file) |
| PerceptionDashboards.WeatherKeys | model/data_visualization/features/bar_perception_delta.py:142 | the distinct weathers: no repetition, every row's weather is one, every one is some row's weather, in order of first appearance |
| PerceptionDashboards.GroupKeys | model/data_visualization/features/bar_perception_delta.py:179 | the distinct speed groups: no repetition, every row's group is one, every one is some row's group, in order of first appearance |
| PerceptionDashboards.WeatherBars | model/data_visualization/features/bar_perception_delta.py:140-175 | one bar series per distinct weather, each in its weather's colour |
| PerceptionDashboards.SpeedBars | model/data_visualization/features/bar_perception_delta.py:177-200 | one bar series per distinct speed group, each in its group's colour |
| PerceptionDashboards.EveryRowHasOneWeatherSeries | model/data_visualization/features/bar_perception_delta.py:142-147 | every row belongs to exactly one weather series |
| PerceptionDashboards.EveryRowHasOneSpeedSeries | model/data_visualization/features/bar_perception_delta.py:179-184 | every row belongs to exactly one speed series, and a speed outside the groups lands in a grey unknown series (with lines 54-64 of the same file) |
| PerceptionDashboards.BarMean | model/data_visualization/features/bar_perception_delta.py:145-156 | a bar has a mean at a distance exactly when some row of its series lies at that distance |
| PerceptionDashboards.BarIsWithinItsRows | model/data_visualization/features/bar_perception_delta.py:145-156 | a bar's mean at a distance with rows lies between the smallest and largest delta there |
| PerceptionDashboards.BarStd | model/data_visualization/features/bar_perception_delta.py:145-159 | the spread behind a bar's error bar exists exactly when two rows of the series lie at that distance, and is never negative |
| TrialCommands.WeatherFlags | vr-experiment/scripts/generate_participant_plan_exp1.py:17-21 | clear sets no flag, night sets only the light, rain sets rain and cloud |
| TrialCommands.FlagWordsNameTheWeather | vr-experiment/scripts/generate_participant_plan_exp1.py:76-82 | two weathers that append the same flag words are the same weather |
| TrialCommands.YesNo | vr-experiment/scripts/generate_participant_plan_exp2.py:86-88 | the cell reads "VRAI" exactly when the flag is set and "FAUX" exactly when it is not |
| TrialCommands.WordsOfJoin | vr-experiment/scripts/generate_participant_plan_exp1.py:74-82 | splitting at an inserted space splits the two sides independently |
| TrialCommands.SplitJoinRoundTrip | vr-experiment/scripts/generate_participant_plan_exp1.py:74-82 | splitting a command line joined from space-free words gives those words back |
| TrialCommands.AppendFlags | vr-experiment/scripts/generate_participant_plan_exp1.py:76-82 | the three conditional appends add exactly " -r True", " -c True" and " -l True" for the set flags, in that order |
| TrialCommands.FlagWordsHaveNoSpace | vr-experiment/scripts/generate_participant_plan_exp1.py:77-82 | no flag word contains a space |
| TrialCommands.SwapPermutes | vr-experiment/scripts/generate_participant_plan_exp1.py:134 | exchanging two entries keeps the multiset of entries |
| TrialCommands.ShufflePermutes | vr-experiment/scripts/generate_participant_plan_exp1.py:134 | random.shuffle with any valid draws is a permutation of its input |
| TrialCommands.Shuffle | vr-experiment/scripts/generate_participant_plan_exp2.py:93 | the in-place loop leaves the array as the reference shuffle of its old contents under the draws |
| PlanExp1.CombinationsAreTheOrderedPairs | vr-experiment/scripts/generate_participant_plan_exp1.py:30-43 | there are four distinct combinations, and a pair is one exactly when both its groups are group1 or group2 |
| PlanExp1.AllCombinations | vr-experiment/scripts/generate_participant_plan_exp1.py:39-43 | the nested loops return the combinations in loop order |
| PlanExp1.Trials | vr-experiment/scripts/generate_participant_plan_exp1.py:67-97 | a participant has 27 trials |
| PlanExp1.CommandHead | vr-experiment/scripts/generate_participant_plan_exp1.py:74 | the f-string head equals the joined words py, .\run_trial.py, -v V, -d D, -pos P |
| PlanExp1.BuildTrial | vr-experiment/scripts/generate_participant_plan_exp1.py:72-95 | the innermost loop body builds the trial's command line and row |
| PlanExp1.TrialStep | vr-experiment/scripts/generate_participant_plan_exp1.py:68-95 | each innermost iteration extends the trials built so far by the next one in loop order |
| PlanExp1.CommandsForParticipant | vr-experiment/scripts/generate_participant_plan_exp1.py:49-97 | the three nested loops return the 27 trials in speed, distance, weather order |
| PlanExp1.TrialsShareOnePosition | vr-experiment/scripts/generate_participant_plan_exp1.py:64-87 | every trial of a participant uses the participant's single position |
| PlanExp1.EveryTripleHasItsRow | vr-experiment/scripts/generate_participant_plan_exp1.py:68-93 | trial 9a + 3b + w has speed a, distance b and weather w with that weather's flags |
| PlanExp1.NoTripleTwice | vr-experiment/scripts/generate_participant_plan_exp1.py:68-70 | with distinct speeds and distances no (speed, distance, weather) triple occurs twice |
| PlanExp1.CommandReadsBack | vr-experiment/scripts/generate_participant_plan_exp1.py:74-82 | a trial's command line splits back into its speed, distance, position and weather flags |
| PlanExp1.Repeat | vr-experiment/scripts/generate_participant_plan_exp1.py:126 | all_combinations * q has q times as many entries |
| PlanExp1.Pick | vr-experiment/scripts/generate_participant_plan_exp1.py:131 | the sampled combinations are those at the drawn indices, in draw order |
| PlanExp1.Allocate | vr-experiment/scripts/generate_participant_plan_exp1.py:118-134 | the allocation is the replicated combinations plus the sampled remainder, shuffled by the draws |
| PlanExp1.RepeatCount | vr-experiment/scripts/generate_participant_plan_exp1.py:126 | each of the distinct combinations occurs q times in all_combinations * q |
| PlanExp1.PickCount | vr-experiment/scripts/generate_participant_plan_exp1.py:131 | a sample of distinct indices holds a combination once if its index was drawn and otherwise not at all |
| PlanExp1.AllocationIsBalanced | vr-experiment/scripts/generate_participant_plan_exp1.py:122-134 | there is one combination per participant and each goes to num // 4 participants, plus one when it was sampled |
| PlanExp1.ReorderedAtPosition | vr-experiment/scripts/generate_participant_plan_exp1.py:146-154 | reordering trials that all belong to one participant at one position keeps that so |
| PlanExp1.Sheet | vr-experiment/scripts/generate_participant_plan_exp1.py:146-154 | a sheet lists the 27 trials, reordered but each as often, all of the participant at the participant's position |
| PlanExp1.PlansForParticipants | vr-experiment/scripts/generate_participant_plan_exp1.py:140-154 | participant k + 1 gets the shuffled sheet of the k-th allocated combination; every trial on it is the participant's, at the position drawn by randint(0, 2) (with line 65 of the same file) |
| PlanExp1.SampleRows | vr-experiment/scripts/generate_participant_plan_exp1.py:153-154 | df.sample(frac=1) gives the rows in the order the draws give |
| PlanExp1.RepeatMembers | vr-experiment/scripts/generate_participant_plan_exp1.py:126 | every replicated combination is one of the originals |
| PlanExp1.AllocatedAreCombinations | vr-experiment/scripts/generate_participant_plan_exp1.py:126-134 | every allocated pair is one of the four combinations, each with three speeds and three distances |
| PlanExp2.Rows | vr-experiment/scripts/generate_participant_plan_exp2.py:58-90 | a participant has 27 rows |
| PlanExp2.CommandHead | vr-experiment/scripts/generate_participant_plan_exp2.py:70 | the f-string head equals the joined words py, .\run_trial.py, -v V, -pos P |
| PlanExp2.BuildRow | vr-experiment/scripts/generate_participant_plan_exp2.py:69-90 | the innermost loop body builds the row's command line and its VRAI/FAUX columns |
| PlanExp2.RowStep | vr-experiment/scripts/generate_participant_plan_exp2.py:61-90 | each innermost iteration extends the rows built so far by the next one in loop order |
| PlanExp2.BuildRows | vr-experiment/scripts/generate_participant_plan_exp2.py:58-90 | the three nested loops return the 27 rows in speed, weather, position order |
| PlanExp2.EveryTripleHasItsRow | vr-experiment/scripts/generate_participant_plan_exp2.py:61-90 | row 9a + 3w + p belongs to the participant and has speed a, weather w and position p |
| PlanExp2.NoTripleTwice | vr-experiment/scripts/generate_participant_plan_exp2.py:61-67 | with distinct speeds no (speed, weather, position) triple occurs twice |
| PlanExp2.FlagColumnsFollowTheTable | vr-experiment/scripts/generate_participant_plan_exp2.py:18-88 | each flag column says VRAI exactly when the row's weather sets the flag and FAUX exactly when it does not |
| PlanExp2.CommandReadsBack | vr-experiment/scripts/generate_participant_plan_exp2.py:70-78 | a row's command line splits back into its speed, position and weather flags |
| PlanExp2.SheetIsAPermutation | vr-experiment/scripts/generate_participant_plan_exp2.py:93 | the shuffled sheet holds every generated row, as often, and nothing else |
| PlanExp2.Planner.constructor | vr-experiment/scripts/generate_participant_plan_exp2.py:31 | both group counters start at 0 |
| PlanExp2.Planner.GenerateCommands | vr-experiment/scripts/generate_participant_plan_exp2.py:37-95 | the chosen group's counter goes up by one, the other stays, and the sheet is the chosen group's rows shuffled |
| PlanExp2.Planner.GenerateAll | vr-experiment/scripts/generate_participant_plan_exp2.py:101-104 | ten participants are processed, each counter grows by the number of choices of its group, and participant k + 1 gets sheet k (with line 28 of the same file) |
| PlanExp2.Planner.Serve | vr-experiment/scripts/generate_participant_plan_exp2.py:101-104 | one pass of the participant loop raises exactly the chosen group's counter by one and appends that participant's sheet |
| PlanExp2.Sheets | vr-experiment/scripts/generate_participant_plan_exp2.py:101-104 | there is one sheet per choice |
| PlanExp2.ParticipantSheet | vr-experiment/scripts/generate_participant_plan_exp2.py:58-95 | the loops followed by the shuffle give the participant's sheet |
| PlanExp2.ShuffleRows | vr-experiment/scripts/generate_participant_plan_exp2.py:93 | the shuffle gives the rows in the order the draws give |
| PlanExp2.CountChoices | vr-experiment/scripts/generate_participant_plan_exp2.py:56 | no group is chosen more often than there are choices |
| PlanExp2.CountsAddUp | vr-experiment/scripts/generate_participant_plan_exp2.py:55-56 | every participant's choice is one of the two groups, so the two counts add up to the participants |

## Left out

- Simulator, process and database plumbing:
  - `run_trial.py` (the CARLA client and its tick loop) and `run_full_session.py` (subprocess calls and `input()`): simulator I/O and concurrency, not part of this model.
  - The database connection helpers, the ETL insert scripts and the app's page dispatch: connection handling and row insertion only.
  - The SQL queries themselves: a query result is a sequence of rows given as input.
- Rendering: all Plotly, Streamlit, matplotlib and OpenCV rendering, Excel export and `print` output. The model stops at the traces, rows and colours handed to the renderer. This covers the column styling of `_style_corr`: the model keeps its green-row rule and the per-cell `< 0.01` test, not the CSS strings.
- File access:
  - File reading and CSV parsing, including `read_csv`'s separator fallback and JSON decoding of the stored lists. A decoded list is given as a sequence of optional numbers.
  - JSON decoding errors for malformed stored text.
  - `glob`, `os.path.isdir`, directory listings and point-cloud loading: these are function parameters.
- Trial inputs:
  - The Excel input sheets (`load_exp1_excel`, `load_inputs_exp2`) and the trial-directory discovery of both log analyses. A trial's inputs arrive as values.
  - The per-trial computations in between these loading steps are modelled, from the two read logs onwards, the Time join included.
- Exp2Log.Merge: a NaN time is dropped at the join, whereas pandas matches NaN keys with each other and the dropna that follows removes those rows; the trial is the same. The rows follow the peds log line by line, as pandas 2.2 and later order an inner join; earlier pandas versions group the lines of a repeated time together, which the model does not capture.
- Floating point: IEEE rounding is not modelled, since floats are reals. Python's half-to-even `round` is written out, because binarisation depends on it.
- Pattern matching:
  - `\d` in the number pattern matches ASCII digits only.
  - There is no Unicode case folding; `lower()` acts on ASCII letters.
  - Path normalisation by `pathlib` beyond base names and suffixes is not modelled.
- Library numerics:
  - `LinearRegression`, `KFold` and `train_test_split` are parameters.
  - The test-set metrics printed by `train.py` (MAE, RMSE, R²) and its standard deviations are not modelled.
  - `numpy.percentile`, `math.hypot` and the scipy p-values are parameters.
- Column names: two columns that rename to the same name give pandas a duplicated column, which its column selection then returns twice. The header model treats a name as present or absent only.
- Order-related behaviour:
  - The order in which `groupby` lists its groups is not modelled. Means are stated per key.
  - Where rows with equal keys land after pandas' default sort is not modelled.
- BpiAnnotate.AnnotateFile: the frame is taken as already sorted by the column `pick_time_col` chooses. The `sort_values` call and the `_idx` column of its index fallback are not modelled, since the model reads columns only by their suffix.
- BpiAnnotate.AnnotateFile: the optional `img_valid` lookup is not modelled, because `REQUIRE_IMG_VALID` is `False` and the column is then never read.
- Training.MeanCoefs: with zero folds the source raises an IndexError when it slices the empty coefficient array; the model returns None instead.
- Training: `FEATURES` and `TARGET` are read from the configuration. The configuration file is not part of this model, which fixes the predictors to height, height² and velocity_exp2 and the target to avg_safety_time, the four coefficients the behaviour model uses.
- Training.TagRows: the NaN-fill of `pd.concat` is modelled for height, velocity_exp2 and avg_safety_distance only. Every other column is summed up in the per-line flag `othersComplete`, so a further column that only some files carry must be reflected by the caller as `othersComplete == false` on the other files' lines.
- Exp1Log.Aggregate: the sorted order of the keys (`sort_values(by=key)`) is an input; the model does not sort the keys itself.
- CrossingSeries.FloatError: the error text is a constant; Python's message also quotes the value that failed to convert. A JSON null inside the list makes float(None) raise a TypeError rather than a ValueError; the model folds it into the same failure (None, with this message).
- Training.ToSamples: the infinity error is the fixed text "ValueError: Input contains infinity"; scikit-learn's own message is longer. Only when the error is raised is modelled.
- Exp1Log.MetricsTable: reports the mean square error and the variance instead of RMSE and the standard deviation, because the square root is not modelled; RMSE ≥ |bias| is therefore not proved, only MAE ≥ |bias|.
- PerceptionDashboards.StdDistance: gives the ddof=1 variance of the cell, not the standard deviation the error bar draws, because the square root is not modelled.
- PerceptionDashboards.StdTime: gives the variance, not its square root, for the same reason.
- PerceptionDashboards.BarStd: gives the variance, not its square root, for the same reason.
- PerceptionDashboards.SortByKey: equal keys keep one fixed order; the contract promises key order and a permutation, which is all pandas' default (unstable) sort promises.
- PlanExp2.Planner.GenerateAll: processes exactly ten participants, the fixed `range(1, 11)` of the script.
- PlanExp2.Planner: `group_counts` is indexed by the group's position in `groups` (0 or 1), not by `str(group)`; the two keys correspond one to one.

## Findings

| source | as written | input that shows it | evidently intended | confidence | as-written member | corrected member |
|---|---|---|---|---|---|---|
| vr-experiment/analysis/analyze_exp2_log.py:232 | `compute_trial_exp2` drops every merged row with a NaN in any column. `read_cars` fills a missing speed column `X_vel` with NaN (lines 112-113), so every row is dropped. | a cars log with Time and X_cars but no speed column | drop only rows whose Time, X_cars or crossing value is NaN, since `X_vel` is optional and unused by the trial computation | not executed | Exp2Log.ComputeTrialAsWritten (with Exp2Log.MissingSpeedEmptiesTrialAsWritten and Exp2Log.MissingSpeedWitness) | Exp2Log.ComputeTrial |

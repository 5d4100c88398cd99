/** The forecasting service: training-series sanitisation, the linear-trend forecast, the
    rolling-origin backtest and the stored forecast run. numpy's `polyfit`, `percentile`,
    `std` and `sqrt` are parameters (see `Numerics`). */
module Forecasting {
  import opened Wrappers
  import opened Numeric
  import opened Store
  import Text
  import Series
  import StableSort
  import Lists

  const MaxTrainingPoints := 25
  const MinTrainingPoints := 8
  const BacktestMinValues := 10
  const BacktestMinPrefix := 5
  const IntervalZ := 1.96

  /** A fitted line `slope * year + intercept`. */
  datatype Line = Line(slope: real, intercept: real)

  /** numpy's numerics: `polyfit(x, y, deg=1)`, `percentile(y, q)`, `std(y)` and `sqrt`. */
  datatype Numerics = Numerics(
    polyfit: (seq<int>, seq<real>) -> Line,
    percentile: (seq<real>, real) -> real,
    std: seq<real> -> real,
    sqrt: real -> real)

  /** The only laws the model assumes: a standard deviation is never negative, and `sqrt`
      is a square root. */
  ghost predicate Lawful(num: Numerics) {
    (forall xs :: num.std(xs) >= 0.0) && IsSqrt(num.sqrt)
  }

  function Predict(line: Line, year: int): real {
    line.slope * year as real + line.intercept
  }

  /** A training sample `(int(year), float(value))`. */
  datatype Sample = Sample(year: int, value: real)

  function SampleYear(s: Sample): int { s.year }

  // ----- sanitize_training_series -----

  /** `zip(years, values)`: as long as the shorter input. */
  function Zip(years: seq<int>, values: seq<Option<real>>): (r: seq<Series.Point>)
    ensures |r| == MinI(|years|, |values|)
    ensures forall i :: 0 <= i < |r| ==> r[i] == Series.Point(years[i], values[i])
  {
    seq(MinI(|years|, |values|), i requires 0 <= i < MinI(|years|, |values|) => Series.Point(years[i], values[i]))
  }

  function ToSamples(ps: seq<Series.Point>): (r: seq<Sample>)
    requires forall i :: 0 <= i < |ps| ==> ps[i].value.Some?
    ensures |r| == |ps|
    ensures forall i :: 0 <= i < |ps| ==> r[i] == Sample(ps[i].year, ps[i].value.value)
  {
    seq(|ps|, i requires 0 <= i < |ps| => Sample(ps[i].year, ps[i].value.value))
  }

  /** The pairs with a value, sorted (stably) by year. */
  function Paired(years: seq<int>, values: seq<Option<real>>): (r: seq<Sample>)
    ensures multiset(r) == multiset(ToSamples(Series.Valued(Zip(years, values))))
    ensures StableSort.SortedBy(r, SampleYear, StableSort.IntLe)
  {
    StableSort.IntLeIsTotal();
    StableSort.Sort(ToSamples(Series.Valued(Zip(years, values))), SampleYear, StableSort.IntLe)
  }

  /** `paired[-max_points:]` applied when `len(paired) > max_points`; Python's negative slice,
      so `max_points == 0` keeps everything and a negative one drops a prefix. */
  function KeepRecent<T>(s: seq<T>, maxPoints: int): (r: seq<T>)
    ensures |r| <= |s| && r == s[|s| - |r|..]
    ensures maxPoints >= 1 ==> |r| == MinI(|s|, maxPoints)
  {
    if |s| <= maxPoints then s
    else if maxPoints > 0 then s[|s| - maxPoints..]
    else if maxPoints == 0 then s
    else if -maxPoints < |s| then s[-maxPoints..]
    else []
  }

  function SampleValues(ps: seq<Sample>): (r: seq<real>)
    ensures |r| == |ps|
    ensures forall i :: 0 <= i < |ps| ==> r[i] == ps[i].value
  {
    seq(|ps|, i requires 0 <= i < |ps| => ps[i].value)
  }

  function SampleYears(ps: seq<Sample>): (r: seq<int>)
    ensures |r| == |ps|
    ensures forall i :: 0 <= i < |ps| ==> r[i] == ps[i].year
  {
    seq(|ps|, i requires 0 <= i < |ps| => ps[i].year)
  }

  /** `np.clip(y, lower, upper)`. */
  function Clip(y: seq<real>, lower: real, upper: real): (r: seq<real>)
    ensures |r| == |y|
    ensures lower <= upper ==> forall i :: 0 <= i < |y| ==> lower <= r[i] <= upper
    ensures forall i :: 0 <= i < |y| ==> (lower <= y[i] <= upper ==> r[i] == y[i])
  {
    seq(|y|, i requires 0 <= i < |y| => MinR(MaxR(y[i], lower), upper))
  }

  /** Winsorisation at the 5th/95th percentile, only with at least 8 values and only when the
      percentiles are ordered. */
  function Winsorize(num: Numerics, y: seq<real>): (r: seq<real>)
    ensures |r| == |y|
    ensures |y| < MinTrainingPoints ==> r == y
    ensures |y| >= MinTrainingPoints && num.percentile(y, 5.0) <= num.percentile(y, 95.0) ==>
      forall i :: 0 <= i < |y| ==> num.percentile(y, 5.0) <= r[i] <= num.percentile(y, 95.0)
    ensures |y| >= MinTrainingPoints && num.percentile(y, 5.0) > num.percentile(y, 95.0) ==> r == y
  {
    if |y| >= MinTrainingPoints then
      var lower, upper := num.percentile(y, 5.0), num.percentile(y, 95.0);
      if lower <= upper then Clip(y, lower, upper) else y
    else y
  }

  datatype Training = Training(x: seq<int>, y: seq<real>)

  /** The recent samples the model is trained on. */
  function RecentSamples(years: seq<int>, values: seq<Option<real>>, maxPoints: int): seq<Sample> {
    KeepRecent(Paired(years, values), maxPoints)
  }

  /** `sanitize_training_series(years, values, max_points)`. */
  function Sanitize(num: Numerics, years: seq<int>, values: seq<Option<real>>, maxPoints: int): (r: Training)
    ensures |r.x| == |r.y| == |RecentSamples(years, values, maxPoints)|
    ensures maxPoints >= 1 ==> |r.x| == MinI(|Series.Valued(Zip(years, values))|, maxPoints)
    ensures Series.Valued(Zip(years, values)) == [] ==> r == Training([], [])
    ensures forall i, j :: 0 <= i < j < |r.x| ==> r.x[i] <= r.x[j]
    ensures r.x == SampleYears(RecentSamples(years, values, maxPoints))
    ensures r.y == Winsorize(num, SampleValues(RecentSamples(years, values, maxPoints)))
  {
    var paired := RecentSamples(years, values, maxPoints);
    PairedLength(years, values);
    RecentAscending(years, values, maxPoints);
    if |paired| == 0 then Training([], [])
    else Training(SampleYears(paired), Winsorize(num, SampleValues(paired)))
  }

  lemma PairedLength(years: seq<int>, values: seq<Option<real>>)
    ensures |Paired(years, values)| == |Series.Valued(Zip(years, values))|
  {
    var all := Paired(years, values);
    assert |multiset(all)| == |multiset(ToSamples(Series.Valued(Zip(years, values))))|;
  }

  lemma RecentAscending(years: seq<int>, values: seq<Option<real>>, maxPoints: int)
    ensures var paired := RecentSamples(years, values, maxPoints);
      forall i, j :: 0 <= i < j < |paired| ==> paired[i].year <= paired[j].year
  {
    var all := Paired(years, values);
    var paired := RecentSamples(years, values, maxPoints);
    assert paired == all[|all| - |paired|..];
    SuffixAscending(all, |all| - |paired|);
  }

  /** A suffix of a year-sorted sequence is year-sorted. */
  lemma SuffixAscending(all: seq<Sample>, off: nat)
    requires StableSort.SortedBy(all, SampleYear, StableSort.IntLe)
    requires off <= |all|
    ensures forall i, j :: 0 <= i < j < |all[off..]| ==> all[off..][i].year <= all[off..][j].year
  {
    forall i, j | 0 <= i < j < |all[off..]|
      ensures all[off..][i].year <= all[off..][j].year
    {
      assert StableSort.IntLe(SampleYear(all[off + i]), SampleYear(all[off + j]));
    }
  }

  /** Every kept sample is at least as recent as every dropped one: the trimming keeps the
      latest years. */
  lemma SanitizeKeepsLatest(years: seq<int>, values: seq<Option<real>>, maxPoints: int, i: int, j: int)
    requires 0 <= i < |Paired(years, values)| - |RecentSamples(years, values, maxPoints)| <= j < |Paired(years, values)|
    ensures Paired(years, values)[i].year <= Paired(years, values)[j].year
    ensures Paired(years, values)[j] in RecentSamples(years, values, maxPoints)
  {
    var all := Paired(years, values);
    var kept := RecentSamples(years, values, maxPoints);
    assert StableSort.IntLe(SampleYear(all[i]), SampleYear(all[j]));
    assert kept[j - (|all| - |kept|)] == all[j];
  }

  /** The samples are exactly the zipped pairs that have a value: nothing with a null value
      survives and nothing with a value is lost before trimming. */
  lemma PairedDropsNulls(years: seq<int>, values: seq<Option<real>>, s: Sample)
    ensures multiset(Paired(years, values))[s] ==
      multiset(Series.Valued(Zip(years, values)))[Series.Point(s.year, Some(s.value))]
  {
    var v := Series.Valued(Zip(years, values));
    ToSamplesCount(v, s);
  }

  lemma {:induction false} ToSamplesCount(ps: seq<Series.Point>, s: Sample)
    requires forall i :: 0 <= i < |ps| ==> ps[i].value.Some?
    ensures multiset(ToSamples(ps))[s] == multiset(ps)[Series.Point(s.year, Some(s.value))]
  {
    if |ps| > 0 {
      var init := ps[..|ps| - 1];
      ToSamplesCount(init, s);
      assert ps == init + [ps[|ps| - 1]];
      assert ToSamples(ps) == ToSamples(init) + [ToSamples(ps)[|ps| - 1]];
    }
  }

  // ----- linear_forecast -----

  datatype LinearResult = LinearResult(years: seq<int>, predictions: seq<real>, std: real)

  function Residuals(line: Line, values: seq<real>, years: seq<int>): (r: seq<real>)
    requires |values| == |years|
    ensures |r| == |values|
    ensures forall i :: 0 <= i < |values| ==> r[i] == values[i] - Predict(line, years[i])
  {
    seq(|values|, i requires 0 <= i < |values| => values[i] - Predict(line, years[i]))
  }

  /** `range(first, first + count)`. */
  function YearRange(first: int, count: int): (r: seq<int>)
    ensures |r| == MaxI(0, count)
    ensures forall i :: 0 <= i < |r| ==> r[i] == first + i
  {
    seq(MaxI(0, count), i requires 0 <= i < MaxI(0, count) => first + i)
  }

  /** `linear_forecast(values, years, horizon)`: `horizon` consecutive years after the last
      training year, the fitted line's value at each, and the residual standard deviation
      (0 for a single point). */
  function LinearForecast(num: Numerics, values: seq<real>, years: seq<int>, horizon: int): (r: LinearResult)
    requires |years| > 0 && |values| == |years|
    ensures |r.years| == |r.predictions| == MaxI(0, horizon)
    ensures forall i :: 0 <= i < |r.years| ==> r.years[i] == years[|years| - 1] + 1 + i
    ensures forall i :: 0 <= i < |r.years| ==> r.predictions[i] == Predict(num.polyfit(years, values), r.years[i])
    ensures |years| <= 1 ==> r.std == 0.0
  {
    var line := num.polyfit(years, values);
    var future := YearRange(years[|years| - 1] + 1, horizon);
    var predictions := seq(|future|, i requires 0 <= i < |future| => Predict(line, future[i]));
    var residuals := Residuals(line, values, years);
    LinearResult(future, predictions, if |residuals| > 1 then num.std(residuals) else 0.0)
  }

  lemma LinearForecastStdNonNegative(num: Numerics, values: seq<real>, years: seq<int>, horizon: int)
    requires Lawful(num)
    requires |years| > 0 && |values| == |years|
    ensures LinearForecast(num, values, years, horizon).std >= 0.0
  {
  }

  // ----- backtest_linear -----

  /** The errors of the loop over `idx in range(lo, hi)`: fit on the prefix before `idx`,
      predict year `idx`, skipping prefixes shorter than 5. */
  function BacktestErrors(num: Numerics, values: seq<real>, years: seq<int>, lo: int, hi: int): (r: seq<real>)
    requires 0 <= lo <= hi <= |values| && |values| == |years|
    ensures |r| <= hi - lo
    decreases hi - lo
  {
    if lo == hi then []
    else
      var rest := BacktestErrors(num, values, years, lo, hi - 1);
      var idx := hi - 1;
      if idx < BacktestMinPrefix then rest
      else rest + [ErrorAt(num, values, years, idx)]
  }

  /** The error at `idx`: the actual value minus the prediction of the line fitted to the
      points before `idx`. */
  function ErrorAt(num: Numerics, values: seq<real>, years: seq<int>, idx: int): real
    requires 0 <= idx < |values| && |values| == |years|
  {
    values[idx] - Predict(num.polyfit(years[..idx], values[..idx]), years[idx])
  }

  /** With every prefix at least 5 long, each index contributes its error, in order. */
  lemma {:induction false} BacktestErrorsAll(num: Numerics, values: seq<real>, years: seq<int>, lo: int, hi: int)
    requires BacktestMinPrefix <= lo <= hi <= |values| && |values| == |years|
    ensures |BacktestErrors(num, values, years, lo, hi)| == hi - lo
    ensures forall j :: 0 <= j < hi - lo ==> BacktestErrors(num, values, years, lo, hi)[j] == ErrorAt(num, values, years, lo + j)
    decreases hi - lo
  {
    if lo < hi {
      BacktestErrorsAll(num, values, years, lo, hi - 1);
    }
  }

  /** `k = max(1, min(test_points, n - 5))`. */
  function BacktestWindow(n: int, testPoints: int): (k: int)
    ensures k >= 1
    ensures n >= 6 ==> k <= n - 5
    ensures testPoints >= 1 ==> k <= testPoints
    ensures k >= MinI(testPoints, n - 5)
    ensures k == 1 || k == testPoints || k == n - 5
  {
    MaxI(1, MinI(testPoints, n - 5))
  }


  function AbsAll(es: seq<real>): (r: seq<real>)
    ensures |r| == |es|
    ensures forall i :: 0 <= i < |es| ==> r[i] == Abs(es[i])
  {
    seq(|es|, i requires 0 <= i < |es| => Abs(es[i]))
  }

  function SquareAll(es: seq<real>): (r: seq<real>)
    ensures |r| == |es|
    ensures forall i :: 0 <= i < |es| ==> r[i] == es[i] * es[i]
  {
    seq(|es|, i requires 0 <= i < |es| => es[i] * es[i])
  }

  /** `backtest_linear(values, years, test_points)`: None below 10 values; otherwise the last
      `k` points are each predicted from the fit on all earlier points. */
  function BacktestLinear(num: Numerics, values: seq<real>, years: seq<int>, testPoints: int): (r: Option<BacktestScore>)
    requires |values| == |years|
    ensures |values| < BacktestMinValues <==> r.None?
    ensures r.Some? ==> r.value.points == BacktestWindow(|values|, testPoints) && 1 <= r.value.points <= |values| - 5
  {
    var n := |values|;
    if n < BacktestMinValues then None
    else
      var k := BacktestWindow(n, testPoints);
      var errors := BacktestErrors(num, values, years, n - k, n);
      BacktestErrorsAll(num, values, years, n - k, n);
      if |errors| == 0 then None
      else Some(BacktestScore(|errors|, Mean(AbsAll(errors)), num.sqrt(Mean(SquareAll(errors)))))
  }

  /** The backtest scores are never negative. */
  lemma BacktestScoresNonNegative(num: Numerics, values: seq<real>, years: seq<int>, testPoints: int)
    requires Lawful(num)
    requires |values| == |years|
    requires BacktestLinear(num, values, years, testPoints).Some?
    ensures BacktestLinear(num, values, years, testPoints).value.mae >= 0.0
    ensures BacktestLinear(num, values, years, testPoints).value.rmse >= 0.0
  {
    var n := |values|;
    var k := BacktestWindow(n, testPoints);
    var errors := BacktestErrors(num, values, years, n - k, n);
    var score := BacktestLinear(num, values, years, testPoints).value;
    assert score.mae == Mean(AbsAll(errors)) && score.rmse == num.sqrt(Mean(SquareAll(errors)));
    assert forall i :: 0 <= i < |errors| ==> AbsAll(errors)[i] >= 0.0;
    MeanNonNegative(AbsAll(errors));
    SquareAllNonNegative(errors);
    MeanNonNegative(SquareAll(errors));
  }

  lemma SquareAllNonNegative(es: seq<real>)
    ensures forall i :: 0 <= i < |es| ==> SquareAll(es)[i] >= 0.0
  {
    forall i | 0 <= i < |es|
      ensures SquareAll(es)[i] >= 0.0
    {
      SquareNonNegative(es[i]);
    }
  }


  // ----- run_forecast -----

  /** One forecast point with the interval `value -+ 1.96 * std`. */
  function PointFor(runId: int, year: int, value: real, std: real): ForecastPointRow {
    ForecastPointRow(runId, year, value, Some(value - IntervalZ * std), Some(value + IntervalZ * std))
  }

  lemma IntervalContainsValue(runId: int, year: int, value: real, std: real)
    requires std >= 0.0
    ensures var p := PointFor(runId, year, value, std);
      p.lower.value <= p.value <= p.upper.value && p.upper.value - p.value == p.value - p.lower.value
  {
  }

  function ForecastPoints(runId: int, f: LinearResult): (r: seq<ForecastPointRow>)
    requires |f.years| == |f.predictions|
    ensures |r| == |f.years|
    ensures forall i :: 0 <= i < |r| ==> r[i] == PointFor(runId, f.years[i], f.predictions[i], f.std)
  {
    seq(|f.years|, i requires 0 <= i < |f.years| => PointFor(runId, f.years[i], f.predictions[i], f.std))
  }

  /** The id the database assigns to a new run. */
  function NextRunId(runs: seq<ForecastRun>): int {
    NextId(Lists.Map(runs, (run: ForecastRun) => run.id))
  }

  datatype ForecastResult = ForecastResult(run: ForecastRun, points: seq<ForecastPointRow>)

  /** The stored series of the pair (`prepare_series`), empty when either is unknown. */
  function PreparedSeries(db: Db, countryCode: string, indicatorCode: string): seq<Series.Point> {
    match (FindCountry(db, Text.Upper(countryCode)), FindIndicator(db, indicatorCode))
    case (Some(c), Some(i)) => SeriesOf(db, c.id, i.id)
    case _ => []
  }

  function PointYears(s: seq<Series.Point>): (r: seq<int>)
    ensures |r| == |s|
    ensures forall i :: 0 <= i < |s| ==> r[i] == s[i].year
  {
    seq(|s|, i requires 0 <= i < |s| => s[i].year)
  }

  function PointValues(s: seq<Series.Point>): (r: seq<Option<real>>)
    ensures |r| == |s|
    ensures forall i :: 0 <= i < |s| ==> r[i] == s[i].value
  {
    seq(|s|, i requires 0 <= i < |s| => s[i].value)
  }

  /** The training data `run_forecast` derives from the stored series. */
  function StoredTraining(num: Numerics, db: Db, countryCode: string, indicatorCode: string): Training {
    var valued := Series.Valued(PreparedSeries(db, countryCode, indicatorCode));
    Sanitize(num, PointYears(valued), PointValues(valued), MaxTrainingPoints)
  }

  /** `run_forecast`: None (and the database unchanged) when the pair is unknown, has fewer
      than 8 stored rows, or fewer than 8 sanitised values; otherwise a new run with one
      point per forecast year, appended to the database. */
  function RunForecast(num: Numerics, db: Db, countryCode: string, indicatorCode: string, horizon: int, modelName: string)
    : (r: (Option<ForecastResult>, Db))
    ensures r.0.None? <==>
      |PreparedSeries(db, countryCode, indicatorCode)| < MinTrainingPoints ||
      |StoredTraining(num, db, countryCode, indicatorCode).y| < MinTrainingPoints
    ensures r.0.None? ==> r.1 == db
    ensures r.0.Some? ==>
      var res, t := r.0.value, StoredTraining(num, db, countryCode, indicatorCode);
      && FindCountry(db, Text.Upper(countryCode)).Some? && FindIndicator(db, indicatorCode).Some?
      && res.run.countryId == FindCountry(db, Text.Upper(countryCode)).value.id
      && res.run.indicatorId == FindIndicator(db, indicatorCode).value.id
      && res.run.modelName == modelName && res.run.horizon == horizon
      && res.run.metrics == RunMetrics(LinearForecast(num, t.y, t.x, horizon).std, BacktestLinear(num, t.y, t.x, 5))
      && res.points == ForecastPoints(res.run.id, LinearForecast(num, t.y, t.x, horizon))
      && r.1 == db.(runs := db.runs + [res.run], forecastPoints := db.forecastPoints + res.points)
  {
    if !Trainable(num, db, countryCode, indicatorCode) then (None, db)
    else
      var t := StoredTraining(num, db, countryCode, indicatorCode);
      var res := NewRun(num, NextRunId(db.runs), FindCountry(db, Text.Upper(countryCode)).value.id,
                        FindIndicator(db, indicatorCode).value.id, t, horizon, modelName);
      (Some(res), db.(runs := db.runs + [res.run], forecastPoints := db.forecastPoints + res.points))
  }

  /** The two guards of `run_forecast`: enough stored rows, then enough sanitised values. */
  predicate Trainable(num: Numerics, db: Db, countryCode: string, indicatorCode: string)
    ensures Trainable(num, db, countryCode, indicatorCode) ==>
      && FindCountry(db, Text.Upper(countryCode)).Some? && FindIndicator(db, indicatorCode).Some?
      && |StoredTraining(num, db, countryCode, indicatorCode).x| == |StoredTraining(num, db, countryCode, indicatorCode).y| >= MinTrainingPoints
  {
    |PreparedSeries(db, countryCode, indicatorCode)| >= MinTrainingPoints
    && |StoredTraining(num, db, countryCode, indicatorCode).y| >= MinTrainingPoints
  }

  /** The run trained on `t` under the id `id`, and its forecast points. */
  function NewRun(num: Numerics, id: int, countryId: int, indicatorId: int, t: Training, horizon: int, modelName: string): (res: ForecastResult)
    requires |t.x| > 0 && |t.y| == |t.x|
    ensures res.run == ForecastRun(id, countryId, indicatorId, modelName, horizon,
                                   RunMetrics(LinearForecast(num, t.y, t.x, horizon).std, BacktestLinear(num, t.y, t.x, 5)))
    ensures res.points == ForecastPoints(id, LinearForecast(num, t.y, t.x, horizon))
    ensures |res.points| == MaxI(0, horizon)
    ensures forall i :: 0 <= i < |res.points| ==> res.points[i].runId == id && res.points[i].year == t.x[|t.x| - 1] + 1 + i
  {
    var f := LinearForecast(num, t.y, t.x, horizon);
    ForecastResult(ForecastRun(id, countryId, indicatorId, modelName, horizon, RunMetrics(f.std, BacktestLinear(num, t.y, t.x, 5))),
                   ForecastPoints(id, f))
  }

  /** The stored points belong to the new run and cover the years after the last training
      year, one each, in order. */
  lemma RunForecastPointYears(num: Numerics, db: Db, countryCode: string, indicatorCode: string, horizon: int, modelName: string)
    requires RunForecast(num, db, countryCode, indicatorCode, horizon, modelName).0.Some?
    ensures var res, t := RunForecast(num, db, countryCode, indicatorCode, horizon, modelName).0.value, StoredTraining(num, db, countryCode, indicatorCode);
      && |t.x| >= MinTrainingPoints && |res.points| == MaxI(0, horizon)
      && forall i :: 0 <= i < |res.points| ==> res.points[i].runId == res.run.id && res.points[i].year == t.x[|t.x| - 1] + 1 + i
  {
  }

  /** The new run's id is positive and above every stored run's id. */
  lemma RunForecastFreshId(num: Numerics, db: Db, countryCode: string, indicatorCode: string, horizon: int, modelName: string)
    requires RunForecast(num, db, countryCode, indicatorCode, horizon, modelName).0.Some?
    ensures var id := RunForecast(num, db, countryCode, indicatorCode, horizon, modelName).0.value.run.id;
      id >= 1 && forall i :: 0 <= i < |db.runs| ==> db.runs[i].id < id
  {
    var t := StoredTraining(num, db, countryCode, indicatorCode);
    assert Trainable(num, db, countryCode, indicatorCode);
    assert RunForecast(num, db, countryCode, indicatorCode, horizon, modelName).0.value ==
      NewRun(num, NextRunId(db.runs), FindCountry(db, Text.Upper(countryCode)).value.id,
             FindIndicator(db, indicatorCode).value.id, t, horizon, modelName);
  }


  /** Every stored forecast point brackets its value symmetrically. */
  lemma RunForecastIntervals(num: Numerics, db: Db, countryCode: string, indicatorCode: string, horizon: int, modelName: string, i: int)
    requires Lawful(num)
    requires RunForecast(num, db, countryCode, indicatorCode, horizon, modelName).0.Some?
    requires 0 <= i < |RunForecast(num, db, countryCode, indicatorCode, horizon, modelName).0.value.points|
    ensures var p := RunForecast(num, db, countryCode, indicatorCode, horizon, modelName).0.value.points[i];
      && p.lower.Some? && p.upper.Some?
      && p.lower.value <= p.value <= p.upper.value
      && p.upper.value - p.value == IntervalZ * RunForecast(num, db, countryCode, indicatorCode, horizon, modelName).0.value.run.metrics.residualStd
  {
    var t := StoredTraining(num, db, countryCode, indicatorCode);
    LinearForecastStdNonNegative(num, t.y, t.x, horizon);
  }
}

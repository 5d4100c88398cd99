/** The forecast endpoints: `POST /forecast` (stored run, or a live fallback that is not
    stored) and `GET /forecast/latest`. */
module ForecastApi {
  import opened Wrappers
  import opened Http
  import opened Numeric
  import opened Store
  import opened Forecasting
  import Text
  import Series
  import StableSort

  const MinHorizon := 1
  const MaxHorizon := 20
  const FallbackModel := "linear_trend"

  datatype PointOut = PointOut(year: int, value: real, lower: Option<real>, upper: Option<real>)

  datatype ForecastResponse = ForecastResponse(
    country: string, indicator: string, modelName: string, horizon: int, metrics: RunMetrics, points: seq<PointOut>)

  function ToOut(p: ForecastPointRow): PointOut {
    PointOut(p.year, p.value, p.lower, p.upper)
  }

  function AllOut(ps: seq<ForecastPointRow>): (r: seq<PointOut>)
    ensures |r| == |ps|
    ensures forall i :: 0 <= i < |ps| ==> r[i] == ToOut(ps[i])
  {
    seq(|ps|, i requires 0 <= i < |ps| => ToOut(ps[i]))
  }

  /** `ForecastResponse.from_run(run, points, country, indicator)`. */
  function FromRun(run: ForecastRun, points: seq<ForecastPointRow>, country: string, indicator: string): ForecastResponse {
    ForecastResponse(country, indicator, run.modelName, run.horizon, run.metrics, AllOut(points))
  }

  /** The training data of the live fallback. */
  function LiveTraining(num: Numerics, series: seq<Series.Point>): Training {
    Sanitize(num, PointYears(series), PointValues(series), MaxTrainingPoints)
  }

  /** The response of the live fallback, built from at least 8 training values. */
  function FallbackResponse(num: Numerics, country: string, indicator: string, horizon: int, t: Training): (r: ForecastResponse)
    requires |t.x| == |t.y| && |t.y| >= MinTrainingPoints
    ensures r.country == Text.Upper(country) && r.indicator == indicator && r.modelName == FallbackModel
    ensures r.horizon == horizon && |r.points| == MaxI(0, horizon)
    ensures forall i :: 0 <= i < |r.points| ==> r.points[i].year == t.x[|t.x| - 1] + 1 + i
    ensures forall i :: 0 <= i < |r.points| ==>
      r.points[i].lower == Some(r.points[i].value - IntervalZ * r.metrics.residualStd) &&
      r.points[i].upper == Some(r.points[i].value + IntervalZ * r.metrics.residualStd)
  {
    var f := LinearForecast(num, t.y, t.x, horizon);
    var metrics := RunMetrics(f.std, BacktestLinear(num, t.y, t.x, 5));
    ForecastResponse(Text.Upper(country), indicator, FallbackModel, horizon, metrics, AllOut(ForecastPoints(0, f)))
  }

  /** `create_forecast`: 422 for a horizon outside 1..20; a stored run when `run_forecast`
      produces one; otherwise the live series: 502 when it cannot be fetched, 400 when fewer
      than 8 values survive sanitisation, else the fallback forecast, which is not stored. */
  function CreateForecast(num: Numerics, db: Db, live: Series.LiveFetch, country: string, indicator: string, horizon: int)
    : (r: Result<(ForecastResponse, Db), HttpError>)
    ensures !(MinHorizon <= horizon <= MaxHorizon) ==> r.Err? && r.error.status == Unprocessable
    ensures MinHorizon <= horizon <= MaxHorizon ==>
      var res := RunForecast(num, db, country, indicator, horizon, FallbackModel).0;
      var db1 := RunForecast(num, db, country, indicator, horizon, FallbackModel).1;
      var fetched := live(Text.Upper(country), indicator);
      && (res.Some? ==> r == Ok((FromRun(res.value.run, res.value.points, country, indicator), db1)))
      && (res.None? && fetched.Err? ==> r == Err(HttpError(BadGateway, fetched.error)))
      && (res.None? && fetched.Ok? && |LiveTraining(num, fetched.value).y| < MinTrainingPoints ==>
            r == Err(HttpError(BadRequest, "Not enough data to forecast")))
      && (res.None? && fetched.Ok? && |LiveTraining(num, fetched.value).y| >= MinTrainingPoints ==>
            r.Ok? && r.value.1 == db && r.value.0 == FallbackResponse(num, country, indicator, horizon, LiveTraining(num, fetched.value)))
  {
    if !(MinHorizon <= horizon <= MaxHorizon) then
      Err(HttpError(Unprocessable, "horizon_years must be between 1 and 20"))
    else
      var (res, db1) := RunForecast(num, db, country, indicator, horizon, FallbackModel);
      if res.Some? then Ok((FromRun(res.value.run, res.value.points, country, indicator), db1))
      else
        match live(Text.Upper(country), indicator)
        case Err(e) => Err(HttpError(BadGateway, e))
        case Ok(s) =>
          var t := LiveTraining(num, s);
          if |t.y| < MinTrainingPoints then Err(HttpError(BadRequest, "Not enough data to forecast"))
          else Ok((FallbackResponse(num, country, indicator, horizon, t), db))
  }

  /** A successful forecast, stored or not, has one point per horizon year, each bracketed
      by its interval. */
  lemma CreateForecastShape(num: Numerics, db: Db, live: Series.LiveFetch, country: string, indicator: string, horizon: int, i: int)
    requires Lawful(num)
    requires CreateForecast(num, db, live, country, indicator, horizon).Ok?
    requires 0 <= i < |CreateForecast(num, db, live, country, indicator, horizon).value.0.points|
    ensures var resp := CreateForecast(num, db, live, country, indicator, horizon).value.0;
      && |resp.points| == horizon
      && resp.points[i].lower.Some? && resp.points[i].upper.Some?
      && resp.points[i].lower.value <= resp.points[i].value <= resp.points[i].upper.value
  {
    var resp := CreateForecast(num, db, live, country, indicator, horizon).value.0;
    var (res, db1) := RunForecast(num, db, country, indicator, horizon, FallbackModel);
    if res.Some? {
      assert resp == FromRun(res.value.run, res.value.points, country, indicator);
      RunForecastIntervals(num, db, country, indicator, horizon, FallbackModel, i);
      assert resp.points[i] == ToOut(res.value.points[i]);
    } else {
      var t := LiveTraining(num, live(Text.Upper(country), indicator).value);
      assert resp == FallbackResponse(num, country, indicator, horizon, t);
      FallbackIntervals(num, country, indicator, horizon, t, i);
    }
  }

  /** Every point of the live fallback lies inside its interval. */
  lemma FallbackIntervals(num: Numerics, country: string, indicator: string, horizon: int, t: Training, i: int)
    requires Lawful(num)
    requires |t.x| == |t.y| && |t.y| >= MinTrainingPoints
    requires 0 <= i < |FallbackResponse(num, country, indicator, horizon, t).points|
    ensures var p := FallbackResponse(num, country, indicator, horizon, t).points[i];
      p.lower.Some? && p.upper.Some? && p.lower.value <= p.value <= p.upper.value
  {
    LinearForecastStdNonNegative(num, t.y, t.x, horizon);
    assert FallbackResponse(num, country, indicator, horizon, t).metrics.residualStd == LinearForecast(num, t.y, t.x, horizon).std;
  }

  // ----- GET /forecast/latest -----

  /** The run of the pair with the highest id (`order_by(id.desc()).first()`). */
  function LatestRun(runs: seq<ForecastRun>, countryId: int, indicatorId: int): (r: Option<ForecastRun>)
    ensures r.None? <==> forall i :: 0 <= i < |runs| ==> !(runs[i].countryId == countryId && runs[i].indicatorId == indicatorId)
    ensures r.Some? ==> r.value in runs && r.value.countryId == countryId && r.value.indicatorId == indicatorId
    ensures r.Some? ==> forall i :: 0 <= i < |runs| && runs[i].countryId == countryId && runs[i].indicatorId == indicatorId ==>
                          runs[i].id <= r.value.id
  {
    if |runs| == 0 then None
    else
      var rest := LatestRun(runs[..|runs| - 1], countryId, indicatorId);
      var last := runs[|runs| - 1];
      assert forall i :: 0 <= i < |runs| - 1 ==> runs[..|runs| - 1][i] == runs[i];
      if last.countryId == countryId && last.indicatorId == indicatorId && (rest.None? || rest.value.id < last.id) then Some(last)
      else rest
  }

  function PointsOfRun(ps: seq<ForecastPointRow>, runId: int): (r: seq<ForecastPointRow>)
    ensures forall i :: 0 <= i < |r| ==> r[i].runId == runId
  {
    if |ps| == 0 then []
    else PointsOfRun(ps[..|ps| - 1], runId) + (if ps[|ps| - 1].runId == runId then [ps[|ps| - 1]] else [])
  }

  lemma {:induction false} PointsOfRunMembers(ps: seq<ForecastPointRow>, runId: int, p: ForecastPointRow)
    ensures p in PointsOfRun(ps, runId) <==> p in ps && p.runId == runId
  {
    if |ps| > 0 {
      PointsOfRunMembers(ps[..|ps| - 1], runId, p);
      assert ps == ps[..|ps| - 1] + [ps[|ps| - 1]];
    }
  }

  function PointYear(p: ForecastPointRow): int { p.year }

  /** The run's points ordered by year. */
  function RunPoints(ps: seq<ForecastPointRow>, runId: int): (r: seq<ForecastPointRow>)
    ensures forall i, j :: 0 <= i < j < |r| ==> r[i].year <= r[j].year
    ensures forall p :: p in r <==> p in ps && p.runId == runId
    ensures |r| == |PointsOfRun(ps, runId)|
  {
    StableSort.IntLeIsTotal();
    var r := StableSort.Sort(PointsOfRun(ps, runId), PointYear, StableSort.IntLe);
    forall i, j | 0 <= i < j < |r|
      ensures r[i].year <= r[j].year
    {
      assert StableSort.IntLe(PointYear(r[i]), PointYear(r[j]));
    }
    forall p
      ensures p in r <==> p in ps && p.runId == runId
    {
      assert p in r <==> p in multiset(r);
      assert p in PointsOfRun(ps, runId) <==> p in multiset(PointsOfRun(ps, runId));
      PointsOfRunMembers(ps, runId, p);
    }
    r
  }

  /** `latest_forecast`: 404 for an unknown pair or when it has no run; otherwise the run
      with the highest id and its points in year order, under the stored codes. */
  function LatestForecast(db: Db, country: string, indicator: string): (r: Result<ForecastResponse, HttpError>)
    ensures FindCountry(db, Text.Upper(country)).None? || FindIndicator(db, indicator).None? ==>
      r == Err(HttpError(NotFound, "Unknown country or indicator"))
    ensures FindCountry(db, Text.Upper(country)).Some? && FindIndicator(db, indicator).Some? ==>
      var c, i := FindCountry(db, Text.Upper(country)).value, FindIndicator(db, indicator).value;
      && (LatestRun(db.runs, c.id, i.id).None? ==> r == Err(HttpError(NotFound, "No forecast available")))
      && (LatestRun(db.runs, c.id, i.id).Some? ==>
            var run := LatestRun(db.runs, c.id, i.id).value;
            && r.Ok? && r.value.country == c.code && r.value.indicator == i.code
            && r.value.modelName == run.modelName && r.value.horizon == run.horizon && r.value.metrics == run.metrics
            && r.value.points == AllOut(RunPoints(db.forecastPoints, run.id)))
  {
    match (FindCountry(db, Text.Upper(country)), FindIndicator(db, indicator))
    case (Some(c), Some(i)) =>
      (match LatestRun(db.runs, c.id, i.id)
       case None => Err(HttpError(NotFound, "No forecast available"))
       case Some(run) => Ok(FromRun(run, RunPoints(db.forecastPoints, run.id), c.code, i.code)))
    case _ => Err(HttpError(NotFound, "Unknown country or indicator"))
  }

  /** Every stored forecast point belongs to a stored run (the foreign key of
      `forecast_points.run_id`). */
  predicate PointsReferenceRuns(db: Db) {
    forall i :: 0 <= i < |db.forecastPoints| ==>
      exists j :: 0 <= j < |db.runs| && db.runs[j].id == db.forecastPoints[i].runId
  }

  /** After a stored forecast, the latest forecast of the pair is that run, with exactly
      the points just stored. */
  lemma CreateThenLatest(num: Numerics, db: Db, country: string, indicator: string, horizon: int)
    requires PointsReferenceRuns(db)
    requires MinHorizon <= horizon <= MaxHorizon
    requires RunForecast(num, db, country, indicator, horizon, FallbackModel).0.Some?
    ensures var res, db1 := RunForecast(num, db, country, indicator, horizon, FallbackModel).0, RunForecast(num, db, country, indicator, horizon, FallbackModel).1;
      && LatestForecast(db1, country, indicator).Ok?
      && LatestForecast(db1, country, indicator).value.horizon == horizon
      && LatestForecast(db1, country, indicator).value.modelName == FallbackModel
      && LatestForecast(db1, country, indicator).value.metrics == res.value.run.metrics
      && |LatestForecast(db1, country, indicator).value.points| == |res.value.points|
  {
    var (res, db1) := RunForecast(num, db, country, indicator, horizon, FallbackModel);
    var run := res.value.run;
    var c, i := FindCountry(db, Text.Upper(country)).value, FindIndicator(db, indicator).value;
    RunForecastFreshId(num, db, country, indicator, horizon, FallbackModel);
    RunForecastPointYears(num, db, country, indicator, horizon, FallbackModel);
    LatestOfAppended(db.runs, run, c.id, i.id);
    StoredPointsOfNewRun(db.runs, db.forecastPoints, res.value.points, run.id);
    assert FindCountry(db1, Text.Upper(country)) == FindCountry(db, Text.Upper(country));
    assert FindIndicator(db1, indicator) == FindIndicator(db, indicator);
  }

  /** A run appended with an id above every stored one is the latest of its pair. */
  lemma LatestOfAppended(runs: seq<ForecastRun>, run: ForecastRun, countryId: int, indicatorId: int)
    requires forall j :: 0 <= j < |runs| ==> runs[j].id < run.id
    requires run.countryId == countryId && run.indicatorId == indicatorId
    ensures LatestRun(runs + [run], countryId, indicatorId) == Some(run)
  {
    assert (runs + [run])[..|runs|] == runs;
    var rest := LatestRun(runs, countryId, indicatorId);
    if rest.Some? {
      var j :| 0 <= j < |runs| && runs[j] == rest.value;
    }
  }

  /** The points stored with a run of a fresh id are all the points of that run. */
  lemma StoredPointsOfNewRun(runs: seq<ForecastRun>, stored: seq<ForecastPointRow>, added: seq<ForecastPointRow>, runId: int)
    requires forall k :: 0 <= k < |stored| ==> exists j :: 0 <= j < |runs| && runs[j].id == stored[k].runId
    requires forall j :: 0 <= j < |runs| ==> runs[j].id < runId
    requires forall k :: 0 <= k < |added| ==> added[k].runId == runId
    ensures PointsOfRun(stored + added, runId) == added
  {
    forall k | 0 <= k < |stored|
      ensures stored[k].runId != runId
    {
      var j :| 0 <= j < |runs| && runs[j].id == stored[k].runId;
    }
    PointsOfRunNone(stored, runId);
    PointsOfRunAll(added, runId);
    PointsOfRunAppend(stored, added, runId);
  }

  lemma {:induction false} PointsOfRunAppend(a: seq<ForecastPointRow>, b: seq<ForecastPointRow>, runId: int)
    ensures PointsOfRun(a + b, runId) == PointsOfRun(a, runId) + PointsOfRun(b, runId)
  {
    if |b| == 0 {
      assert a + b == a;
    } else {
      var init := b[..|b| - 1];
      PointsOfRunAppend(a, init, runId);
      assert (a + b)[..|a + b| - 1] == a + init;
      assert (a + b)[|a + b| - 1] == b[|b| - 1];
    }
  }

  lemma {:induction false} PointsOfRunNone(a: seq<ForecastPointRow>, runId: int)
    requires forall i :: 0 <= i < |a| ==> a[i].runId != runId
    ensures PointsOfRun(a, runId) == []
  {
    if |a| > 0 {
      PointsOfRunNone(a[..|a| - 1], runId);
    }
  }

  lemma {:induction false} PointsOfRunAll(a: seq<ForecastPointRow>, runId: int)
    requires forall i :: 0 <= i < |a| ==> a[i].runId == runId
    ensures PointsOfRun(a, runId) == a
  {
    if |a| > 0 {
      PointsOfRunAll(a[..|a| - 1], runId);
      assert a == a[..|a| - 1] + [a[|a| - 1]];
    }
  }
}

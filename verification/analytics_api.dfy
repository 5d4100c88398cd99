/** The analytics endpoints `/lorenz`, `/gini` and `/correlation`: HTTP routing around the
    Lorenz and correlation services. */
module AnalyticsApi {
  import opened Wrappers
  import opened Http
  import opened Store
  import opened Lorenz
  import opened CorrelationService
  import Text

  datatype LorenzResponse = LorenzResponse(country: string, year: int, points: seq<XY>, missing: seq<string>)

  datatype GiniResponse = GiniResponse(country: string, year: int, gini: real)

  /** `lorenz_curve`: the (cached or freshly built) curve with nothing missing; else 404 for
      an unknown country; else no points and the quintile codes that lack a value. */
  function LorenzCurve(round4: real -> real, db: Db, country: string, year: int): (r: (Result<LorenzResponse, HttpError>, Db))
    ensures var res, db1 := GetOrCreateLorenzResult(round4, db, country, year).0, GetOrCreateLorenzResult(round4, db, country, year).1;
      && (res.Some? ==> r == (Ok(LorenzResponse(res.value.country, res.value.year, res.value.points, [])), db1))
      && (res.None? && FindCountry(db, Text.Upper(country)).None? ==> r == (Err(HttpError(NotFound, "Country not found")), db))
      && (res.None? && FindCountry(db, Text.Upper(country)).Some? ==>
            r.1 == db && r.0.Ok? && r.0.value.points == [] && r.0.value.year == year
            && r.0.value.missing == LorenzSegments(db, country, year).value.missing)
  {
    var (res, db1) := GetOrCreateLorenzResult(round4, db, country, year);
    if res.Some? then (Ok(LorenzResponse(res.value.country, res.value.year, res.value.points, [])), db1)
    else
      match LorenzSegments(db1, country, year)
      case None => (Err(HttpError(NotFound, "Country not found")), db1)
      case Some(data) => (Ok(LorenzResponse(data.country, year, [], data.missing)), db1)
  }

  /** A curve-less answer always names at least one missing quintile, each of which has
      no stored value at or before the year; so a response never has both empty. */
  lemma LorenzCurveMissingIsExplained(round4: real -> real, db: Db, country: string, year: int)
    requires LorenzCurve(round4, db, country, year).0.Ok?
    requires LorenzCurve(round4, db, country, year).0.value.missing != []
    ensures FindCountry(db, Text.Upper(country)).Some?
    ensures var resp := LorenzCurve(round4, db, country, year).0.value;
      var c := FindCountry(db, Text.Upper(country)).value;
      && resp.points == []
      && forall k :: 0 <= k < |LorenzIndicators| ==>
           (LorenzIndicators[k].code in resp.missing <==> QuintileValue(db, c.id, LorenzIndicators[k].code, year).None?)
  {
  }

  /** For a known country without a cached curve, `/lorenz` answers either a freshly built
      curve or a non-empty list of missing codes, never both empty. */
  lemma LorenzCurveNeverEmpty(round4: real -> real, db: Db, country: string, year: int)
    requires FindCountry(db, Text.Upper(country)).Some?
    requires FindLorenzRow(db.lorenz, FindCountry(db, Text.Upper(country)).value.id, year).None?
    ensures LorenzCurve(round4, db, country, year).0.Ok?
    ensures LorenzCurve(round4, db, country, year).0.value.points != [] || LorenzCurve(round4, db, country, year).0.value.missing != []
  {
    var c := FindCountry(db, Text.Upper(country)).value;
    var (res, db1) := GetOrCreateLorenzResult(round4, db, country, year);
    if res.None? {
      var k :| 0 <= k < |LorenzIndicators| && QuintileValue(db, c.id, LorenzIndicators[k].code, year).None?;
      assert LorenzIndicators[k].code in LorenzSegments(db, country, year).value.missing;
    } else {
      var shares := seq(5, k requires 0 <= k < 5 => QuintileValue(db, c.id, LorenzIndicators[k].code, year).value);
      assert |BuildLorenzPoints(round4, shares, QuintilePopulations())| == 6;
    }
  }

  /** `gini_index`: 404 unless a Lorenz result is available; the year echoed is the
      requested one. */
  function GiniIndex(round4: real -> real, db: Db, country: string, year: int): (r: (Result<GiniResponse, HttpError>, Db))
    ensures var res, db1 := GetOrCreateLorenzResult(round4, db, country, year).0, GetOrCreateLorenzResult(round4, db, country, year).1;
      && r.1 == db1
      && (res.None? ==> r.0 == Err(HttpError(NotFound, "Gini not available for this year")))
      && (res.Some? ==> r.0 == Ok(GiniResponse(res.value.country, year, res.value.gini)))
  {
    var (res, db1) := GetOrCreateLorenzResult(round4, db, country, year);
    if res.None? then (Err(HttpError(NotFound, "Gini not available for this year")), db1)
    else (Ok(GiniResponse(res.value.country, year, res.value.gini)), db1)
  }

  /** Every stored curve's Gini index lies in [0, 1], as `compute_gini` guarantees. */
  predicate GiniStoredInRange(db: Db) {
    forall i :: 0 <= i < |db.lorenz| ==> 0.0 <= db.lorenz[i].gini <= 1.0
  }

  /** `/gini` answers lie in [0, 1], and the cache keeps that true. */
  lemma GiniIndexInRange(round4: real -> real, db: Db, country: string, year: int)
    requires GiniStoredInRange(db)
    ensures GiniStoredInRange(GiniIndex(round4, db, country, year).1)
    ensures GiniIndex(round4, db, country, year).0.Ok? ==>
      0.0 <= GiniIndex(round4, db, country, year).0.value.gini <= 1.0
  {
    var (res, db1) := GetOrCreateLorenzResult(round4, db, country, year);
    if res.Some? {
      var c := FindCountry(db, Text.Upper(country)).value;
      var found := FindLorenzRow(db.lorenz, c.id, year);
      if found.Some? {
        var k :| 0 <= k < |db.lorenz| && db.lorenz[k] == found.value;
      }
    }
  }

  /** `correlation`: 400 for a reversed window, 404 when the service has no report; a
      report whose coefficient is null is still a normal answer. */
  function CorrelationEndpoint(sqrt: real -> real, db: Db, country: string, codeA: string, codeB: string,
                               start: Option<int>, end: Option<int>): (r: Result<CorrelationReport, HttpError>)
    ensures start.Some? && end.Some? && start.value > end.value ==>
      r == Err(HttpError(BadRequest, "start_year must be <= end_year"))
    ensures !(start.Some? && end.Some? && start.value > end.value) ==>
      && (CorrelationForCountry(sqrt, db, country, codeA, codeB, start, end).None? ==>
            r == Err(HttpError(NotFound, "Correlation not available")))
      && (CorrelationForCountry(sqrt, db, country, codeA, codeB, start, end).Some? ==>
            r == Ok(CorrelationForCountry(sqrt, db, country, codeA, codeB, start, end).value))
  {
    if start.Some? && end.Some? && start.value > end.value then Err(HttpError(BadRequest, "start_year must be <= end_year"))
    else
      match CorrelationForCountry(sqrt, db, country, codeA, codeB, start, end)
      case None => Err(HttpError(NotFound, "Correlation not available"))
      case Some(rep) => Ok(rep)
  }

  /** With a known country and indicators and a valid window, fewer than three common
      years still answer normally, with a null coefficient. */
  lemma SparseOverlapIsNotAnError(sqrt: real -> real, db: Db, country: string, codeA: string, codeB: string,
                                  start: Option<int>, end: Option<int>)
    requires !(start.Some? && end.Some? && start.value > end.value)
    requires FindCountry(db, Text.Upper(country)).Some? && FindIndicator(db, codeA).Some? && FindIndicator(db, codeB).Some?
    requires |CommonYears(db, FindCountry(db, Text.Upper(country)).value.id, FindIndicator(db, codeA).value.id,
                          FindIndicator(db, codeB).value.id, start, end)| < 3
    ensures CorrelationEndpoint(sqrt, db, country, codeA, codeB, start, end).Ok?
    ensures CorrelationEndpoint(sqrt, db, country, codeA, codeB, start, end).value.correlation.None?
  {
    var c, a, b := FindCountry(db, Text.Upper(country)).value, FindIndicator(db, codeA).value, FindIndicator(db, codeB).value;
    assert |CommonPairs(db, c.id, a.id, b.id, start, end)| == |CommonYears(db, c.id, a.id, b.id, start, end)|;
  }
}

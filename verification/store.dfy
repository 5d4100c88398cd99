/** The FastAPI service's database: countries, indicators, yearly observations, cached
    Lorenz results and stored forecast runs. Tables are sequences of rows in insertion order;
    queries are pure functions over them. */
module Store {
  import opened Wrappers
  import Series

  datatype Country = Country(id: int, code: string, name: string)

  datatype Indicator = Indicator(id: int, code: string, name: string, source: string)

  /** One observation; the table holds at most one row per (country, indicator, year). */
  datatype Observation = Observation(countryId: int, indicatorId: int, year: int, value: Option<real>, source: string)

  /** A Lorenz-curve point (cumulative population share, cumulative income share). */
  datatype XY = XY(x: real, y: real)

  datatype LorenzRow = LorenzRow(countryId: int, year: int, points: seq<XY>, gini: real)

  /** The backtest score of a forecast run (mean absolute and root-mean-square error). */
  datatype BacktestScore = BacktestScore(points: int, mae: real, rmse: real)

  /** The quantities the run's `metrics` text reports; the text formatting is not modelled. */
  datatype RunMetrics = RunMetrics(residualStd: real, backtest: Option<BacktestScore>)

  datatype ForecastRun = ForecastRun(id: int, countryId: int, indicatorId: int, modelName: string, horizon: int, metrics: RunMetrics)

  datatype ForecastPointRow = ForecastPointRow(runId: int, year: int, value: real, lower: Option<real>, upper: Option<real>)

  datatype Db = Db(
    countries: seq<Country>,
    indicators: seq<Indicator>,
    observations: seq<Observation>,
    lorenz: seq<LorenzRow>,
    runs: seq<ForecastRun>,
    forecastPoints: seq<ForecastPointRow>)

  /** The id an integer primary key gets on insert: one above the largest stored id, and 1
      for an empty table. */
  function NextId(ids: seq<int>): (id: int)
    ensures id >= 1
    ensures forall i :: 0 <= i < |ids| ==> ids[i] < id
    ensures id == 1 || id - 1 in ids
  {
    if |ids| == 0 then 1
    else
      var init := ids[..|ids| - 1];
      var m := NextId(init);
      assert forall i :: 0 <= i < |init| ==> ids[i] == init[i];
      assert m - 1 in init ==> m - 1 in ids;
      if ids[|ids| - 1] + 1 > m then ids[|ids| - 1] + 1 else m
  }

  /** The (country, indicator, year) uniqueness constraint of the observations table. */
  predicate ObservationKeysUnique(db: Db) {
    forall i, j :: 0 <= i < j < |db.observations| ==>
      var a, b := db.observations[i], db.observations[j];
      !(a.countryId == b.countryId && a.indicatorId == b.indicatorId && a.year == b.year)
  }

  /** `query(Country).filter(code == c).first()`. */
  function FindCountry(db: Db, code: string): (r: Option<Country>)
    ensures r.None? <==> forall i :: 0 <= i < |db.countries| ==> db.countries[i].code != code
    ensures r.Some? ==> r.value in db.countries && r.value.code == code
  {
    FirstCountry(db.countries, code)
  }

  function FirstCountry(cs: seq<Country>, code: string): (r: Option<Country>)
    ensures r.None? <==> forall i :: 0 <= i < |cs| ==> cs[i].code != code
    ensures r.Some? ==> r.value in cs && r.value.code == code
  {
    if |cs| == 0 then None
    else if cs[0].code == code then Some(cs[0])
    else
      var r := FirstCountry(cs[1..], code);
      assert forall i :: 1 <= i < |cs| ==> cs[i] == cs[1..][i - 1];
      r
  }

  /** `query(Indicator).filter(code == c).first()`. */
  function FindIndicator(db: Db, code: string): (r: Option<Indicator>)
    ensures r.None? <==> forall i :: 0 <= i < |db.indicators| ==> db.indicators[i].code != code
    ensures r.Some? ==> r.value in db.indicators && r.value.code == code
  {
    FirstIndicator(db.indicators, code)
  }

  function FirstIndicator(xs: seq<Indicator>, code: string): (r: Option<Indicator>)
    ensures r.None? <==> forall i :: 0 <= i < |xs| ==> xs[i].code != code
    ensures r.Some? ==> r.value in xs && r.value.code == code
  {
    if |xs| == 0 then None
    else if xs[0].code == code then Some(xs[0])
    else
      var r := FirstIndicator(xs[1..], code);
      assert forall i :: 1 <= i < |xs| ==> xs[i] == xs[1..][i - 1];
      r
  }

  predicate Of(o: Observation, countryId: int, indicatorId: int) {
    o.countryId == countryId && o.indicatorId == indicatorId
  }

  /** The rows of one (country, indicator) pair, in table order. */
  function RowsOf(rows: seq<Observation>, countryId: int, indicatorId: int): (r: seq<Observation>)
    ensures |r| <= |rows|
    ensures forall i :: 0 <= i < |r| ==> Of(r[i], countryId, indicatorId)
  {
    if |rows| == 0 then []
    else
      RowsOf(rows[..|rows| - 1], countryId, indicatorId)
        + (if Of(rows[|rows| - 1], countryId, indicatorId) then [rows[|rows| - 1]] else [])
  }

  /** RowsOf loses and duplicates nothing: each matching row occurs as often as in the table. */
  lemma {:induction false} RowsOfCount(rows: seq<Observation>, countryId: int, indicatorId: int, o: Observation)
    ensures multiset(RowsOf(rows, countryId, indicatorId))[o] == if Of(o, countryId, indicatorId) then multiset(rows)[o] else 0
  {
    if |rows| > 0 {
      assert rows == rows[..|rows| - 1] + [rows[|rows| - 1]];
      RowsOfCount(rows[..|rows| - 1], countryId, indicatorId, o);
    }
  }

  function ToPoint(o: Observation): Series.Point {
    Series.Point(o.year, o.value)
  }

  function ToPoints(rows: seq<Observation>): (ps: seq<Series.Point>)
    ensures |ps| == |rows|
    ensures forall i :: 0 <= i < |rows| ==> ps[i] == ToPoint(rows[i])
  {
    seq(|rows|, i requires 0 <= i < |rows| => ToPoint(rows[i]))
  }

  /** `query(Observation).filter(country, indicator).order_by(year)` as {year, value} rows. */
  function SeriesOf(db: Db, countryId: int, indicatorId: int): (s: seq<Series.Point>)
    ensures Series.YearsAscending(s)
    ensures |s| == |RowsOf(db.observations, countryId, indicatorId)|
    ensures multiset(s) == multiset(ToPoints(RowsOf(db.observations, countryId, indicatorId)))
  {
    Series.SortByYear(ToPoints(RowsOf(db.observations, countryId, indicatorId)))
  }

  /** Every year of SeriesOf is the year of a stored row of that pair with the same value. */
  lemma SeriesOfFromRows(db: Db, countryId: int, indicatorId: int, i: int)
    requires 0 <= i < |SeriesOf(db, countryId, indicatorId)|
    ensures exists o :: o in db.observations && Of(o, countryId, indicatorId) && ToPoint(o) == SeriesOf(db, countryId, indicatorId)[i]
  {
    var s := SeriesOf(db, countryId, indicatorId);
    var rows := RowsOf(db.observations, countryId, indicatorId);
    assert s[i] in multiset(ToPoints(rows));
    var k :| 0 <= k < |rows| && ToPoints(rows)[k] == s[i];
    RowsOfCount(db.observations, countryId, indicatorId, rows[k]);
    assert rows[k] in multiset(rows);
  }

  /** `...filter(year <= y).order_by(year.desc()).first()`: the latest row at or before `year`. */
  function LatestAtOrBefore(rows: seq<Observation>, countryId: int, indicatorId: int, year: int): (r: Option<Observation>)
    ensures r.None? <==> forall i :: 0 <= i < |rows| ==> !(Of(rows[i], countryId, indicatorId) && rows[i].year <= year)
    ensures r.Some? ==> r.value in rows && Of(r.value, countryId, indicatorId) && r.value.year <= year
    ensures r.Some? ==> forall i :: 0 <= i < |rows| && Of(rows[i], countryId, indicatorId) && rows[i].year <= year ==>
                          rows[i].year <= r.value.year
  {
    if |rows| == 0 then None
    else
      var rest := LatestAtOrBefore(rows[1..], countryId, indicatorId, year);
      assert forall i :: 1 <= i < |rows| ==> rows[i] == rows[1..][i - 1];
      var o := rows[0];
      if Of(o, countryId, indicatorId) && o.year <= year && (rest.None? || rest.value.year < o.year) then Some(o)
      else rest
  }
}

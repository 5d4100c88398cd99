/** `GET /observations`: stored rows of the pair inside the year window when there are any
    (`X-Data-Source: cache_db`), otherwise the live World Bank series filtered to the window
    (`X-Data-Source: world_bank_live`). */
module Observations {
  import opened Wrappers
  import opened Http
  import opened Store
  import Text
  import Series
  import StableSort

  datatype DataSource = CacheDb | WorldBankLive

  datatype ObservationOut = ObservationOut(country: string, indicator: string, year: int, value: Option<real>)

  datatype ObservationsResponse = ObservationsResponse(source: DataSource, rows: seq<ObservationOut>)

  predicate InPairWindow(o: Observation, countryId: int, indicatorId: int, start: Option<int>, end: Option<int>) {
    Of(o, countryId, indicatorId) && Series.InWindow(o.year, start, end)
  }

  function PairWindow(rows: seq<Observation>, countryId: int, indicatorId: int, start: Option<int>, end: Option<int>): (r: seq<Observation>)
    ensures forall i :: 0 <= i < |r| ==> InPairWindow(r[i], countryId, indicatorId, start, end)
  {
    if |rows| == 0 then []
    else
      var last := rows[|rows| - 1];
      PairWindow(rows[..|rows| - 1], countryId, indicatorId, start, end)
        + (if InPairWindow(last, countryId, indicatorId, start, end) then [last] else [])
  }

  lemma {:induction false} PairWindowCount(rows: seq<Observation>, countryId: int, indicatorId: int, start: Option<int>, end: Option<int>, o: Observation)
    ensures multiset(PairWindow(rows, countryId, indicatorId, start, end))[o] ==
      if InPairWindow(o, countryId, indicatorId, start, end) then multiset(rows)[o] else 0
  {
    if |rows| > 0 {
      assert rows == rows[..|rows| - 1] + [rows[|rows| - 1]];
      PairWindowCount(rows[..|rows| - 1], countryId, indicatorId, start, end, o);
    }
  }

  function ObsYear(o: Observation): int { o.year }

  /** The query `filter(country, indicator, year >= start, year <= end).order_by(year)`. */
  function StoredWindow(db: Db, countryId: int, indicatorId: int, start: Option<int>, end: Option<int>): (r: seq<Observation>)
    ensures forall i, j :: 0 <= i < j < |r| ==> r[i].year <= r[j].year
    ensures forall o :: multiset(r)[o] == if InPairWindow(o, countryId, indicatorId, start, end) then multiset(db.observations)[o] else 0
  {
    StableSort.IntLeIsTotal();
    var r := StableSort.Sort(PairWindow(db.observations, countryId, indicatorId, start, end), ObsYear, StableSort.IntLe);
    forall i, j | 0 <= i < j < |r|
      ensures r[i].year <= r[j].year
    {
      assert StableSort.IntLe(ObsYear(r[i]), ObsYear(r[j]));
    }
    forall o
      ensures multiset(r)[o] == if InPairWindow(o, countryId, indicatorId, start, end) then multiset(db.observations)[o] else 0
    {
      PairWindowCount(db.observations, countryId, indicatorId, start, end, o);
    }
    r
  }

  function StoredOut(c: Country, i: Indicator, rows: seq<Observation>): (r: seq<ObservationOut>)
    ensures |r| == |rows|
    ensures forall k :: 0 <= k < |rows| ==> r[k] == ObservationOut(c.code, i.code, rows[k].year, rows[k].value)
  {
    seq(|rows|, k requires 0 <= k < |rows| => ObservationOut(c.code, i.code, rows[k].year, rows[k].value))
  }

  function LiveOut(country: string, indicator: string, s: seq<Series.Point>): (r: seq<ObservationOut>)
    ensures |r| == |s|
    ensures forall k :: 0 <= k < |s| ==> r[k] == ObservationOut(country, indicator, s[k].year, s[k].value)
  {
    seq(|s|, k requires 0 <= k < |s| => ObservationOut(country, indicator, s[k].year, s[k].value))
  }

  /** The stored rows the cache path would return, empty when the pair is unknown. */
  function CachedRows(db: Db, country: string, indicator: string, start: Option<int>, end: Option<int>): seq<Observation> {
    match (FindCountry(db, Text.Upper(country)), FindIndicator(db, indicator))
    case (Some(c), Some(i)) => StoredWindow(db, c.id, i.id, start, end)
    case _ => []
  }

  /** `list_observations`. */
  function ListObservations(db: Db, live: Series.LiveFetch, country: string, indicator: string, start: Option<int>, end: Option<int>)
    : (r: Result<ObservationsResponse, HttpError>)
    ensures start.Some? && end.Some? && start.value > end.value ==>
      r == Err(HttpError(BadRequest, "start_year must be <= end_year"))
    ensures !(start.Some? && end.Some? && start.value > end.value) && CachedRows(db, country, indicator, start, end) != [] ==>
      var c, i := FindCountry(db, Text.Upper(country)).value, FindIndicator(db, indicator).value;
      r == Ok(ObservationsResponse(CacheDb, StoredOut(c, i, CachedRows(db, country, indicator, start, end))))
    ensures !(start.Some? && end.Some? && start.value > end.value) && CachedRows(db, country, indicator, start, end) == [] ==>
      && (live(Text.Upper(country), indicator).Err? ==> r == Err(HttpError(BadGateway, live(Text.Upper(country), indicator).error)))
      && (live(Text.Upper(country), indicator).Ok? ==>
            r == Ok(ObservationsResponse(WorldBankLive, LiveOut(Text.Upper(country), indicator, Series.FilterWindow(live(Text.Upper(country), indicator).value, start, end)))))
  {
    if start.Some? && end.Some? && start.value > end.value then
      Err(HttpError(BadRequest, "start_year must be <= end_year"))
    else
      var stored := CachedRows(db, country, indicator, start, end);
      if stored != [] then
        var c, i := FindCountry(db, Text.Upper(country)).value, FindIndicator(db, indicator).value;
        Ok(ObservationsResponse(CacheDb, StoredOut(c, i, stored)))
      else
        match live(Text.Upper(country), indicator)
        case Err(e) => Err(HttpError(BadGateway, e))
        case Ok(s) => Ok(ObservationsResponse(WorldBankLive, LiveOut(Text.Upper(country), indicator, Series.FilterWindow(s, start, end))))
  }

  /** Every response row lies in the requested window and carries the upper-cased country
      code (the stored code of the country is its upper-cased lookup key). */
  lemma ListObservationsRowsInWindow(db: Db, live: Series.LiveFetch, country: string, indicator: string, start: Option<int>, end: Option<int>, k: int)
    requires ListObservations(db, live, country, indicator, start, end).Ok?
    requires 0 <= k < |ListObservations(db, live, country, indicator, start, end).value.rows|
    ensures var row := ListObservations(db, live, country, indicator, start, end).value.rows[k];
      Series.InWindow(row.year, start, end) && row.country == Text.Upper(country)
  {
    var stored := CachedRows(db, country, indicator, start, end);
    if stored == [] {
      var s := live(Text.Upper(country), indicator).value;
      assert Series.FilterWindow(s, start, end)[k] in Series.FilterWindow(s, start, end);
    } else {
      assert stored[k] in multiset(stored);
    }
  }

  /** The cache path answers with exactly the stored rows of the pair inside the window
      (as many times as stored), ordered by year. */
  lemma ListObservationsCacheExact(db: Db, live: Series.LiveFetch, country: string, indicator: string, start: Option<int>, end: Option<int>)
    requires ListObservations(db, live, country, indicator, start, end).Ok?
    requires ListObservations(db, live, country, indicator, start, end).value.source == CacheDb
    ensures var c, i := FindCountry(db, Text.Upper(country)), FindIndicator(db, indicator);
      && c.Some? && i.Some?
      && var rows := CachedRows(db, country, indicator, start, end);
         && (forall o :: multiset(rows)[o] == if InPairWindow(o, c.value.id, i.value.id, start, end) then multiset(db.observations)[o] else 0)
         && ListObservations(db, live, country, indicator, start, end).value.rows == StoredOut(c.value, i.value, rows)
         && (forall a, b :: 0 <= a < b < |rows| ==> rows[a].year <= rows[b].year)
  {
  }

  /** With rows of the pair stored inside the window, the live source is never consulted:
      the answer is the same whatever it would return. */
  lemma CacheHitIgnoresLive(db: Db, live1: Series.LiveFetch, live2: Series.LiveFetch, country: string, indicator: string, start: Option<int>, end: Option<int>, o: Observation)
    requires !(start.Some? && end.Some? && start.value > end.value)
    requires FindCountry(db, Text.Upper(country)).Some? && FindIndicator(db, indicator).Some?
    requires o in db.observations
    requires InPairWindow(o, FindCountry(db, Text.Upper(country)).value.id, FindIndicator(db, indicator).value.id, start, end)
    ensures ListObservations(db, live1, country, indicator, start, end) == ListObservations(db, live2, country, indicator, start, end)
    ensures ListObservations(db, live1, country, indicator, start, end).Ok?
    ensures ListObservations(db, live1, country, indicator, start, end).value.source == CacheDb
  {
    var rows := CachedRows(db, country, indicator, start, end);
    assert multiset(rows)[o] == multiset(db.observations)[o];
    assert rows != [];
  }
}

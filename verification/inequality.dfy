/** The Gini endpoints: the year-over-year trend of one country and the ranking of several
    countries for one year. Both read the series from the observation store when it holds
    rows for the pair, and otherwise from the live World Bank source. */
module Inequality {
  import opened Wrappers
  import opened Http
  import opened Lists
  import Text
  import Series
  import StableSort
  import opened Store

  const GiniIndicator := "SI.POV.GINI"
  const MaxRankingCountries := 25

  /** Where a series came from; `fetchedAt` is the fetch time of a live series. */
  datatype Meta = Meta(source: string, fetchedAt: Option<string>)

  /** The store holds the country, the indicator and at least one observation of the pair. */
  predicate UsesStore(db: Db, countryCode: string, indicatorCode: string) {
    && FindCountry(db, Text.Upper(countryCode)).Some?
    && FindIndicator(db, indicatorCode).Some?
    && SeriesOf(db, FindCountry(db, Text.Upper(countryCode)).value.id, FindIndicator(db, indicatorCode).value.id) != []
  }

  /** `_load_series`: the stored rows ordered by year, or else the live series of the
      upper-cased country stamped with `now`. */
  function LoadSeries(db: Db, live: Series.LiveFetch, now: string, countryCode: string, indicatorCode: string)
    : (r: Result<(seq<Series.Point>, Meta), string>)
    ensures UsesStore(db, countryCode, indicatorCode) ==>
      r.Ok? && r.value.1 == Meta("cache_db", None) && Series.YearsAscending(r.value.0)
    ensures !UsesStore(db, countryCode, indicatorCode) ==>
      && (live(Text.Upper(countryCode), indicatorCode).Ok? ==>
            r == Ok((live(Text.Upper(countryCode), indicatorCode).value, Meta("world_bank_live", Some(now)))))
      && (live(Text.Upper(countryCode), indicatorCode).Err? ==> r == Err(live(Text.Upper(countryCode), indicatorCode).error))
  {
    if UsesStore(db, countryCode, indicatorCode) then
      var c, i := FindCountry(db, Text.Upper(countryCode)).value, FindIndicator(db, indicatorCode).value;
      Ok((SeriesOf(db, c.id, i.id), Meta("cache_db", None)))
    else
      match live(Text.Upper(countryCode), indicatorCode)
      case Ok(s) => Ok((s, Meta("world_bank_live", Some(now))))
      case Err(e) => Err(e)
  }

  /** The store is used exactly when it has an observation row for the pair. */
  lemma UsesStoreIff(db: Db, countryCode: string, indicatorCode: string)
    ensures UsesStore(db, countryCode, indicatorCode) <==>
      && FindCountry(db, Text.Upper(countryCode)).Some?
      && FindIndicator(db, indicatorCode).Some?
      && exists o :: o in db.observations &&
           Of(o, FindCountry(db, Text.Upper(countryCode)).value.id, FindIndicator(db, indicatorCode).value.id)
  {
    var fc, fi := FindCountry(db, Text.Upper(countryCode)), FindIndicator(db, indicatorCode);
    if fc.Some? && fi.Some? {
      var rows := RowsOf(db.observations, fc.value.id, fi.value.id);
      if exists o :: o in db.observations && Of(o, fc.value.id, fi.value.id) {
        var o :| o in db.observations && Of(o, fc.value.id, fi.value.id);
        RowsOfCount(db.observations, fc.value.id, fi.value.id, o);
        assert o in multiset(db.observations);
        assert o in multiset(rows);
      }
      if |rows| > 0 {
        RowsOfCount(db.observations, fc.value.id, fi.value.id, rows[0]);
        assert rows[0] in multiset(rows);
        assert rows[0] in multiset(db.observations);
      }
    }
  }

  /** A stored series only holds values that are stored for the pair. */
  lemma StoredSeriesComesFromRows(db: Db, live: Series.LiveFetch, now: string, countryCode: string, indicatorCode: string, i: int)
    requires UsesStore(db, countryCode, indicatorCode)
    requires 0 <= i < |LoadSeries(db, live, now, countryCode, indicatorCode).value.0|
    ensures var c, ind := FindCountry(db, Text.Upper(countryCode)).value, FindIndicator(db, indicatorCode).value;
      exists o :: o in db.observations && Of(o, c.id, ind.id) &&
        ToPoint(o) == LoadSeries(db, live, now, countryCode, indicatorCode).value.0[i]
  {
    var c, ind := FindCountry(db, Text.Upper(countryCode)).value, FindIndicator(db, indicatorCode).value;
    SeriesOfFromRows(db, c.id, ind.id, i);
  }

  // ----- /inequality/gini/trend -----

  datatype TrendPoint = TrendPoint(year: int, value: Option<real>, yoyChange: Option<real>)

  datatype TrendResponse = TrendResponse(country: string, indicator: string, points: seq<TrendPoint>, meta: Meta)

  /** The change of point `i` against the latest earlier point holding a value, skipping
      nulls; absent when point `i` has no value or none before it has one. */
  function YoyAt(s: seq<Series.Point>, i: int): Option<real>
    requires 0 <= i < |s|
  {
    match Series.LastValued(s[..i])
    case Some(p) => if s[i].value.Some? && p.value.Some? then Some(s[i].value.value - p.value.value) else None
    case None => None
  }

  function TrendOf(s: seq<Series.Point>): (r: seq<TrendPoint>)
    ensures |r| == |s|
  {
    seq(|s|, i requires 0 <= i < |s| => TrendPoint(s[i].year, s[i].value, YoyAt(s, i)))
  }

  /** The loop of `gini_trend`, carrying the last numeric value seen so far. */
  method TrendPoints(s: seq<Series.Point>) returns (points: seq<TrendPoint>)
    ensures points == TrendOf(s)
  {
    points := [];
    var prev: Option<real> := None;
    var i := 0;
    while i < |s|
      invariant 0 <= i <= |s|
      invariant points == TrendOf(s)[..i]
      invariant prev == (match Series.LastValued(s[..i]) case Some(p) => p.value case None => None)
      invariant Series.LastValued(s[..i]).Some? ==> Series.LastValued(s[..i]).value.value.Some?
    {
      var value := s[i].value;
      var yoy: Option<real> := None;
      if value.Some? && prev.Some? {
        yoy := Some(value.value - prev.value);
      }
      assert s[..i + 1] == s[..i] + [s[i]];
      assert s[..i + 1][..i] == s[..i];
      if value.Some? {
        prev := value;
      }
      points := points + [TrendPoint(s[i].year, value, yoy)];
      i := i + 1;
    }
    assert s[..|s|] == s;
  }

  /** A point without a value, or the first point with one, has no change. */
  lemma YoyAbsentCases(s: seq<Series.Point>, i: int)
    requires 0 <= i < |s|
    requires s[i].value.None? || forall j :: 0 <= j < i ==> s[j].value.None?
    ensures YoyAt(s, i).None?
  {
    Series.LastValuedIsLatest(s[..i]);
  }

  /** Otherwise the change is taken against the latest earlier point with a value. */
  lemma YoyAgainstLatestEarlierValue(s: seq<Series.Point>, i: int, j: int)
    requires 0 <= j < i < |s|
    requires s[i].value.Some? && s[j].value.Some?
    requires forall k :: j < k < i ==> s[k].value.None?
    ensures YoyAt(s, i) == Some(s[i].value.value - s[j].value.value)
  {
    var pre := s[..i];
    Series.LastValuedIsLatest(pre);
    var k :| 0 <= k < |pre| && pre[k] == Series.LastValued(pre).value && pre[k].value.Some? &&
             forall m :: k < m < |pre| ==> pre[m].value.None?;
    assert pre[j] == s[j];
    assert pre[k] == s[k];
    assert k == j;
  }

  /** `gini_trend`: 400 for a reversed window, 502 when the series cannot be loaded,
      otherwise the window's points in order with their year-over-year changes. */
  function GiniTrend(db: Db, live: Series.LiveFetch, now: string, country: string, start: Option<int>, end: Option<int>)
    : (r: Result<TrendResponse, HttpError>)
    ensures r.Err? && r.error.status == BadRequest <==> start.Some? && end.Some? && start.value > end.value
    ensures r.Err? && r.error.status == BadGateway <==>
      !(start.Some? && end.Some? && start.value > end.value) && LoadSeries(db, live, now, country, GiniIndicator).Err?
    ensures r.Ok? ==>
      var loaded := LoadSeries(db, live, now, country, GiniIndicator).value;
      && r.value.country == Text.Upper(country) && r.value.indicator == GiniIndicator && r.value.meta == loaded.1
      && |r.value.points| == |Series.FilterWindow(loaded.0, start, end)|
      && forall i :: 0 <= i < |r.value.points| ==>
           && Series.InWindow(r.value.points[i].year, start, end)
           && r.value.points[i].year == Series.FilterWindow(loaded.0, start, end)[i].year
           && r.value.points[i].value == Series.FilterWindow(loaded.0, start, end)[i].value
           && r.value.points[i].yoyChange == YoyAt(Series.FilterWindow(loaded.0, start, end), i)
  {
    if start.Some? && end.Some? && start.value > end.value then
      Err(HttpError(BadRequest, "start_year must be <= end_year"))
    else
      match LoadSeries(db, live, now, country, GiniIndicator)
      case Err(e) => Err(HttpError(BadGateway, e))
      case Ok((series, meta)) =>
        Ok(TrendResponse(Text.Upper(country), GiniIndicator, TrendOf(Series.FilterWindow(series, start, end)), meta))
  }

  // ----- /inequality/gini/ranking -----

  /** `item.strip()` of every piece. */
  function StripAll(parts: seq<string>): (r: seq<string>)
    ensures |r| == |parts|
    ensures forall i :: 0 <= i < |parts| ==> r[i] == Text.Strip(parts[i])
  {
    seq(|parts|, i requires 0 <= i < |parts| => Text.Strip(parts[i]))
  }

  /** `[item for item in items if item]`: the non-empty strings, in order. */
  function NonEmpty(items: seq<string>): (r: seq<string>)
    ensures |r| <= |items|
    ensures forall i :: 0 <= i < |r| ==> |r[i]| > 0
  {
    if |items| == 0 then []
    else NonEmpty(items[..|items| - 1]) + (if |items[|items| - 1]| > 0 then [items[|items| - 1]] else [])
  }

  /** A string is kept exactly when it is a non-empty item. */
  lemma {:induction false} NonEmptyMembers(items: seq<string>, x: string)
    ensures x in NonEmpty(items) <==> |x| > 0 && x in items
  {
    if |items| > 0 {
      var init := items[..|items| - 1];
      NonEmptyMembers(init, x);
      assert items == init + [items[|items| - 1]];
    }
  }

  /** Nothing is kept exactly when every item is empty. */
  lemma {:induction false} NonEmptyEmptyIff(items: seq<string>)
    ensures |NonEmpty(items)| == 0 <==> forall k :: 0 <= k < |items| ==> |items[k]| == 0
  {
    if |items| > 0 {
      var init := items[..|items| - 1];
      NonEmptyEmptyIff(init);
      assert forall k :: 0 <= k < |init| ==> init[k] == items[k];
    }
  }

  /** `[item.strip() for item in countries.split(",") if item.strip()]`. */
  function ParseCodes(countries: string): (r: seq<string>)
    ensures forall i :: 0 <= i < |r| ==> |r[i]| > 0 && Text.IsStripped(r[i])
  {
    var parts := Text.Split(countries, ',');
    StrippedKeptStripped(parts);
    NonEmpty(StripAll(parts))
  }

  /** The non-empty stripped items are already stripped. */
  lemma StrippedKeptStripped(parts: seq<string>)
    ensures forall i :: 0 <= i < |NonEmpty(StripAll(parts))| ==> Text.IsStripped(NonEmpty(StripAll(parts))[i])
  {
    var stripped := StripAll(parts);
    var r := NonEmpty(stripped);
    forall i | 0 <= i < |r|
      ensures Text.Strip(r[i]) == r[i]
    {
      NonEmptyMembers(stripped, r[i]);
      var k :| 0 <= k < |stripped| && stripped[k] == r[i];
      Text.StripIdempotent(Text.Python, parts[k]);
    }
  }

  datatype RankingRow = RankingRow(country: string, year: int, value: Option<real>)

  /** `next((row["value"] for row in series if row["year"] == year), None)`: the value of the
      first row of that year, itself possibly absent. */
  function ValueAtYear(s: seq<Series.Point>, year: int): (r: Option<real>)
    ensures (forall i :: 0 <= i < |s| ==> s[i].year != year) ==> r.None?
    ensures (exists i :: 0 <= i < |s| && s[i].year == year) ==>
      exists i :: 0 <= i < |s| && s[i].year == year && s[i].value == r && forall j :: 0 <= j < i ==> s[j].year != year
  {
    match FirstIndex(s, (p: Series.Point) => p.year == year)
    case Some(i) => s[i].value
    case None => None
  }

  /** One row of the ranking before sorting; a failed load gives a missing value. */
  function RankRow(db: Db, live: Series.LiveFetch, now: string, year: int, code: string): (row: RankingRow)
    ensures row.country == Text.Upper(code) && row.year == year
    ensures LoadSeries(db, live, now, code, GiniIndicator).Err? ==> row.value.None?
    ensures LoadSeries(db, live, now, code, GiniIndicator).Ok? ==>
      row.value == ValueAtYear(LoadSeries(db, live, now, code, GiniIndicator).value.0, year)
  {
    match LoadSeries(db, live, now, code, GiniIndicator)
    case Err(_) => RankingRow(Text.Upper(code), year, None)
    case Ok((series, _)) => RankingRow(Text.Upper(code), year, ValueAtYear(series, year))
  }

  function RankRows(db: Db, live: Series.LiveFetch, now: string, year: int, codes: seq<string>): (r: seq<RankingRow>)
    ensures |r| == |codes|
    ensures forall i :: 0 <= i < |codes| ==> r[i] == RankRow(db, live, now, year, codes[i])
  {
    seq(|codes|, i requires 0 <= i < |codes| => RankRow(db, live, now, year, codes[i]))
  }

  /** The sort key `(value is None, -(value or 0.0))`. */
  datatype RankKey = RankKey(missing: bool, negated: real)

  function KeyOf(row: RankingRow): RankKey {
    RankKey(row.value.None?, if row.value.Some? then -row.value.value else 0.0)
  }

  /** Python's tuple order on the key: `False < True`, then ascending. */
  function RankLe(a: RankKey, b: RankKey): bool {
    (!a.missing && b.missing) || (a.missing == b.missing && a.negated <= b.negated)
  }

  lemma RankLeIsTotal()
    ensures StableSort.TotalOrder(RankLe)
  {
  }

  /** Known values in descending order, then the missing ones. */
  predicate RankedOrder(rows: seq<RankingRow>) {
    forall i, j :: 0 <= i < j < |rows| && rows[j].value.Some? ==>
      rows[i].value.Some? && rows[i].value.value >= rows[j].value.value
  }

  lemma KeyOrderIsRankedOrder(rows: seq<RankingRow>)
    requires StableSort.SortedBy(rows, KeyOf, RankLe)
    ensures RankedOrder(rows)
  {
    forall i, j | 0 <= i < j < |rows| && rows[j].value.Some?
      ensures rows[i].value.Some? && rows[i].value.value >= rows[j].value.value
    {
      assert RankLe(KeyOf(rows[i]), KeyOf(rows[j]));
    }
  }

  /** `gini_ranking`: 400 for no codes or more than 25; otherwise one row per requested code,
      a permutation of the unsorted rows in ranked order, rows of equal key (in particular
      all missing ones) keeping request order. */
  function GiniRanking(db: Db, live: Series.LiveFetch, now: string, year: int, countries: string)
    : (r: Result<seq<RankingRow>, HttpError>)
    ensures r.Err? <==> |ParseCodes(countries)| == 0 || |ParseCodes(countries)| > MaxRankingCountries
    ensures r.Err? ==> r.error.status == BadRequest
    ensures r.Ok? ==>
      var unsorted := RankRows(db, live, now, year, ParseCodes(countries));
      && |r.value| == |ParseCodes(countries)|
      && multiset(r.value) == multiset(unsorted)
      && RankedOrder(r.value)
      && forall k :: StableSort.WithKey(r.value, KeyOf, k) == StableSort.WithKey(unsorted, KeyOf, k)
  {
    var items := ParseCodes(countries);
    if |items| == 0 then Err(HttpError(BadRequest, "countries is required"))
    else if |items| > MaxRankingCountries then Err(HttpError(BadRequest, "Too many countries (max 25)"))
    else
      RankLeIsTotal();
      var sorted := StableSort.Sort(RankRows(db, live, now, year, items), KeyOf, RankLe);
      KeyOrderIsRankedOrder(sorted);
      Ok(sorted)
  }

  /** An item that strips to nothing. */
  predicate Blank(item: string) {
    |Text.Strip(item)| == 0
  }

  predicate AllBlank(parts: seq<string>) {
    forall k :: 0 <= k < |parts| ==> Blank(parts[k])
  }

  lemma NoItemsIff(parts: seq<string>)
    ensures |NonEmpty(StripAll(parts))| == 0 <==> AllBlank(parts)
  {
    NonEmptyEmptyIff(StripAll(parts));
  }

  /** Only a string made of blanks and commas is rejected as empty. */
  lemma ParseCodesEmptyIff(countries: string)
    ensures |ParseCodes(countries)| == 0 <==> AllBlank(Text.Split(countries, ','))
  {
    NoItemsIff(Text.Split(countries, ','));
    assert ParseCodes(countries) == NonEmpty(StripAll(Text.Split(countries, ',')));
  }

  /** Ranking rows read from the store report a value only if the store holds that value for
      that country and year. */
  lemma RankValueFromStore(db: Db, live: Series.LiveFetch, now: string, year: int, code: string)
    requires UsesStore(db, code, GiniIndicator)
    requires RankRow(db, live, now, year, code).value.Some?
    ensures var c, ind := FindCountry(db, Text.Upper(code)).value, FindIndicator(db, GiniIndicator).value;
      exists o :: o in db.observations && Of(o, c.id, ind.id) && o.year == year &&
        o.value == RankRow(db, live, now, year, code).value
  {
    var s := LoadSeries(db, live, now, code, GiniIndicator).value.0;
    var i :| 0 <= i < |s| && s[i].year == year && s[i].value == RankRow(db, live, now, year, code).value;
    StoredSeriesComesFromRows(db, live, now, code, GiniIndicator, i);
  }
}

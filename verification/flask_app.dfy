/** The stand-alone Flask proxy (`backend/app.py`): `GET /api/data` fetches a World Bank
    series through an in-memory cache with a time-to-live and filters it to the requested
    years. The clock readings, the network and `float()` of text are parameters. */
module FlaskApp {
  import opened Wrappers
  import Text
  import Series
  import WorldBank
  import PyConvert

  /** `CACHE_TTL_SECONDS` when unset. */
  const DefaultCacheTtl := 900

  const MissingParams := "Missing required query parameters: country, indicator"
  const RequestFailedText := "World Bank API request failed"

  // ----- the response cache -----

  datatype CacheEntry = CacheEntry(payload: seq<Series.Point>, expiresAt: real)

  type Cache = map<string, CacheEntry>

  function CacheKey(country: string, indicator: string): string {
    country + ":" + indicator
  }

  /** Codes without ':' never share a cache key. */
  lemma CacheKeyInjective(c1: string, i1: string, c2: string, i2: string)
    requires ':' !in c1 && ':' !in c2
    requires CacheKey(c1, i1) == CacheKey(c2, i2)
    ensures c1 == c2 && i1 == i2
  {
    var k := CacheKey(c1, i1);
    assert k == c2 + ":" + i2;
    assert k[..|c1|] == c1 && k[|c1|] == ':';
    assert k[..|c2|] == c2 && k[|c2|] == ':';
    Text.IndexOfUnique(k, ':', |c1|);
    Text.IndexOfUnique(k, ':', |c2|);
    assert c1 == k[..|c1|] == c2;
    assert i1 == k[|c1| + 1..] == i2;
  }

  /** With a ':' inside a code two different pairs do share a key. */
  lemma CacheKeyCollision()
    ensures CacheKey("a:b", "c") == CacheKey("a", "b:c")
  {
  }

  /** `ResponseCache.get` at time `now`: nothing for an absent key; an entry whose expiry
      lies strictly before `now` is dropped and reported absent. */
  function CacheGet(cache: Cache, key: string, now: real): (r: (Option<seq<Series.Point>>, Cache))
    ensures r.0.Some? <==> key in cache && now <= cache[key].expiresAt
    ensures r.0.Some? ==> r.0.value == cache[key].payload && r.1 == cache
    ensures r.0.None? ==> r.1 == cache - {key}
  {
    if key !in cache then (None, cache)
    else if cache[key].expiresAt < now then (None, cache - {key})
    else (Some(cache[key].payload), cache)
  }

  /** `ResponseCache.set` at time `now`. */
  function CacheSet(cache: Cache, key: string, payload: seq<Series.Point>, now: real, ttl: int): (r: Cache)
    ensures key in r && r[key] == CacheEntry(payload, now + ttl as real)
    ensures forall k :: k != key ==> (k in r <==> k in cache)
    ensures forall k :: k != key && k in cache ==> r[k] == cache[k]
  {
    cache[key := CacheEntry(payload, now + ttl as real)]
  }

  /** A stored series is served back until its time-to-live has passed, and only until then. */
  lemma SetThenGet(cache: Cache, key: string, payload: seq<Series.Point>, setAt: real, ttl: int, now: real)
    ensures var got := CacheGet(CacheSet(cache, key, payload, setAt, ttl), key, now).0;
      && (got.Some? <==> now <= setAt + ttl as real)
      && (got.Some? ==> got.value == payload)
  {
  }

  /** Storing under one key leaves the lookups of every other key as they were. */
  lemma SetKeepsOtherKeys(cache: Cache, key: string, other: string, payload: seq<Series.Point>, setAt: real, ttl: int, now: real)
    requires other != key
    ensures CacheGet(CacheSet(cache, key, payload, setAt, ttl), other, now).0 == CacheGet(cache, other, now).0
  {
  }

  // ----- fetching -----

  /** `requests`' `raise_for_status` refuses only 4xx and 5xx statuses. */
  predicate RequestsAccepts(status: int) {
    !(400 <= status < 600)
  }

  /** `fetch_indicator`'s request: 100 rows per page, the 60 most recent non-empty values. */
  function FlaskRequest(base: string, country: string, indicator: string): WorldBank.WbRequest {
    WorldBank.WbRequest(WorldBank.BuildUrl(base, country, indicator), "json", 100, 60)
  }

  /** `fetch_indicator`: a non-empty unexpired cached series is returned as is (an empty one
      is treated as a miss); otherwise the series is fetched, sorted by year and cached at
      `doneAt` — the clock reading after the exchange — whatever its length. A failed fetch
      caches nothing. */
  function FetchIndicator(cache: Cache, network: WorldBank.WbRequest -> WorldBank.WbResponse,
                          floatOfString: string -> Option<real>, base: string, now: real, doneAt: real, ttl: int,
                          country: string, indicator: string)
    : (r: (Result<seq<Series.Point>, WorldBank.FetchError>, Cache))
    ensures var key := CacheKey(country, indicator);
      var cached, afterGet := CacheGet(cache, key, now).0, CacheGet(cache, key, now).1;
      var live := WorldBank.FetchWith(RequestsAccepts, floatOfString, network(FlaskRequest(base, country, indicator)));
      && (cached.Some? && cached.value != [] ==> r == (Ok(cached.value), cache))
      && (!(cached.Some? && cached.value != []) ==> r.0 == live)
      && (!(cached.Some? && cached.value != []) && live.Err? ==> r.1 == afterGet)
      && (!(cached.Some? && cached.value != []) && live.Ok? ==> r.1 == CacheSet(afterGet, key, live.value, doneAt, ttl))
  {
    var key := CacheKey(country, indicator);
    var (cached, afterGet) := CacheGet(cache, key, now);
    if cached.Some? && cached.value != [] then (Ok(cached.value), afterGet)
    else
      match WorldBank.FetchWith(RequestsAccepts, floatOfString, network(FlaskRequest(base, country, indicator)))
      case Err(e) => (Err(e), afterGet)
      case Ok(series) => (Ok(series), CacheSet(afterGet, key, series, doneAt, ttl))
  }

  /** Every cached series is in year order with every value present, as the fetch leaves it. */
  predicate WellFormedCache(cache: Cache) {
    forall k :: k in cache ==>
      && Series.YearsAscending(cache[k].payload)
      && forall j :: 0 <= j < |cache[k].payload| ==> cache[k].payload[j].value.Some?
  }

  /** Fetching keeps the cache well formed, and every series it returns is in year order with
      no missing value, whether it came from the cache or from the network. */
  lemma FetchIndicatorWellFormed(cache: Cache, network: WorldBank.WbRequest -> WorldBank.WbResponse,
                                 floatOfString: string -> Option<real>, base: string, now: real, doneAt: real, ttl: int,
                                 country: string, indicator: string)
    requires WellFormedCache(cache)
    ensures var r := FetchIndicator(cache, network, floatOfString, base, now, doneAt, ttl, country, indicator);
      && WellFormedCache(r.1)
      && (r.0.Ok? ==> Series.YearsAscending(r.0.value))
      && (r.0.Ok? ==> forall j :: 0 <= j < |r.0.value| ==> r.0.value[j].value.Some?)
  {
    var key := CacheKey(country, indicator);
    var afterGet := CacheGet(cache, key, now).1;
    assert WellFormedCache(afterGet);
  }

  /** A cache hit never reaches the network: two different networks give the same answer. */
  lemma CacheHitSkipsNetwork(cache: Cache, net1: WorldBank.WbRequest -> WorldBank.WbResponse,
                             net2: WorldBank.WbRequest -> WorldBank.WbResponse,
                             floatOfString: string -> Option<real>, base: string, now: real, doneAt: real, ttl: int,
                             country: string, indicator: string)
    requires CacheKey(country, indicator) in cache
    requires now <= cache[CacheKey(country, indicator)].expiresAt
    requires cache[CacheKey(country, indicator)].payload != []
    ensures FetchIndicator(cache, net1, floatOfString, base, now, doneAt, ttl, country, indicator)
         == FetchIndicator(cache, net2, floatOfString, base, now, doneAt, ttl, country, indicator)
    ensures FetchIndicator(cache, net1, floatOfString, base, now, doneAt, ttl, country, indicator).1 == cache
  {
  }

  // ----- the year window of `/api/data` -----

  /** A bound is applied only when the query argument is present and non-empty. */
  function BoundText(arg: Option<string>): (r: Option<string>)
    ensures r.Some? <==> arg.Some? && arg.value != ""
  {
    if arg.Some? && arg.value != "" then arg else None
  }

  /** `within_range(entry)`: None when it reaches `int()` of a bound that is not a number,
      which raises outside the handler's `try`. The end bound is read only when the start
      bound did not already exclude the year. */
  function WithinRange(year: int, start: Option<string>, end: Option<string>): (r: Option<bool>)
    ensures BoundParses(start) && BoundParses(end) ==> r == Some(Series.InWindow(year, ParsedBound(start), ParsedBound(end)))
    ensures !BoundParses(start) ==> r.None?
    ensures r.None? ==> !BoundParses(start) || !BoundParses(end)
  {
    var lo, hi := BoundText(start), BoundText(end);
    if lo.Some? && PyConvert.ParseInt(lo.value).None? then None
    else if lo.Some? && year < PyConvert.ParseInt(lo.value).value then Some(false)
    else if hi.Some? && PyConvert.ParseInt(hi.value).None? then None
    else if hi.Some? && year > PyConvert.ParseInt(hi.value).value then Some(false)
    else Some(true)
  }

  /** `[entry for entry in series if within_range(entry)]`; None when some entry's check
      raises. */
  function FilterRange(series: seq<Series.Point>, start: Option<string>, end: Option<string>): (r: Option<seq<Series.Point>>)
    ensures r.Some? ==> |r.value| <= |series|
  {
    if |series| == 0 then Some([])
    else
      var init := series[..|series| - 1];
      var last := series[|series| - 1];
      assert forall k :: 0 <= k < |init| ==> init[k] == series[k];
      match FilterRange(init, start, end)
      case None => None
      case Some(kept) =>
        match WithinRange(last.year, start, end)
        case None => None
        case Some(keep) => Some(if keep then kept + [last] else kept)
  }

  /** The filter raises exactly when some entry's check reaches a bound that is not a
      number. */
  lemma {:induction false} FilterRangeFailsIff(series: seq<Series.Point>, start: Option<string>, end: Option<string>)
    ensures FilterRange(series, start, end).None? <==> exists k :: 0 <= k < |series| && WithinRange(series[k].year, start, end).None?
  {
    if |series| > 0 {
      FilterRangeFailsIff(series[..|series| - 1], start, end);
      FilterRangeLast(series, start, end);
      SomeRowFailsLast(series, start, end);
    }
  }

  /** Some row's check raises. */
  predicate SomeRowFails(series: seq<Series.Point>, start: Option<string>, end: Option<string>) {
    exists k :: 0 <= k < |series| && WithinRange(series[k].year, start, end).None?
  }

  /** Some row's check raises exactly when some row but the last does or the last does. */
  lemma SomeRowFailsLast(series: seq<Series.Point>, start: Option<string>, end: Option<string>)
    requires |series| > 0
    ensures SomeRowFails(series, start, end) <==>
      SomeRowFails(series[..|series| - 1], start, end) || WithinRange(series[|series| - 1].year, start, end).None?
  {
    var init := series[..|series| - 1];
    assert forall k :: 0 <= k < |init| ==> init[k] == series[k];
  }

  /** The bound as the window uses it: absent when the argument is absent or empty. */
  function ParsedBound(arg: Option<string>): Option<int>
    requires BoundText(arg).None? || PyConvert.ParseInt(BoundText(arg).value).Some?
  {
    if BoundText(arg).None? then None else PyConvert.ParseInt(BoundText(arg).value)
  }

  predicate BoundParses(arg: Option<string>) {
    BoundText(arg).None? || PyConvert.ParseInt(BoundText(arg).value).Some?
  }

  /** The filter of a non-empty series raises exactly when the filter of all but its last
      row raises or the last row's check does. */
  lemma FilterRangeLast(series: seq<Series.Point>, start: Option<string>, end: Option<string>)
    requires |series| > 0
    ensures FilterRange(series, start, end).None? <==>
      FilterRange(series[..|series| - 1], start, end).None? || WithinRange(series[|series| - 1].year, start, end).None?
  {
  }

  /** `int()` accepts digit grouping, so `start=1_990` is the start year 1990. */
  lemma GroupedStartBound(series: seq<Series.Point>)
    ensures WithinRange(1989, Some("1_990"), None) == Some(false)
    ensures WithinRange(1990, Some("1_990"), None) == Some(true)
    ensures FilterRange(series, Some("1_990"), None) == Some(Series.FilterWindow(series, Some(1990), None))
  {
    PyConvert.UnderscoreExample();
    assert BoundText(Some("1_990")) == Some("1_990");
    FilterRangeIsWindow(series, Some("1_990"), None);
  }

  /** With bounds that parse, the filter is the ordinary inclusive year window. */
  lemma {:induction false} FilterRangeIsWindow(series: seq<Series.Point>, start: Option<string>, end: Option<string>)
    requires BoundParses(start) && BoundParses(end)
    ensures FilterRange(series, start, end) == Some(Series.FilterWindow(series, ParsedBound(start), ParsedBound(end)))
  {
    if |series| > 0 {
      var init, last := series[..|series| - 1], series[|series| - 1];
      FilterRangeIsWindow(init, start, end);
      var window := Series.FilterWindow(init, ParsedBound(start), ParsedBound(end));
      assert WithinRange(last.year, start, end) == Some(Series.InWindow(last.year, ParsedBound(start), ParsedBound(end)));
      assert Series.FilterWindow(series, ParsedBound(start), ParsedBound(end))
          == window + (if Series.InWindow(last.year, ParsedBound(start), ParsedBound(end)) then [last] else []);
      assert FilterRange(init, start, end) == Some(window);
      assert window + [] == window;
      assert FilterRange(series, start, end)
          == Some(if Series.InWindow(last.year, ParsedBound(start), ParsedBound(end)) then window + [last] else window);
    } else {
      assert FilterRange(series, start, end) == Some([]);
    }
  }

  /** An end bound that is not a number goes unnoticed when every entry is already before the
      start: its `int()` is never reached. */
  lemma {:induction false} BadEndUnreachedBeforeStart(series: seq<Series.Point>, start: Option<string>, end: Option<string>)
    requires BoundText(start).Some? && PyConvert.ParseInt(BoundText(start).value).Some?
    requires forall k :: 0 <= k < |series| ==> series[k].year < PyConvert.ParseInt(BoundText(start).value).value
    ensures FilterRange(series, start, end) == Some([])
  {
    if |series| > 0 {
      var init := series[..|series| - 1];
      assert forall k :: 0 <= k < |init| ==> init[k] == series[k];
      BadEndUnreachedBeforeStart(init, start, end);
    }
  }

  /** Filtering keeps year order. */
  lemma {:induction false} FilterRangeKeepsOrder(series: seq<Series.Point>, start: Option<string>, end: Option<string>)
    requires Series.YearsAscending(series)
    requires FilterRange(series, start, end).Some?
    ensures Series.YearsAscending(FilterRange(series, start, end).value)
    ensures forall k :: 0 <= k < |FilterRange(series, start, end).value| ==> FilterRange(series, start, end).value[k] in series
  {
    if |series| > 0 {
      var init := series[..|series| - 1];
      var last := series[|series| - 1];
      assert forall k :: 0 <= k < |init| ==> init[k] == series[k];
      FilterRangeKeepsOrder(init, start, end);
      var kept := FilterRange(init, start, end).value;
      var r := FilterRange(series, start, end).value;
      if r != kept {
        assert r == kept + [last];
        forall i, j | 0 <= i < j < |r|
          ensures r[i].year <= r[j].year
        {
          if j < |kept| {
            assert r[i] == kept[i] && r[j] == kept[j];
          } else {
            assert r[i] == kept[i];
            var m :| 0 <= m < |init| && init[m] == kept[i];
            assert series[m] == kept[i];
          }
        }
      }
    }
  }

  // ----- the endpoint -----

  datatype Body = Points(points: seq<Series.Point>) | ErrorJson(error: string, details: Option<string>) | InternalError

  datatype Reply = Reply(status: int, body: Body)

  /** `GET /api/data`: the codes are lower-cased, both are required (400); a failed exchange
      answers 502 with the error's text, the format error 500 with its message; an exception
      the handler does not catch (a malformed payload, a bound that is not a number) becomes
      Flask's plain 500. */
  function GetIndicatorData(cache: Cache, network: WorldBank.WbRequest -> WorldBank.WbResponse,
                            floatOfString: string -> Option<real>, base: string, now: real, doneAt: real, ttl: int,
                            country: Option<string>, indicator: Option<string>, start: Option<string>, end: Option<string>)
    : (r: (Reply, Cache))
    ensures var c, i := Text.Lower(country.GetOr("")), Text.Lower(indicator.GetOr(""));
      && (c == [] || i == [] ==> r == (Reply(400, ErrorJson(MissingParams, None)), cache))
      && (c != [] && i != [] ==>
            var fetched, cache1 := FetchIndicator(cache, network, floatOfString, base, now, doneAt, ttl, c, i).0,
                                    FetchIndicator(cache, network, floatOfString, base, now, doneAt, ttl, c, i).1;
            && r.1 == cache1
            && (fetched.Err? && fetched.error.RequestFailed? ==> r.0 == Reply(502, ErrorJson(RequestFailedText, Some(fetched.error.detail))))
            && (fetched.Err? && fetched.error.BadFormat? ==> r.0 == Reply(500, ErrorJson(fetched.error.detail, None)))
            && (fetched.Err? && fetched.error.Crash? ==> r.0 == Reply(500, InternalError))
            && (fetched.Ok? ==>
                  && (FilterRange(fetched.value, start, end).None? ==> r.0 == Reply(500, InternalError))
                  && (FilterRange(fetched.value, start, end).Some? ==> r.0 == Reply(200, Points(FilterRange(fetched.value, start, end).value)))))
  {
    var c, i := Text.Lower(country.GetOr("")), Text.Lower(indicator.GetOr(""));
    if c == [] || i == [] then (Reply(400, ErrorJson(MissingParams, None)), cache)
    else
      var (fetched, cache1) := FetchIndicator(cache, network, floatOfString, base, now, doneAt, ttl, c, i);
      match fetched
      case Err(e) =>
        if e.RequestFailed? then (Reply(502, ErrorJson(RequestFailedText, Some(e.detail))), cache1)
        else if e.BadFormat? then (Reply(500, ErrorJson(e.detail, None)), cache1)
        else (Reply(500, InternalError), cache1)
      case Ok(series) =>
        match FilterRange(series, start, end)
        case None => (Reply(500, InternalError), cache1)
        case Some(kept) => (Reply(200, Points(kept)), cache1)
  }

  /** Every 200 answer is a year-ordered series of present values inside the window, and the
      cache stays well formed across requests. */
  lemma GetIndicatorDataWellFormed(cache: Cache, network: WorldBank.WbRequest -> WorldBank.WbResponse,
                                   floatOfString: string -> Option<real>, base: string, now: real, doneAt: real, ttl: int,
                                   country: Option<string>, indicator: Option<string>, start: Option<string>, end: Option<string>)
    requires WellFormedCache(cache)
    requires BoundParses(start) && BoundParses(end)
    ensures var reply, cache1 := GetIndicatorData(cache, network, floatOfString, base, now, doneAt, ttl, country, indicator, start, end).0,
                                 GetIndicatorData(cache, network, floatOfString, base, now, doneAt, ttl, country, indicator, start, end).1;
      && WellFormedCache(cache1)
      && (reply.status == 200 ==>
            && reply.body.Points?
            && Series.YearsAscending(reply.body.points)
            && forall k :: 0 <= k < |reply.body.points| ==>
                 && reply.body.points[k].value.Some?
                 && Series.InWindow(reply.body.points[k].year, ParsedBound(start), ParsedBound(end)))
  {
    var c, i := Text.Lower(country.GetOr("")), Text.Lower(indicator.GetOr(""));
    if c != [] && i != [] {
      FetchIndicatorWellFormed(cache, network, floatOfString, base, now, doneAt, ttl, c, i);
      var fetched := FetchIndicator(cache, network, floatOfString, base, now, doneAt, ttl, c, i).0;
      if fetched.Ok? {
        FilterRangeIsWindow(fetched.value, start, end);
        FilterRangeKeepsOrder(fetched.value, start, end);
        var kept := FilterRange(fetched.value, start, end).value;
        KeptAreValued(fetched.value, kept);
        assert GetIndicatorData(cache, network, floatOfString, base, now, doneAt, ttl, country, indicator, start, end).0 == Reply(200, Points(kept));
      }
    }
  }

  /** Rows drawn from a series of present values carry present values. */
  lemma KeptAreValued(series: seq<Series.Point>, kept: seq<Series.Point>)
    requires forall j :: 0 <= j < |series| ==> series[j].value.Some?
    requires forall k :: 0 <= k < |kept| ==> kept[k] in series
    ensures forall k :: 0 <= k < |kept| ==> kept[k].value.Some?
  {
    forall k | 0 <= k < |kept|
      ensures kept[k].value.Some?
    {
      var m :| 0 <= m < |series| && series[m] == kept[k];
    }
  }
}

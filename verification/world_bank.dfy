/** The World Bank indicator client shared by the FastAPI service (`services/world_bank.py`)
    and the Flask service (`app.py`): URL building, entry normalisation and payload checks.
    The HTTP exchange itself is a parameter: a function from the request to the response. */
module WorldBank {
  import opened Wrappers
  import opened OrderedMap
  import opened Json
  import opened PyConvert
  import Text
  import Series
  import StableSort

  const WorldBankBase := "https://api.worldbank.org/v2/country"

  /** `build_url`. */
  function BuildUrl(base: string, country: string, indicator: string): string {
    base + "/" + country + "/indicator/" + indicator
  }

  /** The URL takes the codes back apart: splitting at '/' yields the base's segments and
      then exactly the country, "indicator" and the indicator. */
  lemma BuildUrlSegments(base: string, country: string, indicator: string)
    requires '/' !in country && '/' !in indicator
    ensures Text.Split(BuildUrl(base, country, indicator), '/') == Text.Split(base, '/') + [country, "indicator", indicator]
  {
    var tail := "indicator" + ['/'] + indicator;
    assert '/' !in "indicator";
    Text.SplitConcat("indicator", indicator, '/');
    assert Text.Split(tail, '/') == ["indicator", indicator];
    var mid := country + ['/'] + tail;
    Text.SplitConcat(country, tail, '/');
    assert Text.Split(mid, '/') == [country, "indicator", indicator];
    Text.SplitConcat(base, mid, '/');
    UrlShape(base, country, indicator);
  }

  lemma UrlShape(base: string, country: string, indicator: string)
    ensures BuildUrl(base, country, indicator) == base + ['/'] + (country + ['/'] + ("indicator" + ['/'] + indicator))
  {
    assert "/indicator/" == ['/'] + "indicator" + ['/'];
  }

  /** `normalize_entry`: None when value or date is missing or null or cannot be converted;
      otherwise the integer year and the numeric value. */
  function NormalizeEntry(floatOfString: string -> Option<real>, fields: seq<Entry<string, Value>>): (r: Option<Series.Point>)
    ensures r.Some? <==>
      && Field(fields, "value").Some? && Field(fields, "date").Some?
      && PyInt(Field(fields, "date").value).Some? && PyFloat(floatOfString, Field(fields, "value").value).Some?
    ensures r.Some? ==>
      && r.value.year == PyInt(Field(fields, "date").value).value
      && r.value.value == PyFloat(floatOfString, Field(fields, "value").value)
  {
    match (Field(fields, "value"), Field(fields, "date"))
    case (Some(value), Some(year)) =>
      (match (PyInt(year), PyFloat(floatOfString, value))
       case (Some(y), Some(x)) => Some(Series.Point(y, Some(x)))
       case _ => None)
    case _ => None
  }

  /** The date string "2020" converts to the year 2020. */
  lemma Year2020()
    ensures PyInt(JStr("2020")) == Some(2020)
  {
    assert ShowNat(2) == "2";
    assert ShowNat(20) == "20";
    assert ShowNat(202) == "202";
    assert ShowInt(2020) == "2020";
    ParseShowInt(2020);
  }

  /** A typical World Bank row normalises to its year and value; a null value drops it. */
  lemma NormalizeEntryExamples(floatOfString: string -> Option<real>)
    ensures NormalizeEntry(floatOfString, [Entry("date", JStr("2020")), Entry("value", JNum(3.5))]) == Some(Series.Point(2020, Some(3.5)))
    ensures NormalizeEntry(floatOfString, [Entry("date", JStr("2020")), Entry("value", JNull)]).None?
  {
    Year2020();
    NormalizeDated(floatOfString, "2020", 2020, 3.5);
    var nulled := [Entry("date", JStr("2020")), Entry("value", JNull)];
    assert LastFor(nulled, "value") == Some(JNull);
  }

  /** `int()` accepts digit grouping: a date "2_020" is the year 2020. */
  lemma GroupedYear2020()
    ensures PyInt(JStr("2_020")) == Some(2020)
  {
    UnderscoreYearExample();
  }

  /** A row dated "2_020" normalises to the year 2020. */
  lemma GroupedDate(floatOfString: string -> Option<real>)
    ensures NormalizeEntry(floatOfString, [Entry("date", JStr("2_020")), Entry("value", JNum(3.5))]) == Some(Series.Point(2020, Some(3.5)))
  {
    GroupedYear2020();
    NormalizeDated(floatOfString, "2_020", 2020, 3.5);
  }

  /** A row with a date `int()` accepts and a numeric value normalises to both. */
  lemma NormalizeDated(floatOfString: string -> Option<real>, date: string, year: int, x: real)
    requires PyInt(JStr(date)) == Some(year)
    ensures NormalizeEntry(floatOfString, [Entry("date", JStr(date)), Entry("value", JNum(x))]) == Some(Series.Point(year, Some(x)))
  {
    var valued := [Entry("date", JStr(date)), Entry("value", JNum(x))];
    assert valued[..1] == [Entry("date", JStr(date))];
    assert "value" != "date";
    assert LastFor(valued, "date") == Some(JStr(date));
    assert Field(valued, "value") == Some(JNum(x));
  }

  // ----- the payload -----

  /** Why a fetch failed: the HTTP exchange (`RequestException`, `HTTPStatusError`, an
      undecodable body), the documented format check (`ValueError`), or an exception the
      code does not anticipate (`TypeError`, `AttributeError`). */
  datatype FetchError = RequestFailed(detail: string) | BadFormat(detail: string) | Crash(detail: string)

  const UnexpectedFormat := "Unexpected response format from World Bank API"

  /** `for row in payload[1]`: a list yields its items; iterating an empty string or object
      yields nothing, a non-empty one yields strings (so `row.get` fails); anything else is
      not iterable. */
  function RowsOf(v: Value): (r: Result<seq<Value>, FetchError>)
    ensures r.Ok? <==> v.JList? || v == JStr("") || v == JObject([])
    ensures v.JList? ==> r == Ok(v.items)
    ensures r.Ok? && !v.JList? ==> r.value == []
  {
    match v
    case JList(xs) => Ok(xs)
    case JStr(s) => if s == "" then Ok([]) else Err(Crash("'str' object has no attribute 'get'"))
    case JObject(fs) => if fs == [] then Ok([]) else Err(Crash("'str' object has no attribute 'get'"))
    case _ => Err(Crash("'" + TypeName(v) + "' object is not iterable"))
  }

  /** The normalised rows, in payload order, with unconvertible ones dropped; a row that is
      not an object raises `AttributeError`. */
  function NormalizeAll(floatOfString: string -> Option<real>, rows: seq<Value>): (r: Result<seq<Series.Point>, FetchError>)
    ensures r.Ok? <==> forall i :: 0 <= i < |rows| ==> rows[i].JObject?
    ensures r.Ok? ==> |r.value| <= |rows|
    ensures r.Ok? ==> forall k :: 0 <= k < |r.value| ==> r.value[k].value.Some?
  {
    if |rows| == 0 then Ok([])
    else
      var init := rows[..|rows| - 1];
      var last := rows[|rows| - 1];
      assert forall i :: 0 <= i < |init| ==> init[i] == rows[i];
      match NormalizeAll(floatOfString, init)
      case Err(e) => Err(e)
      case Ok(ps) =>
        if !last.JObject? then Err(Crash("'" + TypeName(last) + "' object has no attribute 'get'"))
        else
          match NormalizeEntry(floatOfString, last.fields)
          case Some(p) => Ok(ps + [p])
          case None => Ok(ps)
  }

  /** Each kept point is the normalisation of some row of the payload. */
  lemma {:induction false} NormalizeAllFromRows(floatOfString: string -> Option<real>, rows: seq<Value>, k: int)
    requires NormalizeAll(floatOfString, rows).Ok?
    requires 0 <= k < |NormalizeAll(floatOfString, rows).value|
    ensures exists i ::
      && 0 <= i < |rows|
      && rows[i].JObject?
      && NormalizeEntry(floatOfString, rows[i].fields) == Some(NormalizeAll(floatOfString, rows).value[k])
  {
    var init := rows[..|rows| - 1];
    assert forall i :: 0 <= i < |init| ==> init[i] == rows[i];
    var ps := NormalizeAll(floatOfString, init).value;
    if k < |ps| {
      NormalizeAllFromRows(floatOfString, init, k);
      var i :| 0 <= i < |init| && init[i].JObject? && NormalizeEntry(floatOfString, init[i].fields) == Some(ps[k]);
      assert rows[i] == init[i];
    } else {
      assert NormalizeEntry(floatOfString, rows[|rows| - 1].fields) == Some(NormalizeAll(floatOfString, rows).value[k]);
    }
  }

  /** Every object row that normalises contributes a point: nothing convertible is lost. */
  lemma {:induction false} NormalizeAllKeepsRows(floatOfString: string -> Option<real>, rows: seq<Value>, i: int)
    requires NormalizeAll(floatOfString, rows).Ok?
    requires 0 <= i < |rows| && NormalizeEntry(floatOfString, rows[i].fields).Some?
    ensures NormalizeEntry(floatOfString, rows[i].fields).value in NormalizeAll(floatOfString, rows).value
  {
    var init := rows[..|rows| - 1];
    assert forall j :: 0 <= j < |init| ==> init[j] == rows[j];
    if i < |init| {
      NormalizeAllKeepsRows(floatOfString, init, i);
    }
  }

  /** The payload handling of `fetch_indicator_series` / `fetch_indicator`: a list of at
      least two items whose second item holds the rows; the points come back sorted by year. */
  function ParsePayload(floatOfString: string -> Option<real>, payload: Value): (r: Result<seq<Series.Point>, FetchError>)
    ensures !(payload.JList? && |payload.items| >= 2) ==> r == Err(BadFormat(UnexpectedFormat))
    ensures payload.JList? && |payload.items| >= 2 ==>
      && (RowsOf(payload.items[1]).Err? ==> r == Err(RowsOf(payload.items[1]).error))
      && (RowsOf(payload.items[1]).Ok? && NormalizeAll(floatOfString, RowsOf(payload.items[1]).value).Err? ==>
            r == Err(NormalizeAll(floatOfString, RowsOf(payload.items[1]).value).error))
      && (RowsOf(payload.items[1]).Ok? && NormalizeAll(floatOfString, RowsOf(payload.items[1]).value).Ok? ==>
            r.Ok? && multiset(r.value) == multiset(NormalizeAll(floatOfString, RowsOf(payload.items[1]).value).value))
    ensures r.Ok? ==> Series.YearsAscending(r.value)
    ensures r.Ok? ==> forall k :: 0 <= k < |r.value| ==> r.value[k].value.Some?
  {
    if !(payload.JList? && |payload.items| >= 2) then Err(BadFormat(UnexpectedFormat))
    else
      match RowsOf(payload.items[1])
      case Err(e) => Err(e)
      case Ok(rows) =>
        match NormalizeAll(floatOfString, rows)
        case Err(e) => Err(e)
        case Ok(ps) =>
          var sorted := Series.SortByYear(ps);
          forall k | 0 <= k < |sorted|
            ensures sorted[k].value.Some?
          {
            assert sorted[k] in multiset(ps);
          }
          Ok(sorted)
  }

  /** The World Bank answers `[metadata, null]` for a pair without data: iterating `None`
      raises, so such a pair is an error rather than an empty series. */
  lemma NullRowsIsAnError(floatOfString: string -> Option<real>, meta: Value)
    ensures ParsePayload(floatOfString, JList([meta, JNull])).Err?
    ensures ParsePayload(floatOfString, JList([meta, JNull])).error.Crash?
  {
  }

  // ----- the HTTP exchange -----

  /** The GET request: the URL plus the fixed query parameters. */
  datatype WbRequest = WbRequest(url: string, format: string, perPage: int, mrnev: int)

  /** The outcome of sending a request: a transport error, or a status with a body that may
      not decode as JSON. */
  datatype WbResponse = TransportError(detail: string) | WbHttp(status: int, body: Option<Value>)

  /** `fetch_indicator_series`'s request: 200 rows per page, the 70 most recent non-empty
      values. */
  function FastApiRequest(country: string, indicator: string): WbRequest {
    WbRequest(BuildUrl(WorldBankBase, country, indicator), "json", 200, 70)
  }

  /** The exchange: `accept` says which statuses pass `raise_for_status` (httpx refuses every
      status outside 2xx, requests only 4xx and 5xx). */
  function FetchWith(accept: int -> bool, floatOfString: string -> Option<real>, resp: WbResponse): (r: Result<seq<Series.Point>, FetchError>)
    ensures resp.TransportError? ==> r == Err(RequestFailed(resp.detail))
    ensures resp.WbHttp? && !accept(resp.status) ==> r.Err? && r.error.RequestFailed?
    ensures resp.WbHttp? && accept(resp.status) && resp.body.None? ==> r.Err? && r.error.RequestFailed?
    ensures resp.WbHttp? && accept(resp.status) && resp.body.Some? ==> r == ParsePayload(floatOfString, resp.body.value)
  {
    match resp
    case TransportError(d) => Err(RequestFailed(d))
    case WbHttp(status, body) =>
      if !accept(status) then Err(RequestFailed("HTTP status error"))
      else if body.None? then Err(RequestFailed("response body is not JSON"))
      else ParsePayload(floatOfString, body.value)
  }

  predicate HttpxSuccess(status: int) { 200 <= status < 300 }

  function ErrorText(e: FetchError): string {
    e.detail
  }

  /** The live source the FastAPI endpoints use: every failure becomes the exception's text. */
  function FastApiFetch(network: WbRequest -> WbResponse, floatOfString: string -> Option<real>, country: string, indicator: string)
    : (r: Result<seq<Series.Point>, string>)
    ensures r.Ok? ==> Series.YearsAscending(r.value)
    ensures r.Ok? ==> forall k :: 0 <= k < |r.value| ==> r.value[k].value.Some?
  {
    match FetchWith(HttpxSuccess, floatOfString, network(FastApiRequest(country, indicator)))
    case Ok(ps) => Ok(ps)
    case Err(e) => Err(ErrorText(e))
  }
}

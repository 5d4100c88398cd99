/** The forecasting panel of the React client (`components/ForecastPanel.jsx`): the last
    valued history row, the coverage figures, the CSV export rows, the change summary and the
    guard in front of the two requests. Number formatting is a parameter. */
module ForecastPanel {
  import opened Wrappers
  import Text
  import Series
  import PyConvert

  // ----- history -----

  /** `lastValidValue`: the last row whose value is a number, or null. */
  function LastValidValue(history: seq<Series.Point>): (r: Option<Series.Point>)
    ensures r.None? <==> forall i :: 0 <= i < |history| ==> history[i].value.None?
    ensures r.Some? ==> r.value.value.Some? && r.value in history
    ensures r.Some? ==>
      exists i :: 0 <= i < |history| && history[i] == r.value &&
        forall j :: i < j < |history| ==> history[j].value.None?
  {
    Series.LastValuedIsLatest(history);
    Series.LastValued(history)
  }

  /** The coverage box: the year span of all rows, the years it should hold, the rows with a
      value, and the rounded percentage. */
  datatype Coverage = Coverage(minYear: int, maxYear: int, expected: int, actual: nat, percent: int)

  /** `Math.round(100 * actual / expected)` on exact numbers: rounding half up, i.e. the
      integer `p` with `p <= 100 * actual / expected + 1/2 < p + 1`, scaled by `2 * expected`. */
  function RoundPercent(actual: nat, expected: int): (p: int)
    requires expected > 0
    ensures 2 * expected * p <= 200 * actual + expected < 2 * expected * p + 2 * expected
  {
    (200 * actual + expected) / (2 * expected)
  }

  /** `computeCoverage`: null for an empty history. The guard `expected <= 0` can never fire,
      since the span of a non-empty history holds at least one year. */
  function ComputeCoverage(history: seq<Series.Point>): (r: Option<Coverage>)
    ensures r.None? <==> |history| == 0
    ensures r.Some? ==>
      && r.value.expected == r.value.maxYear - r.value.minYear + 1 >= 1
      && (forall i :: 0 <= i < |history| ==> r.value.minYear <= history[i].year <= r.value.maxYear)
      && (exists i :: 0 <= i < |history| && history[i].year == r.value.minYear)
      && (exists i :: 0 <= i < |history| && history[i].year == r.value.maxYear)
      && r.value.actual == |Series.Valued(history)|
      && 2 * r.value.expected * r.value.percent <= 200 * r.value.actual + r.value.expected
      && 200 * r.value.actual + r.value.expected < 2 * r.value.expected * r.value.percent + 2 * r.value.expected
  {
    if |history| == 0 then None
    else
      var lo := Series.MinYear(history);
      var hi := Series.MaxYear(history);
      var expected := hi - lo + 1;
      var actual := |Series.Valued(history)|;
      if expected <= 0 then None
      else Some(Coverage(lo, hi, expected, actual, RoundPercent(actual, expected)))
  }

  /** Full coverage: one valued row for every year of the span gives 100 percent. */
  lemma FullCoverageIsHundred(history: seq<Series.Point>)
    requires ComputeCoverage(history).Some?
    requires ComputeCoverage(history).value.actual == ComputeCoverage(history).value.expected
    ensures ComputeCoverage(history).value.percent == 100
  {
    var c := ComputeCoverage(history).value;
    assert c.percent == RoundPercent(c.actual, c.expected);
    RoundPercentOfEqual(c.expected);
  }

  lemma RoundPercentOfEqual(n: int)
    requires n > 0
    ensures RoundPercent(n, n) == 100
  {
    var p := RoundPercent(n, n);
    assert 2 * n * p <= 201 * n < 2 * n * 101;
    MulStrictCancel(2 * n, p, 101);
    assert 2 * n * 100 < 201 * n < 2 * n * (p + 1);
    MulStrictCancel(2 * n, 100, p + 1);
  }

  lemma MulStrictCancel(k: int, x: int, y: int)
    requires k > 0 && k * x < k * y
    ensures x < y
  {
  }

  // ----- the forecast -----

  /** A forecast point as the API returns it; the bounds may be missing. */
  datatype ForecastPoint = ForecastPoint(year: int, value: real, lower: Option<real>, upper: Option<real>)

  datatype Forecast = Forecast(horizonYears: int, points: seq<ForecastPoint>)

  // ----- the CSV export -----

  const CsvHeader := ["type", "year", "value", "lower", "upper"]

  /** A cell of `Array.join`: `null` and `undefined` print as nothing. */
  function Cell(showNum: real -> string, v: Option<real>): string {
    match v
    case Some(x) => showNum(x)
    case None => ""
  }

  function CoverageRow(coverage: Option<Coverage>): (r: seq<string>)
    ensures |r| == 5 && r[0] == "meta" && r[1] == "coverage"
    ensures coverage.None? ==> r[2] == "n/a" && r[3] == "" && r[4] == ""
  {
    match coverage
    case None => ["meta", "coverage", "n/a", "", ""]
    case Some(c) =>
      ["meta", "coverage",
       PyConvert.ShowInt(c.percent) + "% (" + PyConvert.ShowInt(c.actual) + "/" + PyConvert.ShowInt(c.expected) + ")",
       PyConvert.ShowInt(c.minYear), PyConvert.ShowInt(c.maxYear)]
  }

  /** The row of one historical observation; a missing value is an empty cell. */
  function HistoryRow(showNum: real -> string, p: Series.Point): (r: seq<string>)
    ensures |r| == 5 && r[0] == "historical" && r[1] == PyConvert.ShowInt(p.year)
    ensures r[2] == Cell(showNum, p.value) && r[3] == "" && r[4] == ""
  {
    ["historical", PyConvert.ShowInt(p.year), Cell(showNum, p.value), "", ""]
  }

  /** The row of one forecast point with its interval. */
  function ForecastRow(showNum: real -> string, p: ForecastPoint): (r: seq<string>)
    ensures |r| == 5 && r[0] == "forecast" && r[1] == PyConvert.ShowInt(p.year) && r[2] == showNum(p.value)
    ensures r[3] == Cell(showNum, p.lower) && r[4] == Cell(showNum, p.upper)
  {
    ["forecast", PyConvert.ShowInt(p.year), showNum(p.value), Cell(showNum, p.lower), Cell(showNum, p.upper)]
  }

  /** The rows of `exportForecastCsv`: the header, the coverage row, one "historical" row per
      history row, one "forecast" row per forecast point. */
  function CsvRows(showNum: real -> string, history: seq<Series.Point>, forecast: Forecast, coverage: Option<Coverage>)
    : (r: seq<seq<string>>)
    ensures |r| == 2 + |history| + |forecast.points|
    ensures r[0] == CsvHeader && r[1] == CoverageRow(coverage)
    ensures forall i :: 0 <= i < |history| ==> r[2 + i] == HistoryRow(showNum, history[i])
    ensures forall j :: 0 <= j < |forecast.points| ==> r[2 + |history| + j] == ForecastRow(showNum, forecast.points[j])
  {
    var hs := seq(|history|, i requires 0 <= i < |history| => HistoryRow(showNum, history[i]));
    var fs := seq(|forecast.points|, j requires 0 <= j < |forecast.points| => ForecastRow(showNum, forecast.points[j]));
    var r := [CsvHeader, CoverageRow(coverage)] + hs + fs;
    r
  }

  function JoinRows(rows: seq<seq<string>>): (r: seq<string>)
    ensures |r| == |rows|
    ensures forall k :: 0 <= k < |rows| ==> r[k] == Text.Join(rows[k], ',')
  {
    seq(|rows|, k requires 0 <= k < |rows| => Text.Join(rows[k], ','))
  }

  /** The file's text: fields joined by ',' and rows by a newline. */
  function Csv(showNum: real -> string, history: seq<Series.Point>, forecast: Forecast, coverage: Option<Coverage>): string {
    Text.Join(JoinRows(CsvRows(showNum, history, forecast, coverage)), '\n')
  }

  /** The number format writes neither commas nor newlines. */
  ghost predicate PlainNumbers(showNum: real -> string) {
    forall x: real :: ',' !in showNum(x) && '\n' !in showNum(x)
  }

  predicate PlainCell(s: string) {
    ',' !in s && '\n' !in s
  }

  lemma ShowIntIsPlain(n: int)
    ensures PlainCell(PyConvert.ShowInt(n))
  {
    var d := PyConvert.ShowNat(if n < 0 then -n else n);
    assert forall i :: 0 <= i < |d| ==> PyConvert.IsDigit(d[i]);
    assert ',' !in d && '\n' !in d;
  }

  lemma PlainConcat(a: string, b: string)
    requires PlainCell(a) && PlainCell(b)
    ensures PlainCell(a + b)
  {
    assert forall i :: 0 <= i < |a + b| ==> (a + b)[i] == if i < |a| then a[i] else b[i - |a|];
  }

  lemma CoverageRowIsPlain(coverage: Option<Coverage>, k: int)
    requires 0 <= k < 5
    ensures PlainCell(CoverageRow(coverage)[k])
  {
    if coverage.Some? {
      var c := coverage.value;
      ShowIntIsPlain(c.percent);
      ShowIntIsPlain(c.actual);
      ShowIntIsPlain(c.expected);
      ShowIntIsPlain(c.minYear);
      ShowIntIsPlain(c.maxYear);
      var a, b, e := PyConvert.ShowInt(c.percent), PyConvert.ShowInt(c.actual), PyConvert.ShowInt(c.expected);
      PlainConcat(a, "% (");
      PlainConcat(a + "% (", b);
      PlainConcat(a + "% (" + b, "/");
      PlainConcat(a + "% (" + b + "/", e);
      PlainConcat(a + "% (" + b + "/" + e, ")");
    }
  }

  lemma HeaderIsPlain(f: int)
    requires 0 <= f < 5
    ensures PlainCell(CsvHeader[f])
  {
  }

  lemma CellIsPlain(showNum: real -> string, v: Option<real>)
    requires PlainNumbers(showNum)
    ensures PlainCell(Cell(showNum, v))
  {
  }

  lemma HistoryRowIsPlain(showNum: real -> string, p: Series.Point, f: int)
    requires PlainNumbers(showNum) && 0 <= f < 5
    ensures PlainCell(HistoryRow(showNum, p)[f])
  {
    ShowIntIsPlain(p.year);
    CellIsPlain(showNum, p.value);
  }

  lemma ForecastRowIsPlain(showNum: real -> string, p: ForecastPoint, f: int)
    requires PlainNumbers(showNum) && 0 <= f < 5
    ensures PlainCell(ForecastRow(showNum, p)[f])
  {
    ShowIntIsPlain(p.year);
    CellIsPlain(showNum, p.lower);
    CellIsPlain(showNum, p.upper);
  }

  /** Every row has the five columns of the header, and every cell is free of the two
      separators. */
  lemma CsvCellsArePlain(showNum: real -> string, history: seq<Series.Point>, forecast: Forecast, coverage: Option<Coverage>, k: int, f: int)
    requires PlainNumbers(showNum)
    requires 0 <= k < 2 + |history| + |forecast.points| && 0 <= f < 5
    ensures |CsvRows(showNum, history, forecast, coverage)[k]| == 5
    ensures PlainCell(CsvRows(showNum, history, forecast, coverage)[k][f])
  {
    var rows := CsvRows(showNum, history, forecast, coverage);
    if k == 0 {
      HeaderIsPlain(f);
    } else if k == 1 {
      CoverageRowIsPlain(coverage, f);
    } else if k < 2 + |history| {
      assert rows[k] == HistoryRow(showNum, history[k - 2]);
      HistoryRowIsPlain(showNum, history[k - 2], f);
    } else {
      assert rows[k] == ForecastRow(showNum, forecast.points[k - 2 - |history|]);
      ForecastRowIsPlain(showNum, forecast.points[k - 2 - |history|], f);
    }
  }

  /** Reading the file back: its lines are the rows and each line's fields are the row's
      cells, as long as the number format writes no separators. */
  lemma CsvRoundTrip(showNum: real -> string, history: seq<Series.Point>, forecast: Forecast, coverage: Option<Coverage>)
    requires PlainNumbers(showNum)
    ensures var rows := CsvRows(showNum, history, forecast, coverage);
      var lines := Text.Split(Csv(showNum, history, forecast, coverage), '\n');
      && |lines| == |rows|
      && forall k :: 0 <= k < |rows| ==> Text.Split(lines[k], ',') == rows[k]
  {
    var rows := CsvRows(showNum, history, forecast, coverage);
    var lines := JoinRows(rows);
    forall k | 0 <= k < |rows|
      ensures '\n' !in lines[k] && Text.Split(lines[k], ',') == rows[k]
    {
      CsvCellsArePlain(showNum, history, forecast, coverage, k, 0);
      forall f | 0 <= f < 5
        ensures PlainCell(rows[k][f])
      {
        CsvCellsArePlain(showNum, history, forecast, coverage, k, f);
      }
      LineRoundTrip(rows[k]);
    }
    Text.JoinSplit(lines, '\n');
  }

  /** A row of plain cells joins into one line that splits back into the row. */
  lemma LineRoundTrip(row: seq<string>)
    requires |row| >= 1
    requires forall f :: 0 <= f < |row| ==> PlainCell(row[f])
    ensures '\n' !in Text.Join(row, ',') && Text.Split(Text.Join(row, ','), ',') == row
  {
    Text.JoinSplit(row, ',');
    JoinKeepsOut(row, ',', '\n');
  }

  /** A character in no part and different from the separator is not in the join. */
  lemma {:induction false} JoinKeepsOut(parts: seq<string>, sep: char, c: char)
    requires c != sep
    requires forall k :: 0 <= k < |parts| ==> c !in parts[k]
    ensures c !in Text.Join(parts, sep)
  {
    if |parts| > 1 {
      JoinKeepsOut(parts[1..], sep, c);
    }
  }

  // ----- the summary -----

  datatype Summary = Summary(
    lastHistory: Series.Point, firstForecast: ForecastPoint, lastForecast: ForecastPoint,
    absoluteChange: real, percentChange: Option<real>, avgAnnualChange: Option<real>)

  /** `summary`: null without a forecast, a valued history row or a forecast point. The
      average annual change divides by the horizon; a zero horizon (which the API never
      returns) would give an infinite or NaN number and is left null here. */
  function ComputeSummary(history: seq<Series.Point>, forecast: Option<Forecast>): (r: Option<Summary>)
    ensures r.None? <==> forecast.None? || LastValidValue(history).None? || |forecast.value.points| == 0
    ensures r.Some? ==>
      var h := LastValidValue(history).value.value.value;
      && r.value.lastHistory == LastValidValue(history).value
      && r.value.firstForecast == forecast.value.points[0]
      && r.value.lastForecast == forecast.value.points[|forecast.value.points| - 1]
      && r.value.absoluteChange == r.value.lastForecast.value - h
      && (r.value.percentChange.None? <==> h == 0.0)
      && (r.value.percentChange.Some? ==> r.value.percentChange.value * h == r.value.absoluteChange * 100.0)
      && (r.value.avgAnnualChange.None? <==> forecast.value.horizonYears == 0)
      && (r.value.avgAnnualChange.Some? ==>
            r.value.avgAnnualChange.value * (forecast.value.horizonYears as real) == r.value.absoluteChange)
  {
    match forecast
    case None => None
    case Some(f) =>
      match LastValidValue(history)
      case None => None
      case Some(last) =>
        if |f.points| == 0 then None
        else
          var h := last.value.value;
          var lastF := f.points[|f.points| - 1];
          var change := lastF.value - h;
          Some(Summary(last, f.points[0], lastF, change,
            if h != 0.0 then Some(change / h * 100.0) else None,
            if f.horizonYears != 0 then Some(change / (f.horizonYears as real)) else None))
  }

  // ----- the two buttons -----

  datatype Action = CreateForecast | LatestForecast

  /** The panel's state: the history rows, the forecast shown, and the error text. */
  datatype PanelState = PanelState(history: seq<Series.Point>, forecast: Option<Forecast>, error: string)

  const SelectFirst := "Select a country and indicator."

  function FailureText(a: Action): string {
    match a
    case CreateForecast => "Unable to generate forecast. Ensure data is ingested and agreement accepted."
    case LatestForecast => "No saved forecast found for this selection."
  }

  /** `handleForecast` / `handleLatest`: without access, a country or an indicator the error
      is set and nothing is requested; otherwise the two requests either both succeed and
      replace history and forecast, or a single error is shown and both stay as they were.
      `call` is the pair of requests (observations from 1960 and the forecast). */
  function Handle(
    st: PanelState, a: Action, canAccess: bool, country: string, indicator: string, horizon: int,
    call: (Action, string, string, int) -> Result<(seq<Series.Point>, Forecast), string>)
    : (r: PanelState)
    ensures !(canAccess && country != "" && indicator != "") ==> r == st.(error := SelectFirst)
    ensures canAccess && country != "" && indicator != "" ==>
      && (call(a, country, indicator, horizon).Ok? ==>
            r == PanelState(call(a, country, indicator, horizon).value.0, Some(call(a, country, indicator, horizon).value.1), ""))
      && (call(a, country, indicator, horizon).Err? ==> r == st.(error := FailureText(a)))
  {
    if !(canAccess && country != "" && indicator != "") then st.(error := SelectFirst)
    else
      match call(a, country, indicator, horizon)
      case Ok(v) => PanelState(v.0, Some(v.1), "")
      case Err(_) => st.(error := FailureText(a))
  }

  /** Without a selection no request is made: the outcome does not depend on `call`. */
  lemma NoRequestWithoutSelection(
    st: PanelState, a: Action, canAccess: bool, country: string, indicator: string, horizon: int,
    call1: (Action, string, string, int) -> Result<(seq<Series.Point>, Forecast), string>,
    call2: (Action, string, string, int) -> Result<(seq<Series.Point>, Forecast), string>)
    requires !canAccess || country == "" || indicator == ""
    ensures Handle(st, a, canAccess, country, indicator, horizon, call1) == Handle(st, a, canAccess, country, indicator, horizon, call2)
    ensures Handle(st, a, canAccess, country, indicator, horizon, call1).forecast == st.forecast
  {
  }
}

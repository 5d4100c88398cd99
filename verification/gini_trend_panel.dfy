/** The Gini trend panel of the React client (`components/GiniTrendPanel.jsx`): the guard
    before loading, one trend per selected country, and the summary table of the latest
    value of each. The trend request is a parameter. */
module GiniTrendPanel {
  import opened Wrappers
  import opened Series

  /** The `meta` block of a trend answer; only its source is shown. */
  datatype Meta = Meta(source: Option<string>)

  /** A trend answer: its `points` may be missing. */
  datatype TrendPayload = TrendPayload(points: Option<seq<Point>>, meta: Option<Meta>)

  datatype TrendDataset = TrendDataset(country: string, data: seq<Point>, meta: Option<Meta>)

  datatype PanelState = PanelState(datasets: seq<TrendDataset>, loading: bool, error: string)

  const SelectCountry := "Select at least one country to load Gini trends."
  const AcceptAgreement := "Accept the agreement to unlock inequality analytics."
  const TrendFailed := "Failed to load Gini trend analytics. Ensure FastAPI is running and agreement is accepted."

  /** `canRun`: access is granted and at least one country is selected. */
  predicate CanRun(canAccess: bool, countries: Option<seq<string>>) {
    canAccess && countries.Some? && |countries.value| > 0
  }

  /** The trend request for a country and a window. */
  type Fetch = (string, real, real) -> Result<TrendPayload, string>

  function ToDataset(country: string, payload: TrendPayload): (r: TrendDataset)
    ensures r.country == country && r.meta == payload.meta
    ensures payload.points.None? ==> r.data == []
    ensures payload.points.Some? ==> r.data == payload.points.value
  {
    TrendDataset(country, payload.points.GetOr([]), payload.meta)
  }

  predicate AllFetched(countries: seq<string>, startYear: real, endYear: real, fetch: Fetch) {
    forall i :: 0 <= i < |countries| ==> fetch(countries[i], startYear, endYear).Ok?
  }

  /** `loadTrends`: a refused run says why (access first, then the selection) and keeps the
      datasets; otherwise every country is requested, and the datasets are replaced only
      when all requests succeed. */
  function LoadTrends(st: PanelState, canAccess: bool, countries: Option<seq<string>>, startYear: real, endYear: real, fetch: Fetch): (r: PanelState)
    ensures !CanRun(canAccess, countries) ==>
      r == PanelState(st.datasets, false, if canAccess then SelectCountry else AcceptAgreement)
    ensures !r.loading
    ensures r.error == "" <==> CanRun(canAccess, countries) && AllFetched(countries.value, startYear, endYear, fetch)
    ensures r.error != "" ==> r.datasets == st.datasets
    ensures r.error == "" ==> |r.datasets| == |countries.value| && forall i :: 0 <= i < |countries.value| ==>
      r.datasets[i] == ToDataset(countries.value[i], fetch(countries.value[i], startYear, endYear).value)
  {
    if !CanRun(canAccess, countries) then
      PanelState(st.datasets, false, if canAccess then SelectCountry else AcceptAgreement)
    else if AllFetched(countries.value, startYear, endYear, fetch) then
      var cs := countries.value;
      PanelState(seq(|cs|, i requires 0 <= i < |cs| => ToDataset(cs[i], fetch(cs[i], startYear, endYear).value)), false, "")
    else PanelState(st.datasets, false, TrendFailed)
  }

  /** A refused run sends no request. */
  lemma RefusedRunSendsNothing(st: PanelState, canAccess: bool, countries: Option<seq<string>>, startYear: real, endYear: real, fetch: Fetch, other: Fetch)
    requires !CanRun(canAccess, countries)
    ensures LoadTrends(st, canAccess, countries, startYear, endYear, fetch) == LoadTrends(st, canAccess, countries, startYear, endYear, other)
  {
  }

  /** One line of the summary table. */
  datatype SummaryRow = SummaryRow(country: string, latestYear: Option<int>, latestValue: Option<real>, source: string)

  /** `lastNonNull` applied to a dataset, and its source or "unknown". */
  function SummaryRowOf(d: TrendDataset): (r: SummaryRow)
    ensures r.country == d.country
    ensures r.latestYear.None? <==> r.latestValue.None?
    ensures r.latestValue.None? <==> forall i :: 0 <= i < |d.data| ==> d.data[i].value.None?
    ensures r.latestValue.Some? ==>
      exists i :: 0 <= i < |d.data| && d.data[i] == Point(r.latestYear.value, r.latestValue) &&
                  forall j :: i < j < |d.data| ==> d.data[j].value.None?
    ensures r.source == if d.meta.Some? && d.meta.value.source.Some? then d.meta.value.source.value else "unknown"
  {
    LastValuedIsLatest(d.data);
    var latest := LastValued(d.data);
    SummaryRow(
      d.country,
      if latest.Some? then Some(latest.value.year) else None,
      if latest.Some? then latest.value.value else None,
      if d.meta.Some? && d.meta.value.source.Some? then d.meta.value.source.value else "unknown")
  }

  /** `summaryRows`: one row per dataset, in order. */
  function SummaryRows(datasets: seq<TrendDataset>): (r: seq<SummaryRow>)
    ensures |r| == |datasets|
    ensures forall i :: 0 <= i < |datasets| ==> r[i] == SummaryRowOf(datasets[i])
  {
    seq(|datasets|, i requires 0 <= i < |datasets| => SummaryRowOf(datasets[i]))
  }

  /** After a successful load the summary has one row per selected country, whose latest
      value is absent exactly when that country's answer has no valued point. */
  lemma SummaryAfterLoad(st: PanelState, canAccess: bool, countries: Option<seq<string>>, startYear: real, endYear: real, fetch: Fetch, i: int)
    requires LoadTrends(st, canAccess, countries, startYear, endYear, fetch).error == ""
    requires 0 <= i < |countries.value|
    ensures var rows := SummaryRows(LoadTrends(st, canAccess, countries, startYear, endYear, fetch).datasets);
      var answer := fetch(countries.value[i], startYear, endYear).value;
      && |rows| == |countries.value|
      && rows[i].country == countries.value[i]
      && (rows[i].latestValue.None? <==> answer.points.None? || forall k :: 0 <= k < |answer.points.value| ==> answer.points.value[k].value.None?)
  {
  }
}

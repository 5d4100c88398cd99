/** The comparison page of the React client (`pages/Home.jsx`): loading the catalog, running
    a comparison (one dataset per selected indicator, one series per selected country), the
    correlation pair, and loading a saved preset. The observations request is a parameter. */
module HomePage {
  import opened Wrappers
  import opened Json
  import Series
  import opened ClientData
  import AnalysisContext
  import SavedPresetsPanel

  datatype State = State(
    countries: seq<Value>, indicators: seq<IndicatorOption>,
    selectedCountries: seq<string>, selectedIndicators: seq<string>, chartType: string,
    startYear: real, endYear: real, datasets: seq<Dataset>, loading: bool, error: string)

  const CatalogUnavailable := "Catalog service is unavailable. Using default lists."
  const NeedSelection := "Select at least one country and one indicator."
  const YearsOutOfOrder := "Start year must be less than or equal to end year."
  const AnalyticsFailed := "Failed to load analytics. Check that FastAPI service is running."

  /** The catalog load of this page: the same merge as the shared context, but a failure is
      reported in the page's own error line. A response is `None` when it has no length. */
  function LoadCatalog(st: State, response: Result<(Option<seq<Value>>, Option<seq<AnalysisContext.FetchedIndicator>>), string>): (r: State)
    ensures response.Err? ==> r == st.(error := CatalogUnavailable)
    ensures response.Ok? ==> r.error == st.error
    ensures response.Ok? ==>
      r.countries == if response.value.0.Some? && response.value.0.value != [] then response.value.0.value else st.countries
    ensures response.Ok? ==>
      r.indicators == if response.value.1.Some? && response.value.1.value != [] then AnalysisContext.MergeCatalog(st.indicators, response.value.1.value) else st.indicators
    ensures r.selectedCountries == st.selectedCountries && r.selectedIndicators == st.selectedIndicators && r.datasets == st.datasets
  {
    match response
    case Err(_) => st.(error := CatalogUnavailable)
    case Ok((cs, inds)) =>
      st.(countries := if cs.Some? && cs.value != [] then cs.value else st.countries,
          indicators := if inds.Some? && inds.value != [] then AnalysisContext.MergeCatalog(st.indicators, inds.value) else st.indicators)
  }

  /** The two indicators the correlation table compares: the first two selected, or none. */
  function CorrelationPair(selected: seq<string>): (r: seq<string>)
    ensures |selected| >= 2 ==> |r| == 2 && r[0] == selected[0] && r[1] == selected[1]
    ensures |selected| < 2 ==> r == []
  {
    if |selected| >= 2 then [selected[0], selected[1]] else []
  }

  /** The observations request for one country, indicator and window. */
  type Fetch = (string, string, real, real) -> Result<seq<Series.Point>, string>

  /** Every request of the comparison succeeds (otherwise `Promise.all` rejects). */
  predicate AllFetched(st: State, fetch: Fetch) {
    forall i, j :: 0 <= i < |st.selectedIndicators| && 0 <= j < |st.selectedCountries| ==>
      fetch(st.selectedCountries[j], st.selectedIndicators[i], st.startYear, st.endYear).Ok?
  }

  function Rows(country: string, indicator: string, st: State, fetch: Fetch): seq<Series.Point> {
    match fetch(country, indicator, st.startYear, st.endYear)
    case Ok(rows) => rows
    case Err(_) => []
  }

  function Comparison(st: State, fetch: Fetch): seq<Dataset> {
    seq(|st.selectedIndicators|, i requires 0 <= i < |st.selectedIndicators| =>
      Dataset(st.selectedIndicators[i], seq(|st.selectedCountries|, j requires 0 <= j < |st.selectedCountries| =>
        CountrySeries(st.selectedCountries[j], Rows(st.selectedCountries[j], st.selectedIndicators[i], st, fetch)))))
  }

  /** `runComparison`: an empty selection or a reversed window is refused before any
      request; otherwise the datasets are replaced when every request succeeds and kept when
      one fails. */
  function RunComparison(st: State, fetch: Fetch): (r: State)
    ensures st.selectedCountries == [] || st.selectedIndicators == [] ==> r == st.(error := NeedSelection)
    ensures st.selectedCountries != [] && st.selectedIndicators != [] && st.startYear > st.endYear ==>
      r == st.(error := YearsOutOfOrder)
    ensures r.selectedCountries == st.selectedCountries && r.selectedIndicators == st.selectedIndicators
    ensures r.startYear == st.startYear && r.endYear == st.endYear
    ensures st.selectedCountries != [] && st.selectedIndicators != [] && st.startYear <= st.endYear ==> !r.loading
    ensures r.datasets != st.datasets ==> r.error == ""
    ensures r.error == "" <==>
      st.selectedCountries != [] && st.selectedIndicators != [] && st.startYear <= st.endYear && AllFetched(st, fetch)
    ensures r.error == "" ==>
      && |r.datasets| == |st.selectedIndicators|
      && forall i :: 0 <= i < |r.datasets| ==>
        && r.datasets[i].indicator == st.selectedIndicators[i]
        && |r.datasets[i].series| == |st.selectedCountries|
        && forall j :: 0 <= j < |st.selectedCountries| ==>
          r.datasets[i].series[j] == CountrySeries(st.selectedCountries[j],
            fetch(st.selectedCountries[j], st.selectedIndicators[i], st.startYear, st.endYear).value)
  {
    if st.selectedCountries == [] || st.selectedIndicators == [] then st.(error := NeedSelection)
    else if st.startYear > st.endYear then st.(error := YearsOutOfOrder)
    else if AllFetched(st, fetch) then st.(datasets := Comparison(st, fetch), loading := false, error := "")
    else st.(loading := false, error := AnalyticsFailed)
  }

  /** A refused comparison sends no request: its outcome does not depend on the service. */
  lemma RefusedComparisonSendsNothing(st: State, fetch: Fetch, other: Fetch)
    requires st.selectedCountries == [] || st.selectedIndicators == [] || st.startYear > st.endYear
    ensures RunComparison(st, fetch) == RunComparison(st, other)
  {
  }

  /** After a successful comparison the dashboard finds a dataset for every selected
      indicator, and in it a series for every selected country. */
  lemma ComparisonIsFindable(st: State, fetch: Fetch, indicator: string, country: string)
    requires RunComparison(st, fetch).error == ""
    requires indicator in st.selectedIndicators && country in st.selectedCountries
    ensures var r := RunComparison(st, fetch);
      && FindDataset(r.datasets, indicator).Some?
      && FindDataset(r.datasets, indicator).value.indicator == indicator
      && FindSeries(FindDataset(r.datasets, indicator).value.series, country).Some?
      && FindSeries(FindDataset(r.datasets, indicator).value.series, country).value.country == country
  {
    var r := RunComparison(st, fetch);
    var i :| 0 <= i < |st.selectedIndicators| && st.selectedIndicators[i] == indicator;
    assert r.datasets[i].indicator == indicator;
    var d := FindDataset(r.datasets, indicator).value;
    var k :| 0 <= k < |r.datasets| && r.datasets[k] == d && d.indicator == indicator;
    var j :| 0 <= j < |st.selectedCountries| && st.selectedCountries[j] == country;
    assert d.series[j].country == country;
  }

  // ----- presets -----

  /** The payload the presets panel saves: the five selection fields. */
  function CurrentPayload(st: State): (r: SavedPresetsPanel.Payload)
    ensures r.selectedCountries == st.selectedCountries && r.selectedIndicators == st.selectedIndicators
    ensures r.chartType == st.chartType && r.startYear == Some(st.startYear) && r.endYear == Some(st.endYear)
  {
    SavedPresetsPanel.Payload(st.selectedCountries, st.selectedIndicators, st.chartType, Some(st.startYear), Some(st.endYear))
  }

  /** `onLoad`: the (normalised) arrays are always taken, since an array is truthy even when
      empty; the chart type only when it is not empty; a year only when it is a number. */
  function OnLoad(st: State, payload: SavedPresetsPanel.Payload): (r: State)
    ensures r.selectedCountries == payload.selectedCountries && r.selectedIndicators == payload.selectedIndicators
    ensures r.chartType == if payload.chartType != "" then payload.chartType else st.chartType
    ensures r.startYear == payload.startYear.GetOr(st.startYear) && r.endYear == payload.endYear.GetOr(st.endYear)
    ensures r.countries == st.countries && r.indicators == st.indicators && r.datasets == st.datasets && r.error == st.error
  {
    st.(selectedCountries := payload.selectedCountries,
        selectedIndicators := payload.selectedIndicators,
        chartType := if payload.chartType != "" then payload.chartType else st.chartType,
        startYear := payload.startYear.GetOr(st.startYear),
        endYear := payload.endYear.GetOr(st.endYear))
  }

  /** Saving the page's selection and loading it back, through the stored JSON and the
      panel's normalisation, restores the selection on any later state. */
  lemma SavedSelectionRestores(saved: State, later: State)
    requires saved.chartType != ""
    ensures var r := OnLoad(later, SavedPresetsPanel.NormalizePayload(Some(SavedPresetsPanel.ToValue(CurrentPayload(saved)))));
      && r.selectedCountries == saved.selectedCountries && r.selectedIndicators == saved.selectedIndicators
      && r.chartType == saved.chartType && r.startYear == saved.startYear && r.endYear == saved.endYear
  {
    SavedPresetsPanel.NormalizeToValue(CurrentPayload(saved));
  }
}

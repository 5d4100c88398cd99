/** The shared analysis state of the React client (`context/AnalysisContext.jsx`): the
    default year window, the catalog merge after loading, and applying a stored preset. The
    current year and the catalog requests are parameters. */
module AnalysisContext {
  import opened Wrappers
  import opened OrderedMap
  import opened Json
  import Numeric
  import opened ClientData

  // ----- default years -----

  /** The first and last year of the default window. */
  function DefaultYears(currentYear: int): (r: (int, int))
    ensures r.0 >= 1990 && r.0 >= currentYear - 20
    ensures r.0 == 1990 || r.0 == currentYear - 20
    ensures r.1 == currentYear - 1
  {
    (Numeric.MaxI(1990, currentYear - 20), currentYear - 1)
  }

  /** From 2010 on the default window is the twenty years before the current one. */
  lemma DefaultWindowIsTwentyYears(currentYear: int)
    requires currentYear >= 2010
    ensures DefaultYears(currentYear).1 - DefaultYears(currentYear).0 + 1 == 20
  {
  }

  // ----- the catalog -----

  /** An indicator as the catalog endpoint returns it; the name may be missing. */
  datatype FetchedIndicator = FetchedIndicator(code: string, name: Option<string>)

  /** `{ code, label: item.name || item.code }`: a missing or empty name falls back to the
      code. */
  function ToEntry(f: FetchedIndicator): (r: IndicatorOption)
    ensures r.code == f.code
    ensures f.name.Some? && f.name.value != "" ==> r.caption == f.name.value
    ensures !(f.name.Some? && f.name.value != "") ==> r.caption == f.code
  {
    IndicatorOption(f.code, if f.name.Some? && f.name.value != "" then f.name.value else f.code)
  }

  function Keyed(entries: seq<IndicatorOption>): (r: seq<Entry<string, IndicatorOption>>)
    ensures |r| == |entries|
    ensures forall i :: 0 <= i < |entries| ==> r[i] == Entry(entries[i].code, entries[i])
  {
    seq(|entries|, i requires 0 <= i < |entries| => Entry(entries[i].code, entries[i]))
  }

  function Values(m: seq<Entry<string, IndicatorOption>>): (r: seq<IndicatorOption>)
    ensures |r| == |m|
    ensures forall i :: 0 <= i < |m| ==> r[i] == m[i].val
  {
    seq(|m|, i requires 0 <= i < |m| => m[i].val)
  }

  /** The merge as a map from code to entry, in insertion order: the previous entries, then
      the fetched ones. */
  function MergedMap(prev: seq<IndicatorOption>, fetched: seq<FetchedIndicator>): seq<Entry<string, IndicatorOption>> {
    FromPairs(Keyed(prev) + Keyed(seq(|fetched|, i requires 0 <= i < |fetched| => ToEntry(fetched[i]))))
  }

  /** `Array.from(new Map(...).values())` after the fetched entries are set. */
  function MergeCatalog(prev: seq<IndicatorOption>, fetched: seq<FetchedIndicator>): (r: seq<IndicatorOption>)
    ensures |r| == |MergedMap(prev, fetched)|
  {
    Values(MergedMap(prev, fetched))
  }

  /** For every code, the merged entry is the fetched one when the code was fetched (the last
      of duplicates), otherwise the previous one; codes in neither list are absent. */
  lemma MergeTakesFetched(prev: seq<IndicatorOption>, fetched: seq<FetchedIndicator>, code: string)
    ensures var mapped := seq(|fetched|, i requires 0 <= i < |fetched| => ToEntry(fetched[i]));
      Get(MergedMap(prev, fetched), code) ==
        if LastFor(Keyed(mapped), code).Some? then LastFor(Keyed(mapped), code) else LastFor(Keyed(prev), code)
  {
    var mapped := seq(|fetched|, i requires 0 <= i < |fetched| => ToEntry(fetched[i]));
    FromPairsLastWins(Keyed(prev) + Keyed(mapped), code);
    LastForAppend(Keyed(prev), Keyed(mapped), code);
  }

  lemma {:induction false} LastForAppend<K, V>(ps: seq<Entry<K, V>>, qs: seq<Entry<K, V>>, k: K)
    ensures LastFor(ps + qs, k) == if LastFor(qs, k).Some? then LastFor(qs, k) else LastFor(ps, k)
  {
    if |qs| > 0 {
      var init := qs[..|qs| - 1];
      assert (ps + qs)[..|ps + qs| - 1] == ps + init;
      LastForAppend(ps, init, k);
    } else {
      assert ps + qs == ps;
    }
  }

  /** Entries keep their places: the previous codes come first, in their order, and fetched
      codes that are new follow. */
  lemma MergeKeepsPlaces(prev: seq<IndicatorOption>, fetched: seq<FetchedIndicator>)
    ensures var before := FromPairs(Keyed(prev));
      var after := MergedMap(prev, fetched);
      && |before| <= |after|
      && Keys(after)[..|before|] == Keys(before)
  {
    var mapped := seq(|fetched|, i requires 0 <= i < |fetched| => ToEntry(fetched[i]));
    FromPairsExtends(Keyed(prev), Keyed(mapped));
  }

  lemma {:induction false} FromPairsExtends<K, V>(ps: seq<Entry<K, V>>, qs: seq<Entry<K, V>>)
    ensures |FromPairs(ps)| <= |FromPairs(ps + qs)|
    ensures Keys(FromPairs(ps + qs))[..|FromPairs(ps)|] == Keys(FromPairs(ps))
  {
    if |qs| == 0 {
      assert ps + qs == ps;
    } else {
      var init := qs[..|qs| - 1];
      var last := qs[|qs| - 1];
      assert (ps + qs)[..|ps + qs| - 1] == ps + init;
      assert (ps + qs)[|ps + qs| - 1] == last;
      FromPairsExtends(ps, init);
      var m := FromPairs(ps + init);
      assert FromPairs(ps + qs) == Put(m, last.key, last.val);
      assert |Keys(Put(m, last.key, last.val))| >= |Keys(m)|;
    }
  }

  // ----- the state -----

  datatype CatalogStatus = CatalogStatus(loading: bool, error: string)

  /** The context's state. The selections hold whatever arrays a preset supplied, and the
      years are JavaScript numbers. */
  datatype State = State(
    countries: seq<Value>, indicators: seq<IndicatorOption>, catalogStatus: CatalogStatus,
    selectedCountries: seq<Value>, selectedIndicators: seq<Value>, chartType: string,
    startYear: real, endYear: real)

  /** The state on mount: the default lists, nothing selected, a line chart and the default
      window. */
  function Initial(currentYear: int, defaultCountries: seq<Value>, defaultIndicators: seq<IndicatorOption>): (r: State)
    ensures r.selectedCountries == [] && r.selectedIndicators == [] && r.chartType == "line"
    ensures r.startYear == DefaultYears(currentYear).0 as real && r.endYear == DefaultYears(currentYear).1 as real
  {
    var years := DefaultYears(currentYear);
    State(defaultCountries, defaultIndicators, CatalogStatus(true, ""), [], [], "line", years.0 as real, years.1 as real)
  }

  const CatalogUnavailable := "Catalog service is unavailable. Using default lists."

  /** `loadCatalog`: on success a non-empty country array replaces the list and a non-empty
      indicator array is merged in; on failure both stay and the error is set. Each response
      is `None` when it is not an array. */
  function LoadCatalog(st: State, response: Result<(Option<seq<Value>>, Option<seq<FetchedIndicator>>), string>): (r: State)
    ensures response.Err? ==> r == st.(catalogStatus := CatalogStatus(false, CatalogUnavailable))
    ensures response.Ok? ==> r.catalogStatus == CatalogStatus(false, "")
    ensures response.Ok? ==>
      r.countries == if response.value.0.Some? && response.value.0.value != [] then response.value.0.value else st.countries
    ensures response.Ok? ==>
      r.indicators == if response.value.1.Some? && response.value.1.value != [] then MergeCatalog(st.indicators, response.value.1.value) else st.indicators
    ensures r.selectedCountries == st.selectedCountries && r.selectedIndicators == st.selectedIndicators
    ensures r.chartType == st.chartType && r.startYear == st.startYear && r.endYear == st.endYear
  {
    match response
    case Err(_) => st.(catalogStatus := CatalogStatus(false, CatalogUnavailable))
    case Ok((cs, inds)) =>
      var countries := if cs.Some? && cs.value != [] then cs.value else st.countries;
      var indicators := if inds.Some? && inds.value != [] then MergeCatalog(st.indicators, inds.value) else st.indicators;
      st.(countries := countries, indicators := indicators, catalogStatus := CatalogStatus(false, ""))
  }

  /** `applyPresetPayload`: nothing for a null or non-object payload (an array passes the
      guard but has none of the fields); otherwise each field that has the right type is
      copied, and nothing else changes. */
  function ApplyPresetPayload(st: State, payload: Option<Value>): (r: State)
    ensures !(payload.Some? && payload.value.JObject?) ==> r == st
    ensures r.countries == st.countries && r.indicators == st.indicators && r.catalogStatus == st.catalogStatus
    ensures payload.Some? && payload.value.JObject? ==>
      var f := (key: string) => Field(payload.value.fields, key);
      && r.selectedCountries == (if f("selectedCountries").Some? && f("selectedCountries").value.JList? then f("selectedCountries").value.items else st.selectedCountries)
      && r.selectedIndicators == (if f("selectedIndicators").Some? && f("selectedIndicators").value.JList? then f("selectedIndicators").value.items else st.selectedIndicators)
      && r.chartType == (if f("chartType").Some? && f("chartType").value.JStr? then f("chartType").value.s else st.chartType)
      && r.startYear == NumberOf(f("startYear")).GetOr(st.startYear)
      && r.endYear == NumberOf(f("endYear")).GetOr(st.endYear)
  {
    match payload
    case Some(JObject(fs)) =>
      var countries := Field(fs, "selectedCountries");
      var indicators := Field(fs, "selectedIndicators");
      var chart := Field(fs, "chartType");
      st.(
        selectedCountries := if countries.Some? && countries.value.JList? then countries.value.items else st.selectedCountries,
        selectedIndicators := if indicators.Some? && indicators.value.JList? then indicators.value.items else st.selectedIndicators,
        chartType := if chart.Some? && chart.value.JStr? then chart.value.s else st.chartType,
        startYear := NumberOf(Field(fs, "startYear")).GetOr(st.startYear),
        endYear := NumberOf(Field(fs, "endYear")).GetOr(st.endYear))
    case _ => st
  }

  /** An object none of whose fields has the right type changes nothing; applying the same
      payload twice is applying it once. */
  lemma ApplyPresetPayloadIsIdempotent(st: State, payload: Option<Value>)
    ensures ApplyPresetPayload(ApplyPresetPayload(st, payload), payload) == ApplyPresetPayload(st, payload)
  {
  }
}

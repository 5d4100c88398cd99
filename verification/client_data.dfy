/** The shapes the React client passes between its pages and components: a dataset is one
    indicator with one series per selected country, each series a list of `{year, value}`
    rows (`value` may be `null`). */
module ClientData {
  import opened Wrappers
  import opened Lists
  import Series

  datatype CountrySeries = CountrySeries(country: string, data: seq<Series.Point>)

  datatype Dataset = Dataset(indicator: string, series: seq<CountrySeries>)

  /** A catalog entry as the selectors show it. */
  datatype IndicatorOption = IndicatorOption(code: string, caption: string)

  function FindDataset(ds: seq<Dataset>, indicator: string): Option<Dataset> {
    Find(ds, (d: Dataset) => d.indicator == indicator)
  }

  function FindSeries(ss: seq<CountrySeries>, country: string): Option<CountrySeries> {
    Find(ss, (s: CountrySeries) => s.country == country)
  }

  /** `indicators.find(item => item.code === code)?.label || code`: an empty label also
      falls back to the code. */
  function IndicatorLabel(options: seq<IndicatorOption>, code: string): (r: string)
    ensures (forall i :: 0 <= i < |options| ==> options[i].code != code) ==> r == code
    ensures r != code ==> exists i :: 0 <= i < |options| && options[i].code == code && options[i].caption == r
    ensures r == "" ==> code == ""
  {
    match Find(options, (o: IndicatorOption) => o.code == code)
    case Some(o) => if o.caption != "" then o.caption else code
    case None => code
  }
}

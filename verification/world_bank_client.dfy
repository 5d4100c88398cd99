/** The client-side World Bank helpers (`api/worldBankAPI.js`): the five quintile segments,
    the choice of one observation per segment for a target year, and the sequential fetch of
    all five. The Flask proxy request is a parameter. */
module WorldBankClient {
  import opened Wrappers
  import opened Lists
  import opened Series
  import Lorenz

  /** A Lorenz segment: the backend's quintile code and population share, with a caption. */
  datatype Segment = Segment(quintile: Lorenz.Quintile, caption: string)

  const LorenzSegments: seq<Segment> := [
    Segment(Lorenz.Quintile("SI.DST.FRST.20", 0.2), "Lowest 20%"),
    Segment(Lorenz.Quintile("SI.DST.02ND.20", 0.2), "Second 20%"),
    Segment(Lorenz.Quintile("SI.DST.03RD.20", 0.2), "Third 20%"),
    Segment(Lorenz.Quintile("SI.DST.04TH.20", 0.2), "Fourth 20%"),
    Segment(Lorenz.Quintile("SI.DST.05TH.20", 0.2), "Highest 20%")
  ]

  /** The client asks for the same quintiles, in the same order, as the backend's Lorenz
      service uses. */
  lemma SegmentsMatchBackend()
    ensures |LorenzSegments| == |Lorenz.LorenzIndicators|
    ensures forall i :: 0 <= i < |LorenzSegments| ==> LorenzSegments[i].quintile == Lorenz.LorenzIndicators[i]
  {
  }

  /** A row for the target year that carries a value. */
  predicate ValuedIn(p: Point, target: int) {
    p.year == target && p.value.Some?
  }

  /** `pickEntryForYear`: nothing for a missing or empty series; else the first row of the
      target year that has a value; else the last row that has one; else nothing. */
  function PickEntryForYear(series: Option<seq<Point>>, target: int): (r: Option<Point>)
    ensures series.None? ==> r.None?
    ensures r.Some? ==> r.value.value.Some? && r.value in series.value
    ensures series.Some? && (exists i :: 0 <= i < |series.value| && ValuedIn(series.value[i], target)) ==>
      && r.Some? && r.value.year == target
      && exists i :: 0 <= i < |series.value| && series.value[i] == r.value && ValuedIn(series.value[i], target)
                     && forall j :: 0 <= j < i ==> !ValuedIn(series.value[j], target)
    ensures series.Some? && (forall i :: 0 <= i < |series.value| ==> !ValuedIn(series.value[i], target)) ==>
      r == LastValued(series.value)
  {
    match series
    case None => None
    case Some(s) =>
      if |s| == 0 then None
      else
        match Find(s, (p: Point) => ValuedIn(p, target))
        case Some(e) => Some(e)
        case None =>
          LastValuedIsLatest(s);
          LastValued(s)
  }

  /** The pick is absent exactly when the series is missing or holds no value at all; when
      it is present and not of the target year, no later row carries a value. */
  lemma PickEntryAbsentIff(series: Option<seq<Point>>, target: int)
    ensures PickEntryForYear(series, target).None? <==>
      series.None? || forall i :: 0 <= i < |series.value| ==> series.value[i].value.None?
    ensures series.Some? && PickEntryForYear(series, target).Some? && PickEntryForYear(series, target).value.year != target ==>
      exists i :: 0 <= i < |series.value| && series.value[i] == PickEntryForYear(series, target).value &&
        forall j :: i < j < |series.value| ==> series.value[j].value.None?
  {
    if series.Some? {
      var s := series.value;
      LastValuedIsLatest(s);
      if PickEntryForYear(series, target).None? {
        forall i | 0 <= i < |s|
          ensures s[i].value.None?
        {
          assert !ValuedIn(s[i], target);
        }
      }
    }
  }

  /** One entry of the result: the segment, the chosen share and the year it comes from. */
  datatype SegmentShare = SegmentShare(segment: Segment, incomeShare: Option<real>, dataYear: Option<int>)

  /** `{ ...segment, incomeShare: entry?.value ?? null, dataYear: entry?.year ?? null }`. */
  function ShareFor(segment: Segment, entry: Option<Point>): (r: SegmentShare)
    ensures r.segment == segment
    ensures entry.None? ==> r.incomeShare.None? && r.dataYear.None?
    ensures entry.Some? ==> r.incomeShare == entry.value.value && r.dataYear == Some(entry.value.year)
  {
    match entry
    case None => SegmentShare(segment, None, None)
    case Some(p) => SegmentShare(segment, p.value, Some(p.year))
  }

  const FetchFailed := "Unable to load data from the API. Please try again."

  /** `fetchIndicator`'s error: the proxy's `error` field when there is a non-empty one,
      else a fixed message. */
  function FetchError(serverError: Option<string>): (r: string)
    ensures serverError.Some? && serverError.value != "" ==> r == serverError.value
    ensures !(serverError.Some? && serverError.value != "") ==> r == FetchFailed
  {
    if serverError.Some? && serverError.value != "" then serverError.value else FetchFailed
  }

  /** The proxy request for a country, an indicator and the years `start..end`. The answer
      is `None` when its body is not an array; a failure carries the proxy's error field. */
  type Fetch = (string, string, int, int) -> Result<Option<seq<Point>>, Option<string>>

  function Request(segment: Segment, country: string, year: int, fetch: Fetch): Result<Option<seq<Point>>, Option<string>> {
    fetch(country, segment.quintile.code, 1960, year)
  }

  /** Segment i is the first whose request fails. */
  predicate FirstFailureAt(segments: seq<Segment>, i: int, country: string, year: int, fetch: Fetch) {
    && 0 <= i < |segments|
    && Request(segments[i], country, year, fetch).Err?
    && forall j :: 0 <= j < i ==> Request(segments[j], country, year, fetch).Ok?
  }

  /** The loop of `fetchLorenzSegments` over the given segments, one request at a time: the
      first failure ends it with that error. */
  function FetchSegments(segments: seq<Segment>, country: string, year: int, fetch: Fetch): (r: Result<seq<SegmentShare>, string>)
    decreases |segments|
    ensures r.Ok? <==> forall i :: 0 <= i < |segments| ==> Request(segments[i], country, year, fetch).Ok?
    ensures r.Ok? ==> |r.value| == |segments| && forall i :: 0 <= i < |segments| ==>
      r.value[i] == ShareFor(segments[i], PickEntryForYear(Request(segments[i], country, year, fetch).value, year))
    ensures r.Err? ==>
      exists i :: FirstFailureAt(segments, i, country, year, fetch) && r.error == FetchError(Request(segments[i], country, year, fetch).error)
  {
    if |segments| == 0 then Ok([])
    else
      match Request(segments[0], country, year, fetch)
      case Err(e) =>
        assert FirstFailureAt(segments, 0, country, year, fetch);
        Err(FetchError(e))
      case Ok(data) =>
        var head := ShareFor(segments[0], PickEntryForYear(data, year));
        match FetchSegments(segments[1..], country, year, fetch)
        case Err(e) =>
          var i :| FirstFailureAt(segments[1..], i, country, year, fetch) &&
            e == FetchError(Request(segments[1..][i], country, year, fetch).error);
          assert forall j :: 0 <= j < i + 1 ==> Request(segments[j], country, year, fetch).Ok? by {
            forall j | 0 <= j < i + 1
              ensures Request(segments[j], country, year, fetch).Ok?
            {
              if j > 0 {
                assert segments[j] == segments[1..][j - 1];
              }
            }
          }
          assert segments[i + 1] == segments[1..][i];
          assert FirstFailureAt(segments, i + 1, country, year, fetch);
          Err(e)
        case Ok(rest) =>
          assert forall i :: 0 <= i < |segments| ==> Request(segments[i], country, year, fetch).Ok? by {
            forall i | 0 <= i < |segments|
              ensures Request(segments[i], country, year, fetch).Ok?
            {
              if i > 0 {
                assert segments[i] == segments[1..][i - 1];
              }
            }
          }
          Ok([head] + rest)
  }

  /** `fetchLorenzSegments`: the five segments, in order. */
  function FetchLorenzSegments(country: string, year: int, fetch: Fetch): (r: Result<seq<SegmentShare>, string>)
    ensures r.Ok? ==> |r.value| == 5 && forall i :: 0 <= i < 5 ==> r.value[i].segment == LorenzSegments[i]
    ensures r.Ok? ==> forall i :: 0 <= i < 5 ==>
      (r.value[i].incomeShare.None? <==> r.value[i].dataYear.None?)
  {
    FetchSegments(LorenzSegments, country, year, fetch)
  }

  /** A share is present exactly when the segment's series holds some value, and then it is
      for the target year whenever that year has one. */
  lemma FetchedShareIff(country: string, year: int, fetch: Fetch, i: int)
    requires FetchLorenzSegments(country, year, fetch).Ok? && 0 <= i < 5
    ensures var data := Request(LorenzSegments[i], country, year, fetch).value;
      var share := FetchLorenzSegments(country, year, fetch).value[i];
      && (share.incomeShare.None? <==> data.None? || forall k :: 0 <= k < |data.value| ==> data.value[k].value.None?)
      && (data.Some? && (exists k :: 0 <= k < |data.value| && ValuedIn(data.value[k], year)) ==> share.dataYear == Some(year))
  {
    var data := Request(LorenzSegments[i], country, year, fetch).value;
    PickEntryAbsentIff(data, year);
  }
}

/** The client's copy of the Pearson coefficient and the per-country correlation table of
    the comparison dashboard. */
module ComparisonDashboard {
  import opened Wrappers
  import opened Numeric
  import opened OrderedMap
  import opened Correlation
  import opened ClientData
  import Series

  function YearEntries(s: seq<Series.Point>): (r: seq<Entry<int, Option<real>>>)
    ensures |r| == |s|
    ensures forall i :: 0 <= i < |s| ==> r[i] == Entry(s[i].year, s[i].value)
  {
    seq(|s|, i requires 0 <= i < |s| => Entry(s[i].year, s[i].value))
  }

  /** `new Map(seriesA.map(row => [row.year, row.value]))`: a later row of a year overwrites
      an earlier one, even when its value is null. */
  function MapA(a: seq<Series.Point>): seq<Entry<int, Option<real>>> {
    FromPairs(YearEntries(a))
  }

  /** The pair one row of B contributes against a given map of A. */
  function PairFor(m: seq<Entry<int, Option<real>>>, row: Series.Point): seq<Pair> {
    PairOf(Get(m, row.year), row.value)
  }

  /** The pair of A's looked-up value and B's value, when both are numbers. */
  function PairOf(found: Option<Option<real>>, bValue: Option<real>): (r: seq<Pair>)
    ensures |r| <= 1
    ensures |r| == 1 <==> found.Some? && found.value.Some? && bValue.Some?
    ensures |r| == 1 ==> r[0] == Pair(found.value.value, bValue.value)
  {
    if found.Some? && found.value.Some? && bValue.Some? then [Pair(found.value.value, bValue.value)] else []
  }

  function PairsAgainst(m: seq<Entry<int, Option<real>>>, b: seq<Series.Point>): (r: seq<Pair>)
    ensures |r| <= |b|
  {
    if |b| == 0 then [] else PairsAgainst(m, b[..|b| - 1]) + PairFor(m, b[|b| - 1])
  }

  /** `paired`: the rows of B, in B's order, whose year A has, paired with A's value for it;
      pairs where either side is not a number are dropped. */
  function JsPairs(a: seq<Series.Point>, b: seq<Series.Point>): seq<Pair> {
    PairsAgainst(MapA(a), b)
  }

  /** The same pairing described without a map: the value taken from A is that of the last
      row of A with B's year. */
  function PairsByLastRow(a: seq<Series.Point>, b: seq<Series.Point>): (r: seq<Pair>)
    ensures |r| <= |b|
  {
    if |b| == 0 then []
    else
      var row := b[|b| - 1];
      PairsByLastRow(a, b[..|b| - 1])
        + PairOf(LastFor(YearEntries(a), row.year), row.value)
  }

  lemma {:induction false} JsPairsUseLastRowOfA(a: seq<Series.Point>, b: seq<Series.Point>)
    ensures JsPairs(a, b) == PairsByLastRow(a, b)
  {
    if |b| > 0 {
      JsPairsUseLastRowOfA(a, b[..|b| - 1]);
      FromPairsLastWins(YearEntries(a), b[|b| - 1].year);
    }
  }

  /** Each pair comes from a row of B with a value, and A's last row of that year has a
      value too. */
  lemma {:induction false} JsPairsFromRows(a: seq<Series.Point>, b: seq<Series.Point>, i: int)
    requires 0 <= i < |PairsByLastRow(a, b)|
    ensures exists k :: 0 <= k < |b| && b[k].value == Some(PairsByLastRow(a, b)[i].b)
              && LastFor(YearEntries(a), b[k].year) == Some(Some(PairsByLastRow(a, b)[i].a))
  {
    var init := b[..|b| - 1];
    var prev := PairsByLastRow(a, init);
    if i < |prev| {
      JsPairsFromRows(a, init, i);
      var k :| 0 <= k < |init| && init[k].value == Some(prev[i].b)
                && LastFor(YearEntries(a), init[k].year) == Some(Some(prev[i].a));
      assert b[k] == init[k];
    } else {
      assert b[|b| - 1].value == Some(PairsByLastRow(a, b)[i].b);
    }
  }

  /** A row of B whose value and A's last value of its year are both numbers yields a pair. */
  lemma {:induction false} JsPairsCountRows(a: seq<Series.Point>, b: seq<Series.Point>)
    requires forall k :: 0 <= k < |b| ==>
               b[k].value.Some? && LastFor(YearEntries(a), b[k].year).Some? && LastFor(YearEntries(a), b[k].year).value.Some?
    ensures |PairsByLastRow(a, b)| == |b|
  {
    if |b| > 0 {
      JsPairsCountRows(a, b[..|b| - 1]);
      assert b[|b| - 1].value.Some?;
    }
  }

  /** `computeCorrelation(seriesA, seriesB)`. */
  function ComputeCorrelationJs(sqrt: real -> real, a: seq<Series.Point>, b: seq<Series.Point>): (r: Option<real>)
    ensures |JsPairs(a, b)| < 3 ==> r.None?
    ensures |b| < 3 ==> r.None?
  {
    ComputeCorrelation(sqrt, JsPairs(a, b))
  }

  /** A zero denominator gives null; otherwise the value lies in [-1, 1], never NaN or
      infinite. */
  lemma ComputeCorrelationJsSound(sqrt: real -> real, a: seq<Series.Point>, b: seq<Series.Point>)
    requires IsSqrt(sqrt)
    ensures var t := Deviations(JsPairs(a, b));
      ComputeCorrelationJs(sqrt, a, b).None? <==> |JsPairs(a, b)| < 3 || t.sqA == 0.0 || t.sqB == 0.0
    ensures ComputeCorrelationJs(sqrt, a, b).Some? ==> -1.0 <= ComputeCorrelationJs(sqrt, a, b).value <= 1.0
  {
    CorrelationNoneIff(sqrt, JsPairs(a, b));
    CorrelationBounded(sqrt, JsPairs(a, b));
  }

  datatype CorrelationRow = CorrelationRow(country: string, correlation: Option<real>)

  /** The correlation of one primary country series against the secondary dataset. */
  function RowFor(sqrt: real -> real, s: CountrySeries, secondary: Dataset): CorrelationRow {
    match FindSeries(secondary.series, s.country)
    case Some(t) => CorrelationRow(s.country, ComputeCorrelationJs(sqrt, s.data, t.data))
    case None => CorrelationRow(s.country, None)
  }

  /** `correlationTable`. */
  function CorrelationTable(sqrt: real -> real, datasets: seq<Dataset>, pair: seq<string>): (r: seq<CorrelationRow>)
    ensures |pair| < 2 ==> r == []
    ensures |pair| >= 2 && (FindDataset(datasets, pair[0]).None? || FindDataset(datasets, pair[1]).None?) ==> r == []
    ensures |pair| >= 2 && FindDataset(datasets, pair[0]).Some? && FindDataset(datasets, pair[1]).Some? ==>
      var primary, secondary := FindDataset(datasets, pair[0]).value, FindDataset(datasets, pair[1]).value;
      && |r| == |primary.series|
      && forall i :: 0 <= i < |r| ==>
           && r[i].country == primary.series[i].country
           && (r[i].correlation.Some? ==> FindSeries(secondary.series, r[i].country).Some?)
  {
    if |pair| < 2 then []
    else
      match (FindDataset(datasets, pair[0]), FindDataset(datasets, pair[1]))
      case (Some(primary), Some(secondary)) =>
        seq(|primary.series|, i requires 0 <= i < |primary.series| => RowFor(sqrt, primary.series[i], secondary))
      case _ => []
  }

  /** A table row's correlation is exactly the client coefficient of the primary series
      against the first secondary series of the same country. */
  lemma CorrelationTableRow(sqrt: real -> real, datasets: seq<Dataset>, pair: seq<string>, i: int)
    requires |pair| >= 2 && FindDataset(datasets, pair[0]).Some? && FindDataset(datasets, pair[1]).Some?
    requires 0 <= i < |FindDataset(datasets, pair[0]).value.series|
    ensures var primary, secondary := FindDataset(datasets, pair[0]).value, FindDataset(datasets, pair[1]).value;
      var s := primary.series[i];
      CorrelationTable(sqrt, datasets, pair)[i].correlation ==
        if exists j :: 0 <= j < |secondary.series| && secondary.series[j].country == s.country
        then ComputeCorrelationJs(sqrt, s.data, FindSeries(secondary.series, s.country).value.data)
        else None
  {
  }
}

/** The data shaping of the chart component (`components/ChartDisplay.jsx`): the download
    file name, the Lorenz datasets, and the year-aligned or scatter datasets of a time-series
    chart. Styling, options and the PNG download itself are presentation. */
module ChartDisplay {
  import opened Wrappers
  import opened OrderedMap
  import Text
  import Series
  import PyConvert

  const PaletteSize := 5

  // ----- the download name -----

  /** `filter(Boolean)` on country codes: the non-empty ones, in order. */
  function NonEmpty(codes: seq<string>): (r: seq<string>)
    ensures |r| <= |codes|
    ensures forall k :: 0 <= k < |r| ==> r[k] != "" && r[k] in codes
  {
    if |codes| == 0 then []
    else
      var rest := NonEmpty(codes[1..]);
      if codes[0] == "" then rest else [codes[0]] + rest
  }

  /** `slice(0, 3)`. */
  function Take3(s: seq<string>): (r: seq<string>)
    ensures |r| == if |s| < 3 then |s| else 3
    ensures r == s[..|r|]
  {
    if |s| < 3 then s else s[..3]
  }

  /** `downloadName`: "chart" without datasets; otherwise "lorenz_" or "series_" followed by
      up to three non-empty country codes joined by '-', or by "data" when there are none. */
  function DownloadName(countries: seq<string>, lorenz: bool): (r: string)
    ensures |countries| == 0 ==> r == "chart"
    ensures |countries| > 0 && lorenz ==> Text.StartsWith(r, "lorenz_")
    ensures |countries| > 0 && !lorenz ==> Text.StartsWith(r, "series_")
    ensures |countries| > 0 && NonEmpty(countries) == [] ==> r == (if lorenz then "lorenz" else "series") + "_data"
  {
    if |countries| == 0 then "chart"
    else
      var suffix := if lorenz then "lorenz" else "series";
      var joined := Text.Join(Take3(NonEmpty(countries)), '-');
      suffix + "_" + (if joined == "" then "data" else joined)
  }

  /** When no code contains '-', the part after the prefix splits back into the first three
      non-empty codes. */
  lemma DownloadNameLists(countries: seq<string>, lorenz: bool)
    requires NonEmpty(countries) != []
    requires forall k :: 0 <= k < |countries| ==> '-' !in countries[k]
    ensures var prefix := (if lorenz then "lorenz" else "series") + "_";
      && Text.StartsWith(DownloadName(countries, lorenz), prefix)
      && Text.Split(DownloadName(countries, lorenz)[|prefix|..], '-') == Take3(NonEmpty(countries))
  {
    var parts := Take3(NonEmpty(countries));
    var prefix := (if lorenz then "lorenz" else "series") + "_";
    forall k | 0 <= k < |parts|
      ensures '-' !in parts[k]
    {
      assert parts[k] in countries;
    }
    Text.JoinSplit(parts, '-');
    assert Text.Join(parts, '-') != "" by {
      JoinNonEmpty(parts, '-');
    }
    assert DownloadName(countries, lorenz) == prefix + Text.Join(parts, '-');
    assert (prefix + Text.Join(parts, '-'))[|prefix|..] == Text.Join(parts, '-');
  }

  lemma {:induction false} JoinNonEmpty(parts: seq<string>, sep: char)
    requires |parts| >= 1 && parts[0] != ""
    ensures Text.Join(parts, sep) != ""
  {
    if |parts| > 1 {
      assert Text.Join(parts, sep) == parts[0] + [sep] + Text.Join(parts[1..], sep);
    }
  }

  // ----- Lorenz mode -----

  datatype XY = XY(x: real, y: real)

  /** The colour of a dataset: the grey of the equality line, or an entry of the five-colour
      palette. */
  datatype Colour = EqualityGrey | PaletteEntry(index: nat)

  /** One Lorenz input: a country, the year it was built for (may be missing), its points. */
  datatype LorenzItem = LorenzItem(country: string, year: Option<int>, points: seq<XY>)

  datatype LorenzSet = LorenzSet(caption: string, points: seq<XY>, colour: Colour)

  const EqualityLine := LorenzSet("Line of equality", [XY(0.0, 0.0), XY(1.0, 1.0)], EqualityGrey)

  /** The palette entry of dataset `i`. */
  function PaletteFor(i: nat): (c: Colour)
    ensures c.PaletteEntry? && c.index < PaletteSize
    ensures i < PaletteSize ==> c.index == i
  {
    PaletteEntry(i % PaletteSize)
  }

  /** The palette repeats every five datasets. */
  lemma PaletteRepeats(i: nat)
    ensures PaletteFor(i + PaletteSize) == PaletteFor(i)
  {
  }

  /** "`COUNTRY` (`year`)", with "n/a" for a missing year. */
  function LorenzCaption(item: LorenzItem): string {
    Text.Upper(item.country) + " (" + (match item.year case Some(y) => PyConvert.ShowInt(y) case None => "n/a") + ")"
  }

  /** What the component draws. */
  datatype ChartView =
    | Placeholder
    | LorenzView(sets: seq<LorenzSet>)
    | SeriesView(labels: Option<seq<int>>, series: seq<SeriesSet>)

  /** The Lorenz chart: the equality line, then one dataset per input in order. */
  function LorenzChart(items: seq<LorenzItem>): (r: ChartView)
    ensures |items| == 0 <==> r.Placeholder?
    ensures |items| > 0 ==>
      && r.LorenzView? && |r.sets| == |items| + 1 && r.sets[0] == EqualityLine
      && forall i :: 0 <= i < |items| ==>
           r.sets[i + 1] == LorenzSet(LorenzCaption(items[i]), items[i].points, PaletteFor(i))
  {
    if |items| == 0 then Placeholder
    else LorenzView([EqualityLine] + seq(|items|, i requires 0 <= i < |items| =>
      LorenzSet(LorenzCaption(items[i]), items[i].points, PaletteFor(i))))
  }

  // ----- time-series mode -----

  /** One time-series input: a country and its `{year, value}` rows. */
  datatype SeriesItem = SeriesItem(country: string, data: seq<Series.Point>)

  datatype SeriesSet =
    | Aligned(caption: string, values: seq<Option<real>>, colour: Colour)
    | Scattered(caption: string, points: seq<Series.Point>, colour: Colour)

  predicate StrictlyAscending(s: seq<int>) {
    forall i, j :: 0 <= i < j < |s| ==> s[i] < s[j]
  }

  /** Some row of some dataset has year `y`. */
  predicate HasYear(items: seq<SeriesItem>, y: int) {
    exists i, j :: 0 <= i < |items| && 0 <= j < |items[i].data| && items[i].data[j].year == y
  }

  function InsertYear(s: seq<int>, y: int): (r: seq<int>)
    requires StrictlyAscending(s)
    ensures StrictlyAscending(r)
    ensures forall z :: z in r <==> z in s || z == y
  {
    if |s| == 0 then [y]
    else if y < s[0] then [y] + s
    else if y == s[0] then s
    else
      var tail := s[1..];
      assert StrictlyAscending(tail);
      var rest := InsertYear(tail, y);
      assert forall k :: 0 <= k < |rest| ==> rest[k] > s[0] by {
        forall k | 0 <= k < |rest|
          ensures rest[k] > s[0]
        {
          assert rest[k] in rest;
          if rest[k] != y {
            var m :| 0 <= m < |tail| && tail[m] == rest[k];
            assert s[m + 1] == rest[k];
          }
        }
      }
      var r := [s[0]] + rest;
      assert StrictlyAscending(r) by {
        forall i, j | 0 <= i < j < |r|
          ensures r[i] < r[j]
        {
          assert r[j] == rest[j - 1];
          if i > 0 {
            assert r[i] == rest[i - 1];
          }
        }
      }
      assert s == [s[0]] + tail;
      r
  }

  predicate RowHasYear(rows: seq<Series.Point>, y: int) {
    exists j :: 0 <= j < |rows| && rows[j].year == y
  }

  function AddYears(acc: seq<int>, rows: seq<Series.Point>): (r: seq<int>)
    requires StrictlyAscending(acc)
    ensures StrictlyAscending(r)
    ensures forall z :: z in r <==> z in acc || RowHasYear(rows, z)
    decreases |rows|
  {
    if |rows| == 0 then acc
    else
      var r := AddYears(InsertYear(acc, rows[0].year), rows[1..]);
      assert forall j :: 1 <= j < |rows| ==> rows[j] == rows[1..][j - 1];
      assert forall z :: RowHasYear(rows, z) <==> z == rows[0].year || RowHasYear(rows[1..], z);
      r
  }

  /** The labels: the `Set` of all years, sorted ascending. */
  function YearUnion(items: seq<SeriesItem>): (r: seq<int>)
    ensures StrictlyAscending(r)
    ensures forall y :: y in r <==> HasYear(items, y)
  {
    if |items| == 0 then []
    else
      var init := items[..|items| - 1];
      var r := AddYears(YearUnion(init), items[|items| - 1].data);
      forall y
        ensures y in r <==> HasYear(items, y)
      {
        if HasYear(init, y) {
          var i, j :| 0 <= i < |init| && 0 <= j < |init[i].data| && init[i].data[j].year == y;
          assert items[i] == init[i];
        }
        if HasYear(items, y) && !RowHasYear(items[|items| - 1].data, y) {
          var i, j :| 0 <= i < |items| && 0 <= j < |items[i].data| && items[i].data[j].year == y;
          assert i < |init| && items[i] == init[i];
        }
      }
      r
  }

  /** `valueMap[year] ?? null`, with the map built row by row (the last row of a year wins)
      and a null value reading as null. */
  function ValueAt(rows: seq<Series.Point>, y: int): Option<real> {
    var m := FromPairs(seq(|rows|, k requires 0 <= k < |rows| => Entry(rows[k].year, rows[k].value)));
    match Get(m, y)
    case Some(v) => v
    case None => None
  }

  /** The value of the last row with year `y`, scanning from the end; null without one. */
  function LastRowValue(rows: seq<Series.Point>, y: int): Option<real> {
    if |rows| == 0 then None
    else if rows[|rows| - 1].year == y then rows[|rows| - 1].value
    else LastRowValue(rows[..|rows| - 1], y)
  }

  /** The dictionary lookup is the backwards scan. */
  lemma {:induction false} ValueAtIsLastRow(rows: seq<Series.Point>, y: int)
    ensures ValueAt(rows, y) == LastRowValue(rows, y)
  {
    var ps := seq(|rows|, k requires 0 <= k < |rows| => Entry(rows[k].year, rows[k].value));
    FromPairsLastWins(ps, y);
    LastForIsLastRow(rows, ps, y);
  }

  lemma {:induction false} LastForIsLastRow(rows: seq<Series.Point>, ps: seq<Entry<int, Option<real>>>, y: int)
    requires |ps| == |rows|
    requires forall k :: 0 <= k < |rows| ==> ps[k] == Entry(rows[k].year, rows[k].value)
    ensures (if LastFor(ps, y).Some? then LastFor(ps, y).value else None) == LastRowValue(rows, y)
  {
    if |rows| > 0 && rows[|rows| - 1].year != y {
      LastForIsLastRow(rows[..|rows| - 1], ps[..|ps| - 1], y);
    }
  }

  /** The line or bar values of one dataset: one entry per label. */
  function AlignValues(rows: seq<Series.Point>, labels: seq<int>): (r: seq<Option<real>>)
    ensures |r| == |labels|
    ensures forall k :: 0 <= k < |labels| ==> r[k] == ValueAt(rows, labels[k])
  {
    seq(|labels|, k requires 0 <= k < |labels| => ValueAt(rows, labels[k]))
  }

  /** A label's value is null unless some row has that year; a value present comes from the
      last row of that year. */
  lemma {:induction false} AlignedValueFromLastRow(rows: seq<Series.Point>, labels: seq<int>, k: int)
    requires 0 <= k < |labels|
    ensures AlignValues(rows, labels)[k] == LastRowValue(rows, labels[k])
    ensures (forall j :: 0 <= j < |rows| ==> rows[j].year != labels[k]) ==> AlignValues(rows, labels)[k].None?
  {
    ValueAtIsLastRow(rows, labels[k]);
    LastRowValueAbsent(rows, labels[k]);
  }

  lemma {:induction false} LastRowValueAbsent(rows: seq<Series.Point>, y: int)
    ensures (forall j :: 0 <= j < |rows| ==> rows[j].year != y) ==> LastRowValue(rows, y).None?
  {
    if |rows| > 0 {
      LastRowValueAbsent(rows[..|rows| - 1], y);
    }
  }

  /** The time-series chart. Line and bar charts share the year labels and align every
      dataset to them; a scatter chart has no labels and plots each dataset's rows sorted by
      year (JavaScript's sort is stable). */
  function SeriesChart(items: seq<SeriesItem>, scatter: bool): (r: ChartView)
    ensures |items| == 0 <==> r.Placeholder?
    ensures |items| > 0 ==> r.SeriesView? && |r.series| == |items|
    ensures |items| > 0 && scatter ==>
      && r.labels.None?
      && forall i :: 0 <= i < |items| ==>
           && r.series[i].Scattered? && r.series[i].colour == PaletteFor(i)
           && r.series[i].caption == Text.Upper(items[i].country)
           && multiset(r.series[i].points) == multiset(items[i].data)
           && Series.YearsAscending(r.series[i].points)
    ensures |items| > 0 && !scatter ==>
      && r.labels == Some(YearUnion(items))
      && forall i :: 0 <= i < |items| ==>
           && r.series[i].Aligned? && r.series[i].colour == PaletteFor(i)
           && r.series[i].caption == Text.Upper(items[i].country)
           && |r.series[i].values| == |YearUnion(items)|
  {
    if |items| == 0 then Placeholder
    else if scatter then
      SeriesView(None, seq(|items|, i requires 0 <= i < |items| =>
        Scattered(Text.Upper(items[i].country), Series.SortByYear(items[i].data), PaletteFor(i))))
    else
      var labels := YearUnion(items);
      SeriesView(Some(labels), seq(|items|, i requires 0 <= i < |items| =>
        Aligned(Text.Upper(items[i].country), AlignValues(items[i].data, labels), PaletteFor(i))))
  }

  /** In a line or bar chart, dataset `i` shows at label `k` the value of its last row of
      that year, and null when it has no row of that year. */
  lemma AlignedChartValue(items: seq<SeriesItem>, i: int, k: int)
    requires 0 <= i < |items|
    requires 0 <= k < |YearUnion(items)|
    ensures SeriesChart(items, false).series[i].values[k] == LastRowValue(items[i].data, YearUnion(items)[k])
  {
    AlignedValueFromLastRow(items[i].data, YearUnion(items), k);
  }
}

/** Yearly observation series, the common currency of the services and the client:
    `{year, value}` rows whose value may be missing (`None` / `null`). */
module Series {
  import opened Wrappers
  import StableSort

  datatype Point = Point(year: int, value: Option<real>)

  function YearOf(p: Point): int { p.year }

  /** The live World Bank source, `fetch_indicator_series(country, indicator)`: the network
      call is outside the model, so a caller receives it as a parameter; it may fail. */
  type LiveFetch = (string, string) -> Result<seq<Point>, string>

  predicate YearsAscending(s: seq<Point>) {
    forall i, j :: 0 <= i < j < |s| ==> s[i].year <= s[j].year
  }

  predicate YearsStrictlyAscending(s: seq<Point>) {
    forall i, j :: 0 <= i < j < |s| ==> s[i].year < s[j].year
  }

  /** Python `sorted(rows, key=lambda r: r["year"])`: stable, so rows of the same year keep
      their input order. */
  function SortByYear(s: seq<Point>): (r: seq<Point>)
    ensures |r| == |s|
    ensures multiset(r) == multiset(s)
    ensures YearsAscending(r)
    ensures forall y :: StableSort.WithKey(r, YearOf, y) == StableSort.WithKey(s, YearOf, y)
  {
    StableSort.IntLeIsTotal();
    var r := StableSort.Sort(s, YearOf, StableSort.IntLe);
    assert forall i, j :: 0 <= i < j < |r| ==> StableSort.IntLe(YearOf(r[i]), YearOf(r[j]));
    r
  }

  /** The optional inclusive year window `[start, end]` used by every endpoint. */
  predicate InWindow(year: int, start: Option<int>, end: Option<int>) {
    (start.None? || year >= start.value) && (end.None? || year <= end.value)
  }

  /** Rows inside the window, in their original order. */
  function FilterWindow(s: seq<Point>, start: Option<int>, end: Option<int>): (r: seq<Point>)
    ensures |r| <= |s|
    ensures forall i :: 0 <= i < |r| ==> InWindow(r[i].year, start, end)
  {
    if |s| == 0 then []
    else
      FilterWindow(s[..|s| - 1], start, end) + (if InWindow(s[|s| - 1].year, start, end) then [s[|s| - 1]] else [])
  }

  /** Nothing inside the window is lost or duplicated and nothing outside it is kept:
      every row occurs in the result as often as in the input when inside, never when outside. */
  lemma {:induction false} FilterWindowCount(s: seq<Point>, start: Option<int>, end: Option<int>, p: Point)
    ensures multiset(FilterWindow(s, start, end))[p] == if InWindow(p.year, start, end) then multiset(s)[p] else 0
  {
    if |s| > 0 {
      var init, last := s[..|s| - 1], s[|s| - 1];
      var tail := if InWindow(last.year, start, end) then [last] else [];
      assert s == init + [last];
      assert multiset(s) == multiset(init) + multiset([last]);
      assert multiset(FilterWindow(s, start, end)) == multiset(FilterWindow(init, start, end)) + multiset(tail);
      FilterWindowCount(init, start, end, p);
      if InWindow(p.year, start, end) {
        assert multiset(tail)[p] == multiset([last])[p];
      } else {
        assert multiset(tail)[p] == 0;
      }
    }
  }

  /** Filtering keeps the relative order, so a year-ordered series stays year-ordered. */
  lemma {:induction false} FilterWindowKeepsOrder(s: seq<Point>, start: Option<int>, end: Option<int>)
    requires YearsAscending(s)
    ensures YearsAscending(FilterWindow(s, start, end))
  {
    if |s| > 0 {
      var init := s[..|s| - 1];
      var last := s[|s| - 1];
      FilterWindowKeepsOrder(init, start, end);
      FilterWindowBelow(init, start, end, last.year);
      var fi := FilterWindow(init, start, end);
      var r := FilterWindow(s, start, end);
      if InWindow(last.year, start, end) {
        assert r == fi + [last];
        forall i, j | 0 <= i < j < |r|
          ensures r[i].year <= r[j].year
        {
          assert r[i] == fi[i];
          if j < |fi| {
            assert r[j] == fi[j];
          } else {
            assert r[j] == last;
          }
        }
      } else {
        assert r == fi;
      }
    }
  }

  /** Filtering keeps every year at or below a bound that holds for all input rows. */
  lemma {:induction false} FilterWindowBelow(s: seq<Point>, start: Option<int>, end: Option<int>, bound: int)
    requires forall k :: 0 <= k < |s| ==> s[k].year <= bound
    ensures forall i :: 0 <= i < |FilterWindow(s, start, end)| ==> FilterWindow(s, start, end)[i].year <= bound
  {
    if |s| > 0 {
      var init := s[..|s| - 1];
      FilterWindowBelow(init, start, end, bound);
    }
  }

  /** The rows that carry a value, in order. */
  function Valued(s: seq<Point>): (r: seq<Point>)
    ensures |r| <= |s|
    ensures forall i :: 0 <= i < |r| ==> r[i].value.Some?
  {
    if |s| == 0 then []
    else Valued(s[..|s| - 1]) + (if s[|s| - 1].value.Some? then [s[|s| - 1]] else [])
  }

  /** Every row with a value is kept as often as it occurs; rows without one are dropped. */
  lemma {:induction false} ValuedCount(s: seq<Point>, p: Point)
    ensures multiset(Valued(s))[p] == if p.value.Some? then multiset(s)[p] else 0
  {
    if |s| > 0 {
      var init, last := s[..|s| - 1], s[|s| - 1];
      var tail := if last.value.Some? then [last] else [];
      assert s == init + [last];
      assert multiset(s) == multiset(init) + multiset([last]);
      assert multiset(Valued(s)) == multiset(Valued(init)) + multiset(tail);
      ValuedCount(init, p);
    }
  }

  /** The last row with a value: `filter(v is number)` followed by "take the last one". */
  function LastValued(s: seq<Point>): (r: Option<Point>)
  {
    var v := Valued(s);
    if |v| == 0 then None else Some(v[|v| - 1])
  }

  /** LastValued agrees with a backwards scan: it is the row at the highest index holding
      a value, and it is absent exactly when no row holds one. */
  lemma {:induction false} LastValuedIsLatest(s: seq<Point>)
    ensures LastValued(s).None? <==> forall i :: 0 <= i < |s| ==> s[i].value.None?
    ensures LastValued(s).Some? ==>
      exists i :: 0 <= i < |s| && s[i] == LastValued(s).value && s[i].value.Some? &&
        forall j :: i < j < |s| ==> s[j].value.None?
  {
    if |s| == 0 {
    } else {
      var init := s[..|s| - 1];
      var last := s[|s| - 1];
      LastValuedIsLatest(init);
      assert Valued(s) == Valued(init) + (if last.value.Some? then [last] else []);
      if last.value.Some? {
        assert LastValued(s) == Some(last);
      } else {
        assert Valued(s) == Valued(init);
        if LastValued(init).None? {
          forall i | 0 <= i < |s|
            ensures s[i].value.None?
          {
            if i < |s| - 1 {
              assert s[i] == init[i];
            }
          }
        } else {
          var i :| 0 <= i < |init| && init[i] == LastValued(init).value && init[i].value.Some? &&
            forall j :: i < j < |init| ==> init[j].value.None?;
          assert s[i] == init[i];
        }
      }
    }
  }

  /** The earliest year of a non-empty series. */
  function MinYear(s: seq<Point>): (m: int)
    requires |s| > 0
    ensures forall i :: 0 <= i < |s| ==> m <= s[i].year
    ensures exists i :: 0 <= i < |s| && s[i].year == m
  {
    if |s| == 1 then s[0].year
    else
      var rest := MinYear(s[1..]);
      assert forall i :: 1 <= i < |s| ==> s[i] == s[1..][i - 1];
      if s[0].year <= rest then s[0].year else rest
  }

  /** The latest year of a non-empty series. */
  function MaxYear(s: seq<Point>): (m: int)
    requires |s| > 0
    ensures forall i :: 0 <= i < |s| ==> s[i].year <= m
    ensures exists i :: 0 <= i < |s| && s[i].year == m
  {
    if |s| == 1 then s[0].year
    else
      var rest := MaxYear(s[1..]);
      assert forall i :: 1 <= i < |s| ==> s[i] == s[1..][i - 1];
      if s[0].year >= rest then s[0].year else rest
  }
}

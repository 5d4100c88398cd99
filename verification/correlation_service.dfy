/** `correlation_for_country`: the year-aligned overlap of two indicators of one country,
    read from the observations table, and its Pearson coefficient. */
module CorrelationService {
  import opened Wrappers
  import opened Store
  import Series
  import Text
  import StableSort
  import opened OrderedMap
  import opened Correlation

  function ObsYear(o: Observation): int { o.year }

  /** The query's filters: the country, either indicator, and the optional year window. */
  predicate Selected(o: Observation, countryId: int, idA: int, idB: int, start: Option<int>, end: Option<int>) {
    o.countryId == countryId && (o.indicatorId == idA || o.indicatorId == idB) && Series.InWindow(o.year, start, end)
  }

  function SelectRows(rows: seq<Observation>, countryId: int, idA: int, idB: int, start: Option<int>, end: Option<int>): (r: seq<Observation>)
    ensures forall i :: 0 <= i < |r| ==> Selected(r[i], countryId, idA, idB, start, end)
  {
    if |rows| == 0 then []
    else
      var last := rows[|rows| - 1];
      SelectRows(rows[..|rows| - 1], countryId, idA, idB, start, end)
        + (if Selected(last, countryId, idA, idB, start, end) then [last] else [])
  }

  /** A row is selected exactly when it is in the table and passes the filters. */
  lemma {:induction false} SelectRowsMembers(rows: seq<Observation>, countryId: int, idA: int, idB: int, start: Option<int>, end: Option<int>, o: Observation)
    ensures o in SelectRows(rows, countryId, idA, idB, start, end) <==> o in rows && Selected(o, countryId, idA, idB, start, end)
  {
    if |rows| > 0 {
      var init := rows[..|rows| - 1];
      SelectRowsMembers(init, countryId, idA, idB, start, end, o);
      assert rows == init + [rows[|rows| - 1]];
    }
  }

  /** The query result `...order_by(Observation.year).all()`. */
  function WindowRows(db: Db, countryId: int, idA: int, idB: int, start: Option<int>, end: Option<int>): (r: seq<Observation>)
    ensures StableSort.SortedBy(r, ObsYear, StableSort.IntLe)
    ensures forall o :: o in r <==> o in db.observations && Selected(o, countryId, idA, idB, start, end)
  {
    StableSort.IntLeIsTotal();
    var sel := SelectRows(db.observations, countryId, idA, idB, start, end);
    var r := StableSort.Sort(sel, ObsYear, StableSort.IntLe);
    forall o
      ensures o in r <==> o in db.observations && Selected(o, countryId, idA, idB, start, end)
    {
      assert o in r <==> o in multiset(r);
      assert o in sel <==> o in multiset(sel);
      SelectRowsMembers(db.observations, countryId, idA, idB, start, end, o);
    }
    r
  }

  /** The (year, value) pairs one indicator contributes to its dictionary: rows of that
      indicator with a value, in order (`if row.value is None: continue`). */
  function YearValues(rows: seq<Observation>, indicatorId: int): (r: seq<Entry<int, real>>)
    ensures |r| <= |rows|
  {
    if |rows| == 0 then []
    else
      var last := rows[|rows| - 1];
      YearValues(rows[..|rows| - 1], indicatorId)
        + (if last.indicatorId == indicatorId && last.value.Some? then [Entry(last.year, last.value.value)] else [])
  }

  /** Some pair has key y. */
  predicate HasKey<V>(ps: seq<Entry<int, V>>, y: int) {
    exists i :: 0 <= i < |ps| && ps[i].key == y
  }

  /** Some row of the indicator has year y and a value. */
  predicate HasValuedRow(rows: seq<Observation>, indicatorId: int, y: int) {
    exists o :: o in rows && o.indicatorId == indicatorId && o.year == y && o.value.Some?
  }

  lemma HasKeyAppend<V>(ps: seq<Entry<int, V>>, qs: seq<Entry<int, V>>, y: int)
    ensures HasKey(ps + qs, y) <==> HasKey(ps, y) || HasKey(qs, y)
  {
    if HasKey(ps + qs, y) {
      var i :| 0 <= i < |ps + qs| && (ps + qs)[i].key == y;
      if i >= |ps| {
        assert qs[i - |ps|].key == y;
      }
    }
    if HasKey(ps, y) {
      var i :| 0 <= i < |ps| && ps[i].key == y;
      assert (ps + qs)[i].key == y;
    }
    if HasKey(qs, y) {
      var i :| 0 <= i < |qs| && qs[i].key == y;
      assert (ps + qs)[|ps| + i].key == y;
    }
  }

  lemma HasValuedRowSnoc(init: seq<Observation>, last: Observation, indicatorId: int, y: int)
    ensures HasValuedRow(init + [last], indicatorId, y) <==>
      HasValuedRow(init, indicatorId, y) || (last.indicatorId == indicatorId && last.year == y && last.value.Some?)
  {
    if HasValuedRow(init + [last], indicatorId, y) {
      var o :| o in init + [last] && o.indicatorId == indicatorId && o.year == y && o.value.Some?;
      assert o in init || o == last;
    }
    if HasValuedRow(init, indicatorId, y) {
      var o :| o in init && o.indicatorId == indicatorId && o.year == y && o.value.Some?;
      assert o in init + [last];
    }
    assert last in init + [last];
  }

  /** A year has a pair exactly when some row of the indicator has that year and a value. */
  lemma {:induction false} YearValuesHasYear(rows: seq<Observation>, indicatorId: int, y: int)
    ensures HasKey(YearValues(rows, indicatorId), y) <==> HasValuedRow(rows, indicatorId, y)
  {
    if |rows| > 0 {
      var init := rows[..|rows| - 1];
      var last := rows[|rows| - 1];
      var tail := if last.indicatorId == indicatorId && last.value.Some? then [Entry(last.year, last.value.value)] else [];
      YearValuesHasYear(init, indicatorId, y);
      assert YearValues(rows, indicatorId) == YearValues(init, indicatorId) + tail;
      HasKeyAppend(YearValues(init, indicatorId), tail, y);
      if last.indicatorId == indicatorId && last.value.Some? {
        assert tail[0].key == last.year && |tail| == 1;
      }
      assert rows == init + [last];
      HasValuedRowSnoc(init, last, indicatorId, y);
    } else {
      assert !HasValuedRow(rows, indicatorId, y);
    }
  }

  /** `by_indicator[id]`: year -> value, the last row of a year winning. */
  function ByIndicator(rows: seq<Observation>, indicatorId: int): seq<Entry<int, real>>
  {
    FromPairs(YearValues(rows, indicatorId))
  }

  /** The dictionary has a year exactly when some row of that indicator has that year and a value. */
  lemma ByIndicatorHasYear(rows: seq<Observation>, indicatorId: int, y: int)
    ensures Get(ByIndicator(rows, indicatorId), y).Some? <==> HasValuedRow(rows, indicatorId, y)
  {
    var ps := YearValues(rows, indicatorId);
    FromPairsLastWins(ps, y);
    YearValuesHasYear(rows, indicatorId, y);
    if HasKey(ps, y) {
      var i :| 0 <= i < |ps| && ps[i].key == y;
      assert LastFor(ps, y).Some?;
    }
  }

  /** The overlap loop: for each year of A's dictionary, in its order, that B also has. */
  function OverlapYears(ma: seq<Entry<int, real>>, mb: seq<Entry<int, real>>): (ys: seq<int>)
    ensures |ys| <= |ma|
  {
    if |ma| == 0 then []
    else
      var e := ma[|ma| - 1];
      OverlapYears(ma[..|ma| - 1], mb) + (if Get(mb, e.key).Some? then [e.key] else [])
  }

  /** The value pairs built by the same loop. */
  function Overlap(ma: seq<Entry<int, real>>, mb: seq<Entry<int, real>>): (r: seq<Pair>)
    ensures |r| == |OverlapYears(ma, mb)|
  {
    if |ma| == 0 then []
    else
      var e := ma[|ma| - 1];
      Overlap(ma[..|ma| - 1], mb) + (match Get(mb, e.key) case Some(v) => [Pair(e.val, v)] case None => [])
  }

  /** The i-th pair holds A's and B's values for the i-th overlapping year. */
  lemma {:induction false} OverlapPairsAreAligned(ma: seq<Entry<int, real>>, mb: seq<Entry<int, real>>, i: int)
    requires KeysUnique(ma)
    requires 0 <= i < |Overlap(ma, mb)|
    ensures Get(ma, OverlapYears(ma, mb)[i]).Some? && Get(mb, OverlapYears(ma, mb)[i]).Some?
    ensures Overlap(ma, mb)[i] == Pair(Get(ma, OverlapYears(ma, mb)[i]).value, Get(mb, OverlapYears(ma, mb)[i]).value)
  {
    var init := ma[..|ma| - 1];
    var e := ma[|ma| - 1];
    assert KeysUnique(init);
    if i < |Overlap(init, mb)| {
      OverlapPairsAreAligned(init, mb, i);
      var y := OverlapYears(init, mb)[i];
      assert OverlapYears(ma, mb)[i] == y;
      var k :| 0 <= k < |init| && init[k] == Entry(y, Get(init, y).value);
      assert ma[k] == init[k];
      GetOfEntry(ma, k);
    } else {
      GetOfEntry(ma, |ma| - 1);
    }
  }

  /** A year is in the overlap exactly when both dictionaries have it. */
  lemma {:induction false} OverlapYearsMembers(ma: seq<Entry<int, real>>, mb: seq<Entry<int, real>>, y: int)
    ensures y in OverlapYears(ma, mb) <==> Get(ma, y).Some? && Get(mb, y).Some?
  {
    if |ma| > 0 {
      var init := ma[..|ma| - 1];
      OverlapYearsMembers(init, mb, y);
      assert forall i :: 0 <= i < |init| ==> init[i] == ma[i];
      if Get(ma, y).Some? && Get(mb, y).Some? && !(y in OverlapYears(init, mb)) {
        var k :| 0 <= k < |ma| && ma[k] == Entry(y, Get(ma, y).value);
        assert k == |ma| - 1;
      }
      if Get(init, y).Some? {
        var k :| 0 <= k < |init| && init[k] == Entry(y, Get(init, y).value);
        assert ma[k] == init[k];
      }
    }
  }

  /** With unique keys in A's dictionary, no year is counted twice. */
  lemma {:induction false} OverlapYearsDistinct(ma: seq<Entry<int, real>>, mb: seq<Entry<int, real>>)
    requires KeysUnique(ma)
    ensures forall i, j :: 0 <= i < j < |OverlapYears(ma, mb)| ==> OverlapYears(ma, mb)[i] != OverlapYears(ma, mb)[j]
  {
    if |ma| > 0 {
      var init := ma[..|ma| - 1];
      var e := ma[|ma| - 1];
      assert KeysUnique(init);
      OverlapYearsDistinct(init, mb);
      OverlapYearsMembers(init, mb, e.key);
      forall i | 0 <= i < |init|
        ensures init[i].key != e.key
      {
        assert init[i] == ma[i];
      }
      assert e.key !in OverlapYears(init, mb);
    }
  }

  datatype CorrelationReport = CorrelationReport(
    country: string, indicatorA: string, indicatorB: string, points: int, correlation: Option<real>)

  /** The years both indicators have a value for, in the window, in A's dictionary order. */
  function CommonYears(db: Db, countryId: int, idA: int, idB: int, start: Option<int>, end: Option<int>): seq<int>
  {
    var rows := WindowRows(db, countryId, idA, idB, start, end);
    OverlapYears(ByIndicator(rows, idA), ByIndicator(rows, idB))
  }

  function CommonPairs(db: Db, countryId: int, idA: int, idB: int, start: Option<int>, end: Option<int>): seq<Pair>
  {
    var rows := WindowRows(db, countryId, idA, idB, start, end);
    Overlap(ByIndicator(rows, idA), ByIndicator(rows, idB))
  }

  /** `correlation_for_country`: None when the country (upper-cased) or either indicator
      is unknown; otherwise the report over the common years. */
  function CorrelationForCountry(sqrt: real -> real, db: Db, countryCode: string, codeA: string, codeB: string,
                                 start: Option<int>, end: Option<int>): (r: Option<CorrelationReport>)
    ensures r.None? <==>
      FindCountry(db, Text.Upper(countryCode)).None? || FindIndicator(db, codeA).None? || FindIndicator(db, codeB).None?
    ensures r.Some? ==>
      var c, a, b := FindCountry(db, Text.Upper(countryCode)).value, FindIndicator(db, codeA).value, FindIndicator(db, codeB).value;
      && r.value.country == c.code && r.value.indicatorA == a.code && r.value.indicatorB == b.code
      && r.value.points == |CommonYears(db, c.id, a.id, b.id, start, end)|
      && r.value.correlation == ComputeCorrelation(sqrt, CommonPairs(db, c.id, a.id, b.id, start, end))
  {
    match (FindCountry(db, Text.Upper(countryCode)), FindIndicator(db, codeA), FindIndicator(db, codeB))
    case (Some(c), Some(a), Some(b)) =>
      var pairs := CommonPairs(db, c.id, a.id, b.id, start, end);
      Some(CorrelationReport(c.code, a.code, b.code, |pairs|, ComputeCorrelation(sqrt, pairs)))
    case _ => None
  }

  /** The common years are exactly the years in the window at which the table holds a value
      for both indicators of the country, each counted once. */
  lemma CommonYearsExact(db: Db, countryId: int, idA: int, idB: int, start: Option<int>, end: Option<int>, y: int)
    ensures y in CommonYears(db, countryId, idA, idB, start, end) <==>
      Series.InWindow(y, start, end)
      && (exists o :: o in db.observations && o.countryId == countryId && o.indicatorId == idA && o.year == y && o.value.Some?)
      && (exists o :: o in db.observations && o.countryId == countryId && o.indicatorId == idB && o.year == y && o.value.Some?)
  {
    var rows := WindowRows(db, countryId, idA, idB, start, end);
    OverlapYearsMembers(ByIndicator(rows, idA), ByIndicator(rows, idB), y);
    ByIndicatorHasYear(rows, idA, y);
    ByIndicatorHasYear(rows, idB, y);
    if exists o :: o in db.observations && o.countryId == countryId && o.indicatorId == idA && o.year == y && o.value.Some? && Series.InWindow(y, start, end) {
      var o :| o in db.observations && o.countryId == countryId && o.indicatorId == idA && o.year == y && o.value.Some? && Series.InWindow(y, start, end);
      assert o in rows;
    }
    if exists o :: o in db.observations && o.countryId == countryId && o.indicatorId == idB && o.year == y && o.value.Some? && Series.InWindow(y, start, end) {
      var o :| o in db.observations && o.countryId == countryId && o.indicatorId == idB && o.year == y && o.value.Some? && Series.InWindow(y, start, end);
      assert o in rows;
    }
  }

  lemma CommonYearsDistinct(db: Db, countryId: int, idA: int, idB: int, start: Option<int>, end: Option<int>)
    ensures var ys := CommonYears(db, countryId, idA, idB, start, end);
      forall i, j :: 0 <= i < j < |ys| ==> ys[i] != ys[j]
  {
    var rows := WindowRows(db, countryId, idA, idB, start, end);
    OverlapYearsDistinct(ByIndicator(rows, idA), ByIndicator(rows, idB));
  }
}

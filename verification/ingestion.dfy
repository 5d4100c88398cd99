/** World Bank ingestion: store the rows of a fetched series that the table does not hold
    yet, and record the run in `ingestion_runs`. */
module Ingestion {
  import opened Wrappers
  import opened Numeric
  import opened Store
  import Text
  import Series
  import Lists

  const WorldBankSource := "world_bank"

  // ----- get-or-create -----

  /** `get_or_create_country`: the row with the upper-cased code, created (named after its
      code) when absent. */
  function GetOrCreateCountry(db: Db, code: string): (r: (Country, Db))
    ensures r.0.code == Text.Upper(code)
    ensures FindCountry(db, Text.Upper(code)).Some? ==> r == (FindCountry(db, Text.Upper(code)).value, db)
    ensures FindCountry(db, Text.Upper(code)).None? ==>
      && r.0.name == Text.Upper(code)
      && (forall i :: 0 <= i < |db.countries| ==> db.countries[i].id < r.0.id)
      && r.1 == db.(countries := db.countries + [r.0])
    ensures FindCountry(r.1, Text.Upper(code)) == Some(r.0)
  {
    match FindCountry(db, Text.Upper(code))
    case Some(c) => (c, db)
    case None =>
      var c := Country(NextId(Lists.Map(db.countries, (c: Country) => c.id)), Text.Upper(code), Text.Upper(code));
      var db1 := db.(countries := db.countries + [c]);
      assert db1.countries[|db.countries|] == c;
      (c, db1)
  }

  /** `get_or_create_indicator`: the row with the exact code, created with source
      "world_bank" when absent. */
  function GetOrCreateIndicator(db: Db, code: string): (r: (Indicator, Db))
    ensures r.0.code == code
    ensures FindIndicator(db, code).Some? ==> r == (FindIndicator(db, code).value, db)
    ensures FindIndicator(db, code).None? ==>
      && r.0.name == code && r.0.source == WorldBankSource
      && (forall i :: 0 <= i < |db.indicators| ==> db.indicators[i].id < r.0.id)
      && r.1 == db.(indicators := db.indicators + [r.0])
    ensures FindIndicator(r.1, code) == Some(r.0)
  {
    match FindIndicator(db, code)
    case Some(x) => (x, db)
    case None =>
      var x := Indicator(NextId(Lists.Map(db.indicators, (x: Indicator) => x.id)), code, code, WorldBankSource);
      var db1 := db.(indicators := db.indicators + [x]);
      assert db1.indicators[|db.indicators|] == x;
      (x, db1)
  }

  /** Both helpers are idempotent: a second call returns the same row and adds nothing. */
  lemma GetOrCreateIdempotent(db: Db, countryCode: string, indicatorCode: string)
    ensures var c, db1 := GetOrCreateCountry(db, countryCode).0, GetOrCreateCountry(db, countryCode).1;
      GetOrCreateCountry(db1, countryCode) == (c, db1)
    ensures var x, db1 := GetOrCreateIndicator(db, indicatorCode).0, GetOrCreateIndicator(db, indicatorCode).1;
      GetOrCreateIndicator(db1, indicatorCode) == (x, db1)
  {
  }

  // ----- coverage -----

  /** `calculate_expected`: the number of calendar years the series spans, 0 when empty. */
  function CalculateExpected(s: seq<Series.Point>): (r: int)
    ensures r == 0 <==> |s| == 0
    ensures |s| > 0 ==> r >= 1
    ensures forall i, j :: 0 <= i < |s| && 0 <= j < |s| ==> s[i].year - s[j].year < r
    ensures |s| > 0 ==> exists i, j :: 0 <= i < |s| && 0 <= j < |s| && s[i].year - s[j].year == r - 1
  {
    if |s| == 0 then 0 else Series.MaxYear(s) - Series.MinYear(s) + 1
  }

  // ----- insert-if-absent -----

  predicate StoredYear(obs: seq<Observation>, countryId: int, indicatorId: int, year: int) {
    exists k :: 0 <= k < |obs| && Of(obs[k], countryId, indicatorId) && obs[k].year == year
  }

  function NewRow(countryId: int, indicatorId: int, p: Series.Point): Observation {
    Observation(countryId, indicatorId, p.year, p.value, WorldBankSource)
  }

  /** The insertion loop under an autoflushing session (SQLAlchemy's default): the pending
      rows are flushed before each existence query, so the query sees the rows added earlier
      in the same loop, and a year repeated in the series is stored once, with its first
      value. */
  function InsertAbsent(obs: seq<Observation>, countryId: int, indicatorId: int, series: seq<Series.Point>): (r: seq<Observation>)
    ensures |obs| <= |r| <= |obs| + |series|
    ensures r[..|obs|] == obs
    ensures forall k :: |obs| <= k < |r| ==> Of(r[k], countryId, indicatorId) && r[k].source == WorldBankSource
    decreases |series|
  {
    if |series| == 0 then obs
    else if StoredYear(obs, countryId, indicatorId, series[0].year) then InsertAbsent(obs, countryId, indicatorId, series[1..])
    else
      var r := InsertAbsent(obs + [NewRow(countryId, indicatorId, series[0])], countryId, indicatorId, series[1..]);
      assert r[..|obs|] == (obs + [NewRow(countryId, indicatorId, series[0])])[..|obs|];
      r
  }

  /** After the loop the pair holds a row for a year exactly when it held one before or the
      series has that year. */
  lemma {:induction false} InsertAbsentCovers(obs: seq<Observation>, countryId: int, indicatorId: int, series: seq<Series.Point>, y: int)
    ensures StoredYear(InsertAbsent(obs, countryId, indicatorId, series), countryId, indicatorId, y) <==>
      StoredYear(obs, countryId, indicatorId, y) || exists j :: 0 <= j < |series| && series[j].year == y
    decreases |series|
  {
    if |series| > 0 {
      var row := NewRow(countryId, indicatorId, series[0]);
      var next := if StoredYear(obs, countryId, indicatorId, series[0].year) then obs else obs + [row];
      InsertAbsentCovers(next, countryId, indicatorId, series[1..], y);
      assert forall j :: 1 <= j < |series| ==> series[j] == series[1..][j - 1];
      if next != obs {
        assert next[|obs|] == row;
        assert StoredYear(next, countryId, indicatorId, y) <==> StoredYear(obs, countryId, indicatorId, y) || series[0].year == y by {
          if StoredYear(next, countryId, indicatorId, y) {
            var k :| 0 <= k < |next| && Of(next[k], countryId, indicatorId) && next[k].year == y;
            if k < |obs| { assert obs[k] == next[k]; }
          }
          if StoredYear(obs, countryId, indicatorId, y) {
            var k :| 0 <= k < |obs| && Of(obs[k], countryId, indicatorId) && obs[k].year == y;
            assert next[k] == obs[k];
          }
        }
      }
    }
  }

  predicate OnlyNewRows(obs: seq<Observation>, r: seq<Observation>, countryId: int, indicatorId: int) {
    && (forall k :: |obs| <= k < |r| ==> !StoredYear(obs, countryId, indicatorId, r[k].year))
    && (forall k, l :: |obs| <= k < l < |r| ==> r[k].year != r[l].year)
  }

  /** Every added row is for a year the pair did not hold before, and distinct added rows
      have distinct years: existing rows are never duplicated. */
  lemma {:induction false} InsertAbsentOnlyNew(obs: seq<Observation>, countryId: int, indicatorId: int, series: seq<Series.Point>)
    ensures OnlyNewRows(obs, InsertAbsent(obs, countryId, indicatorId, series), countryId, indicatorId)
    decreases |series|
  {
    if |series| > 0 {
      var row := NewRow(countryId, indicatorId, series[0]);
      if StoredYear(obs, countryId, indicatorId, series[0].year) {
        assert InsertAbsent(obs, countryId, indicatorId, series) == InsertAbsent(obs, countryId, indicatorId, series[1..]);
        InsertAbsentOnlyNew(obs, countryId, indicatorId, series[1..]);
      } else {
        var next := obs + [row];
        InsertAbsentOnlyNew(next, countryId, indicatorId, series[1..]);
        var r := InsertAbsent(next, countryId, indicatorId, series[1..]);
        assert InsertAbsent(obs, countryId, indicatorId, series) == r;
        assert r[..|next|] == next;
        assert r[|obs|] == r[..|next|][|obs|] == row;
        assert forall m :: 0 <= m < |obs| ==> next[m] == obs[m];
        assert next[|obs|] == row;
        forall k | |obs| <= k < |r|
          ensures !StoredYear(obs, countryId, indicatorId, r[k].year)
        {
          if k > |obs| {
            assert !StoredYear(next, countryId, indicatorId, r[k].year);
          }
        }
        forall k, l | |obs| <= k < l < |r|
          ensures r[k].year != r[l].year
        {
          if k == |obs| {
            assert !StoredYear(next, countryId, indicatorId, r[l].year);
          }
        }
      }
    }
  }

  /** Running the loop again over the same series inserts nothing. */
  lemma {:induction false} InsertAbsentIdempotent(obs: seq<Observation>, countryId: int, indicatorId: int, series: seq<Series.Point>)
    ensures var r := InsertAbsent(obs, countryId, indicatorId, series);
      InsertAbsent(r, countryId, indicatorId, series) == r
  {
    var r := InsertAbsent(obs, countryId, indicatorId, series);
    forall j | 0 <= j < |series|
      ensures StoredYear(r, countryId, indicatorId, series[j].year)
    {
      InsertAbsentCovers(obs, countryId, indicatorId, series, series[j].year);
    }
    InsertNothingWhenAllStored(r, countryId, indicatorId, series);
  }

  lemma {:induction false} InsertNothingWhenAllStored(obs: seq<Observation>, countryId: int, indicatorId: int, series: seq<Series.Point>)
    requires forall j :: 0 <= j < |series| ==> StoredYear(obs, countryId, indicatorId, series[j].year)
    ensures InsertAbsent(obs, countryId, indicatorId, series) == obs
    decreases |series|
  {
    if |series| > 0 {
      assert StoredYear(obs, countryId, indicatorId, series[0].year);
      assert forall j :: 1 <= j < |series| ==> series[j] == series[1..][j - 1];
      InsertNothingWhenAllStored(obs, countryId, indicatorId, series[1..]);
    }
  }

  /** The insertion loop under a session without autoflush: every existence query sees only
      the rows flushed before the loop, so each series entry whose year is not among them
      yields a pending row, a repeated year included. */
  function Unflushed(obs: seq<Observation>, countryId: int, indicatorId: int, series: seq<Series.Point>): (r: seq<Observation>)
    ensures |r| <= |series|
    ensures forall k :: 0 <= k < |r| ==>
      Of(r[k], countryId, indicatorId) && r[k].source == WorldBankSource && !StoredYear(obs, countryId, indicatorId, r[k].year)
    decreases |series|
  {
    if |series| == 0 then []
    else
      var head := if StoredYear(obs, countryId, indicatorId, series[0].year) then [] else [NewRow(countryId, indicatorId, series[0])];
      head + Unflushed(obs, countryId, indicatorId, series[1..])
  }

  /** No two rows share a year; the commit's flush fails otherwise (`uq_obs`). */
  predicate YearsDistinct(rows: seq<Observation>) {
    forall k, l :: 0 <= k < l < |rows| ==> rows[k].year != rows[l].year
  }

  /** Without autoflush the loop adds the same rows as with it, provided the pending rows
      (those pending already, `extra`, and the ones the loop adds) have distinct years. */
  lemma {:induction false} UnflushedMatchesInsertAbsent(obs: seq<Observation>, extra: seq<Observation>, countryId: int, indicatorId: int, series: seq<Series.Point>)
    requires YearsDistinct(extra + Unflushed(obs, countryId, indicatorId, series))
    ensures InsertAbsent(obs + extra, countryId, indicatorId, series) == obs + extra + Unflushed(obs, countryId, indicatorId, series)
    decreases |series|
  {
    if |series| > 0 {
      var y := series[0].year;
      var rest := Unflushed(obs, countryId, indicatorId, series[1..]);
      if StoredYear(obs, countryId, indicatorId, y) {
        var k :| 0 <= k < |obs| && Of(obs[k], countryId, indicatorId) && obs[k].year == y;
        assert (obs + extra)[k] == obs[k];
        assert Unflushed(obs, countryId, indicatorId, series) == rest;
        UnflushedMatchesInsertAbsent(obs, extra, countryId, indicatorId, series[1..]);
      } else {
        var row := NewRow(countryId, indicatorId, series[0]);
        assert Unflushed(obs, countryId, indicatorId, series) == [row] + rest;
        assert extra + [row] + rest == extra + ([row] + rest);
        assert !StoredYear(obs + extra, countryId, indicatorId, y) by {
          forall k | 0 <= k < |obs + extra| && Of((obs + extra)[k], countryId, indicatorId)
            ensures (obs + extra)[k].year != y
          {
            if k >= |obs| {
              assert (obs + extra)[k] == (extra + ([row] + rest))[k - |obs|];
              assert (extra + ([row] + rest))[|extra|] == row;
            } else {
              assert (obs + extra)[k] == obs[k];
            }
          }
        }
        UnflushedMatchesInsertAbsent(obs, extra + [row], countryId, indicatorId, series[1..]);
        assert obs + extra + [row] == obs + (extra + [row]);
        assert obs + (extra + [row]) + rest == obs + extra + ([row] + rest);
      }
    }
  }

  // ----- the run -----

  datatype RunStatus = Completed | Failed

  datatype IngestionRun = IngestionRun(
    id: int, source: string, countryCode: string, indicatorCode: string, status: RunStatus,
    inserted: int, total: int, expected: int, missing: int, error: Option<string>)

  datatype IngestSummary = IngestSummary(inserted: int, total: int, expected: int, missing: int, runId: int)

  function NextIngestionRunId(runs: seq<IngestionRun>): int {
    NextId(Lists.Map(runs, (run: IngestionRun) => run.id))
  }

  /** The country and indicator rows the loop works with, and the tables after the two
      get-or-create calls. */
  function Resolve(db: Db, countryCode: string, indicatorCode: string): (Country, Indicator, Db) {
    var (c, db1) := GetOrCreateCountry(db, countryCode);
    var (x, db2) := GetOrCreateIndicator(db1, indicatorCode);
    (c, x, db2)
  }

  /** The rows the loop leaves pending, under an autoflushing session or without one. */
  function LoopRows(autoflush: bool, obs: seq<Observation>, countryId: int, indicatorId: int, series: seq<Series.Point>): seq<Observation> {
    if autoflush then InsertAbsent(obs, countryId, indicatorId, series)[|obs|..] else Unflushed(obs, countryId, indicatorId, series)
  }

  const PendingRollbackError := "PendingRollbackError"

  /** `ingest_indicator`. The World Bank call receives the code as given; a failure marks the
      run "failed" with the error text and is raised again, storing nothing else. When the
      commit's flush hits the uniqueness constraint (possible only without autoflush, for a
      year the series repeats), the `except` branch's own commit raises on the failed
      session: the transaction is rolled back and nothing is stored, not even the run. */
  function IngestIndicator(autoflush: bool, db: Db, runs: seq<IngestionRun>, live: Series.LiveFetch, countryCode: string, indicatorCode: string)
    : (r: (Result<IngestSummary, string>, Db, seq<IngestionRun>))
    ensures r.2 == runs || (|r.2| == |runs| + 1 && r.2[..|runs|] == runs)
    ensures r.2 != runs ==>
      var run := r.2[|runs|];
      && run.id == NextIngestionRunId(runs) && run.id >= 1 && (forall i :: 0 <= i < |runs| ==> runs[i].id < run.id)
      && run.source == WorldBankSource && run.countryCode == Text.Upper(countryCode) && run.indicatorCode == indicatorCode
    ensures live(countryCode, indicatorCode).Err? ==>
      && r.0 == Err(live(countryCode, indicatorCode).error)
      && r.1 == db && r.2 != runs
      && r.2[|runs|].status == Failed && r.2[|runs|].error == Some(live(countryCode, indicatorCode).error)
    ensures live(countryCode, indicatorCode).Ok? ==>
      var series := live(countryCode, indicatorCode).value;
      var rows := LoopRows(autoflush, db.observations, Resolve(db, countryCode, indicatorCode).0.id, Resolve(db, countryCode, indicatorCode).1.id, series);
      && (r.0.Ok? <==> YearsDistinct(rows))
      && (autoflush ==> r.0.Ok?)
      && (r.0.Err? ==> r == (Err(PendingRollbackError), db, runs))
      && (r.0.Ok? ==>
        && r.2 != runs && r.2[|runs|].status == Completed && r.2[|runs|].error == None
        && r.0.value.runId == r.2[|runs|].id
        && r.1.observations == db.observations + rows
        && r.0.value.inserted == r.2[|runs|].inserted == |rows|
        && r.0.value.total == r.2[|runs|].total == |series|
        && r.0.value.expected == r.2[|runs|].expected == CalculateExpected(series)
        && r.0.value.missing == r.2[|runs|].missing >= 0
        && r.0.value.missing == MaxI(CalculateExpected(series) - |series|, 0))
  {
    var id := NextIngestionRunId(runs);
    match live(countryCode, indicatorCode)
    case Err(e) =>
      (Err(e), db, runs + [IngestionRun(id, WorldBankSource, Text.Upper(countryCode), indicatorCode, Failed, 0, 0, 0, 0, Some(e))])
    case Ok(series) =>
      var (c, x, db2) := Resolve(db, countryCode, indicatorCode);
      var rows := LoopRows(autoflush, db2.observations, c.id, x.id, series);
      if autoflush then
        InsertAbsentRowsAreNew(db2.observations, c.id, x.id, series);
        IngestCompleted(db2, runs, id, countryCode, indicatorCode, series, rows)
      else if YearsDistinct(rows) then IngestCompleted(db2, runs, id, countryCode, indicatorCode, series, rows)
      else (Err(PendingRollbackError), db, runs)
  }

  /** The committed outcome of a loop that added `rows`: a completed run whose counts are
      those of the loop and the series. */
  function IngestCompleted(db2: Db, runs: seq<IngestionRun>, id: int, countryCode: string, indicatorCode: string, series: seq<Series.Point>, rows: seq<Observation>)
    : (r: (Result<IngestSummary, string>, Db, seq<IngestionRun>))
    ensures r.0.Ok? && r.0.value.runId == id && r.1 == db2.(observations := db2.observations + rows)
    ensures |r.2| == |runs| + 1 && r.2[..|runs|] == runs && r.2[|runs|].id == id
    ensures r.2[|runs|].source == WorldBankSource && r.2[|runs|].countryCode == Text.Upper(countryCode) && r.2[|runs|].indicatorCode == indicatorCode
    ensures r.2[|runs|].status == Completed && r.2[|runs|].error == None
    ensures r.0.value.inserted == r.2[|runs|].inserted == |rows|
    ensures r.0.value.total == r.2[|runs|].total == |series|
    ensures r.0.value.expected == r.2[|runs|].expected == CalculateExpected(series)
    ensures r.0.value.missing == r.2[|runs|].missing == MaxI(CalculateExpected(series) - |series|, 0) >= 0
  {
    var expected := CalculateExpected(series);
    var missing := MaxI(expected - |series|, 0);
    (Ok(IngestSummary(|rows|, |series|, expected, missing, id)),
     db2.(observations := db2.observations + rows),
     runs + [IngestionRun(id, WorldBankSource, Text.Upper(countryCode), indicatorCode, Completed, |rows|, |series|, expected, missing, None)])
  }

  /** Without autoflush the outcome is the autoflushing one whenever the series brings no
      year twice that the table lacks. */
  lemma AutoflushIrrelevantForDistinctYears(db: Db, runs: seq<IngestionRun>, live: Series.LiveFetch, countryCode: string, indicatorCode: string)
    requires live(countryCode, indicatorCode).Ok?
    requires YearsDistinct(Unflushed(db.observations, Resolve(db, countryCode, indicatorCode).0.id, Resolve(db, countryCode, indicatorCode).1.id,
                                     live(countryCode, indicatorCode).value))
    ensures IngestIndicator(false, db, runs, live, countryCode, indicatorCode) == IngestIndicator(true, db, runs, live, countryCode, indicatorCode)
  {
    var series := live(countryCode, indicatorCode).value;
    var (c, x, db2) := Resolve(db, countryCode, indicatorCode);
    var u := Unflushed(db2.observations, c.id, x.id, series);
    UnflushedMatchesInsertAbsent(db2.observations, [], c.id, x.id, series);
    assert db2.observations + [] == db2.observations;
    assert InsertAbsent(db2.observations, c.id, x.id, series)[|db2.observations|..] == u;
  }

  /** Without autoflush, a series that repeats a year the table lacks fails at commit and
      stores nothing, not even the run; with autoflush it succeeds. */
  lemma RepeatedYearFailsWithoutAutoflush(db: Db, runs: seq<IngestionRun>, live: Series.LiveFetch, countryCode: string, indicatorCode: string, v1: Option<real>, v2: Option<real>)
    requires db.observations == []
    requires live(countryCode, indicatorCode) == Ok([Series.Point(2020, v1), Series.Point(2020, v2)])
    ensures IngestIndicator(false, db, runs, live, countryCode, indicatorCode) == (Err(PendingRollbackError), db, runs)
    ensures IngestIndicator(true, db, runs, live, countryCode, indicatorCode).0.Ok?
  {
    var (c, x, db2) := Resolve(db, countryCode, indicatorCode);
    UnflushedRepeatsYear(c.id, x.id, v1, v2);
  }

  /** Both entries of a twice-given year are left pending on an empty table. */
  lemma UnflushedRepeatsYear(countryId: int, indicatorId: int, v1: Option<real>, v2: Option<real>)
    ensures !YearsDistinct(Unflushed([], countryId, indicatorId, [Series.Point(2020, v1), Series.Point(2020, v2)]))
  {
    var series := [Series.Point(2020, v1), Series.Point(2020, v2)];
    assert !StoredYear([], countryId, indicatorId, 2020);
    assert series[1..][1..] == [];
    var rest := Unflushed([], countryId, indicatorId, series[1..]);
    assert rest == [NewRow(countryId, indicatorId, series[1])] + Unflushed([], countryId, indicatorId, series[1..][1..]);
    var u := Unflushed([], countryId, indicatorId, series);
    assert u == [NewRow(countryId, indicatorId, series[0])] + rest;
    assert u[0].year == 2020 && u[1].year == 2020;
  }

  /** Appending rows for the pair, each for a year the pair lacks and no two for the same
      year, keeps the uniqueness constraint. */
  lemma AppendNewKeepsUnique(db: Db, rows: seq<Observation>, countryId: int, indicatorId: int)
    requires ObservationKeysUnique(db)
    requires forall k :: 0 <= k < |rows| ==> Of(rows[k], countryId, indicatorId) && !StoredYear(db.observations, countryId, indicatorId, rows[k].year)
    requires YearsDistinct(rows)
    ensures ObservationKeysUnique(db.(observations := db.observations + rows))
  {
    var obs := db.observations + rows;
    var n := |db.observations|;
    forall i, j | 0 <= i < j < |obs|
      ensures !(obs[i].countryId == obs[j].countryId && obs[i].indicatorId == obs[j].indicatorId && obs[i].year == obs[j].year)
    {
      if j >= n && i < n {
        assert obs[i] == db.observations[i];
        assert obs[j] == rows[j - n];
      } else if j < n {
        assert obs[i] == db.observations[i] && obs[j] == db.observations[j];
      } else {
        assert obs[i] == rows[i - n] && obs[j] == rows[j - n];
      }
    }
  }

  /** The autoflushing loop's added rows meet the conditions of `AppendNewKeepsUnique`. */
  lemma InsertAbsentRowsAreNew(obs: seq<Observation>, countryId: int, indicatorId: int, series: seq<Series.Point>)
    ensures var rows := InsertAbsent(obs, countryId, indicatorId, series)[|obs|..];
      && (forall k :: 0 <= k < |rows| ==> Of(rows[k], countryId, indicatorId) && !StoredYear(obs, countryId, indicatorId, rows[k].year))
      && YearsDistinct(rows)
  {
    var r := InsertAbsent(obs, countryId, indicatorId, series);
    InsertAbsentOnlyNew(obs, countryId, indicatorId, series);
    var rows := r[|obs|..];
    assert forall k :: 0 <= k < |rows| ==> rows[k] == r[|obs| + k];
  }

  /** Ingestion keeps the (country, indicator, year) uniqueness constraint of the table, with
      autoflush or without. */
  lemma IngestKeepsKeysUnique(autoflush: bool, db: Db, runs: seq<IngestionRun>, live: Series.LiveFetch, countryCode: string, indicatorCode: string)
    requires ObservationKeysUnique(db)
    ensures ObservationKeysUnique(IngestIndicator(autoflush, db, runs, live, countryCode, indicatorCode).1)
  {
    var r := IngestIndicator(autoflush, db, runs, live, countryCode, indicatorCode);
    if r.0.Ok? && live(countryCode, indicatorCode).Ok? {
      var series := live(countryCode, indicatorCode).value;
      var (c, x, db2) := Resolve(db, countryCode, indicatorCode);
      var rows := LoopRows(autoflush, db.observations, c.id, x.id, series);
      if autoflush {
        InsertAbsentRowsAreNew(db.observations, c.id, x.id, series);
      }
      AppendNewKeepsUnique(db, rows, c.id, x.id);
      assert r.1.observations == db.observations + rows;
    }
  }

  /** Appending rows adds exactly their years to what the pair holds. */
  lemma StoredYearAppend(obs: seq<Observation>, rows: seq<Observation>, countryId: int, indicatorId: int, y: int)
    ensures StoredYear(obs + rows, countryId, indicatorId, y) <==>
      StoredYear(obs, countryId, indicatorId, y) || exists k :: 0 <= k < |rows| && Of(rows[k], countryId, indicatorId) && rows[k].year == y
  {
    if StoredYear(obs + rows, countryId, indicatorId, y) {
      var k :| 0 <= k < |obs + rows| && Of((obs + rows)[k], countryId, indicatorId) && (obs + rows)[k].year == y;
      if k >= |obs| { assert (obs + rows)[k] == rows[k - |obs|]; }
    }
    if StoredYear(obs, countryId, indicatorId, y) {
      var k :| 0 <= k < |obs| && Of(obs[k], countryId, indicatorId) && obs[k].year == y;
      assert (obs + rows)[k] == obs[k];
    }
    if exists k :: 0 <= k < |rows| && Of(rows[k], countryId, indicatorId) && rows[k].year == y {
      var k :| 0 <= k < |rows| && Of(rows[k], countryId, indicatorId) && rows[k].year == y;
      assert (obs + rows)[|obs| + k] == rows[k];
    }
  }

  /** Without autoflush every series year the pair lacks gets a pending row. */
  lemma {:induction false} UnflushedCoversMissing(obs: seq<Observation>, countryId: int, indicatorId: int, series: seq<Series.Point>, j: nat)
    requires j < |series| && !StoredYear(obs, countryId, indicatorId, series[j].year)
    ensures exists k :: 0 <= k < |Unflushed(obs, countryId, indicatorId, series)| && Unflushed(obs, countryId, indicatorId, series)[k].year == series[j].year
    decreases j
  {
    var u := Unflushed(obs, countryId, indicatorId, series);
    var rest := Unflushed(obs, countryId, indicatorId, series[1..]);
    var head := |u| - |rest|;
    assert u[head..] == rest;
    if j == 0 {
      assert u[0].year == series[0].year;
    } else {
      assert series[1..][j - 1] == series[j];
      UnflushedCoversMissing(obs, countryId, indicatorId, series[1..], j - 1);
      var k :| 0 <= k < |rest| && rest[k].year == series[j].year;
      assert u[head + k] == rest[k];
    }
  }

  /** A series whose years are all stored leaves nothing pending without autoflush. */
  lemma {:induction false} UnflushedNothingWhenAllStored(obs: seq<Observation>, countryId: int, indicatorId: int, series: seq<Series.Point>)
    requires forall j :: 0 <= j < |series| ==> StoredYear(obs, countryId, indicatorId, series[j].year)
    ensures Unflushed(obs, countryId, indicatorId, series) == []
    decreases |series|
  {
    if |series| > 0 {
      assert StoredYear(obs, countryId, indicatorId, series[0].year);
      assert forall j :: 1 <= j < |series| ==> series[j] == series[1..][j - 1];
      UnflushedNothingWhenAllStored(obs, countryId, indicatorId, series[1..]);
    }
  }

  /** After the loop, with autoflush or without, the pair holds every year of the series. */
  lemma LoopRowsCover(autoflush: bool, obs: seq<Observation>, countryId: int, indicatorId: int, series: seq<Series.Point>)
    ensures forall j :: 0 <= j < |series| ==>
      StoredYear(obs + LoopRows(autoflush, obs, countryId, indicatorId, series), countryId, indicatorId, series[j].year)
  {
    var rows := LoopRows(autoflush, obs, countryId, indicatorId, series);
    forall j | 0 <= j < |series|
      ensures StoredYear(obs + rows, countryId, indicatorId, series[j].year)
    {
      if autoflush {
        var r := InsertAbsent(obs, countryId, indicatorId, series);
        assert obs + rows == r[..|obs|] + r[|obs|..] == r;
        InsertAbsentCovers(obs, countryId, indicatorId, series, series[j].year);
      } else {
        StoredYearAppend(obs, rows, countryId, indicatorId, series[j].year);
        if !StoredYear(obs, countryId, indicatorId, series[j].year) {
          UnflushedCoversMissing(obs, countryId, indicatorId, series, j);
        }
      }
    }
  }

  /** With autoflush or without, a series whose years are all stored adds nothing. */
  lemma LoopRowsNothingWhenAllStored(autoflush: bool, obs: seq<Observation>, countryId: int, indicatorId: int, series: seq<Series.Point>)
    requires forall j :: 0 <= j < |series| ==> StoredYear(obs, countryId, indicatorId, series[j].year)
    ensures LoopRows(autoflush, obs, countryId, indicatorId, series) == []
  {
    InsertNothingWhenAllStored(obs, countryId, indicatorId, series);
    UnflushedNothingWhenAllStored(obs, countryId, indicatorId, series);
  }

  /** A successful ingestion leaves the pair with a row for every year of the series, and
      repeating it with the same series succeeds, inserts nothing and changes no table. */
  lemma IngestCoversAndRepeats(autoflush: bool, db: Db, runs: seq<IngestionRun>, live: Series.LiveFetch, countryCode: string, indicatorCode: string)
    requires IngestIndicator(autoflush, db, runs, live, countryCode, indicatorCode).0.Ok?
    ensures var db1, runs1 := IngestIndicator(autoflush, db, runs, live, countryCode, indicatorCode).1, IngestIndicator(autoflush, db, runs, live, countryCode, indicatorCode).2;
      var series := live(countryCode, indicatorCode).value;
      && live(countryCode, indicatorCode).Ok?
      && FindCountry(db1, Text.Upper(countryCode)).Some? && FindIndicator(db1, indicatorCode).Some?
      && (forall j :: 0 <= j < |series| ==>
            StoredYear(db1.observations, FindCountry(db1, Text.Upper(countryCode)).value.id,
                       FindIndicator(db1, indicatorCode).value.id, series[j].year))
      && IngestIndicator(autoflush, db1, runs1, live, countryCode, indicatorCode).0.Ok?
      && IngestIndicator(autoflush, db1, runs1, live, countryCode, indicatorCode).0.value.inserted == 0
      && IngestIndicator(autoflush, db1, runs1, live, countryCode, indicatorCode).1 == db1
  {
    var series := live(countryCode, indicatorCode).value;
    var (c, x, db2) := Resolve(db, countryCode, indicatorCode);
    var rows := LoopRows(autoflush, db2.observations, c.id, x.id, series);
    var obs := db2.observations + rows;
    var db3 := db2.(observations := obs);
    assert IngestIndicator(autoflush, db, runs, live, countryCode, indicatorCode).1 == db3;
    assert FindCountry(db3, Text.Upper(countryCode)) == Some(c);
    assert FindIndicator(db3, indicatorCode) == Some(x);
    LoopRowsCover(autoflush, db2.observations, c.id, x.id, series);
    assert Resolve(db3, countryCode, indicatorCode) == (c, x, db3);
    LoopRowsNothingWhenAllStored(autoflush, obs, c.id, x.id, series);
    assert obs + [] == obs;
  }
}

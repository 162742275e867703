/** Whole ETL runs and sequences of them (`run_etl_once` and its run-log helpers
    in src/etl/__init__.py). */
module EtlRuns {
  import opened Wrappers
  import opened Counting
  import opened EtlTransform
  import opened EtlValidation
  import opened EtlLoad

  /** Everything a run meets outside the service: its clock readings, what the
      upstream delivered (`None` if the extract raised), whether PostgreSQL took
      the connection, and whether the run log could be created and written. */
  datatype Run = Run(
    startedAt: int,
    finishedAt: int,
    localToday: int,
    utcToday: int,
    now: int,
    extracted: Option<(seq<RawRecord>, seq<RawRecord>)>,
    reachable: bool,
    logTable: bool,
    logWritable: bool)

  datatype State = State(events: EventTable, daily: DailyTable, log: seq<LogRow>)

  // ----- one run as a function of the state ---------------------------------------

  function EventBatch(run: Run): seq<EventRow> {
    if run.extracted.None? then []
    else Select(EventRows(NamesOf(run.extracted.value.0), SalesOf(run.extracted.value.1, run.localToday), run.now), EventRowOk)
  }

  function DailyBatch(run: Run): seq<DailyRow> {
    if run.extracted.None? then []
    else Select(DailyRows(SalesOf(run.extracted.value.1, run.localToday)), DailyRowOk(run.utcToday))
  }

  function Rejected(run: Run): nat {
    if run.extracted.None? then 0
    else
      var sales := SalesOf(run.extracted.value.1, run.localToday);
      Count(EventRows(NamesOf(run.extracted.value.0), sales, run.now), Not(EventRowOk))
      + Count(DailyRows(sales), Not(DailyRowOk(run.utcToday)))
  }

  ghost predicate Succeeds(run: Run) {
    run.extracted.Some? && run.reachable && Loadable(EventBatch(run)) && Loadable(DailyBatch(run))
  }

  ghost function LogRowOf(run: Run): LogRow {
    if Succeeds(run) then LogRow(run.startedAt, run.finishedAt, Success, Some(run.finishedAt), Rejected(run))
    else LogRow(run.startedAt, run.finishedAt, Failed, None, Rejected(run))
  }

  ghost predicate Logged(run: Run) { run.logTable && run.logWritable }

  /** The rows a run puts into the tables: all it kept, or none if it fails. */
  ghost function LoadedEvents(run: Run): seq<EventRow> {
    if Succeeds(run) then EventBatch(run) else []
  }

  ghost function LoadedDaily(run: Run): seq<DailyRow> {
    if Succeeds(run) then DailyBatch(run) else []
  }

  ghost function Step(st: State, run: Run): State {
    State(Upsert(st.events, LoadedEvents(run)),
          Upsert(st.daily, LoadedDaily(run)),
          if Logged(run) then st.log + [LogRowOf(run)] else st.log)
  }

  /** `finished_at` of the latest successful run on record. */
  function Cursor(log: seq<LogRow>): Option<int> {
    if log == [] then None
    else
      var before := Cursor(log[..|log| - 1]);
      var last := log[|log| - 1];
      if last.status == Failed then before
      else if before.Some? && before.value > last.finishedAt then before
      else Some(last.finishedAt)
  }

  ghost function StateOf(db: Database): State
    reads db
  {
    State(db.events, db.daily, db.runLog)
  }

  /** `run_etl_once`. It raises exactly when the run fails; `since` is the cursor
      it hands to the extract. */
  method RunEtlOnce(db: Database, run: Run) returns (raised: bool, since: Option<int>)
    modifies db
    ensures StateOf(db) == Step(old(StateOf(db)), run)
    ensures raised <==> !Succeeds(run)
    ensures since == if run.logTable then Cursor(old(db.runLog)) else None
    ensures raised ==> db.events == old(db.events) && db.daily == old(db.daily)
    ensures !raised ==> db.events == Upsert(old(db.events), EventBatch(run)) && db.daily == Upsert(old(db.daily), DailyBatch(run))
    ensures run.logTable && run.logWritable ==>
              db.runLog == old(db.runLog) + [LogRow(run.startedAt, run.finishedAt, if raised then Failed else Success,
                                                    if raised then None else Some(run.finishedAt), Rejected(run))]
    ensures !(run.logTable && run.logWritable) ==> db.runLog == old(db.runLog)
  {
    since := if run.logTable then Cursor(db.runLog) else None;
    var status, rejected := Failed, 0;
    if run.extracted.Some? {
      status, rejected := TransformAndLoad(db, run, run.extracted.value.0, run.extracted.value.1);
    }
    if run.logTable && run.logWritable {
      db.runLog := db.runLog + [LogRow(run.startedAt, run.finishedAt, status,
                                       if status == Success then Some(run.finishedAt) else None, rejected)];
    }
    raised := status == Failed;
  }

  /** The middle of the run: transform, validate, load. */
  method TransformAndLoad(db: Database, run: Run, events: seq<RawRecord>, sales: seq<RawRecord>)
    returns (status: Status, rejected: nat)
    requires run.extracted == Some((events, sales))
    modifies db`events, db`daily
    ensures status == (if Succeeds(run) then Success else Failed) && rejected == Rejected(run)
    ensures db.events == Upsert(old(db.events), LoadedEvents(run))
    ensures db.daily == Upsert(old(db.daily), LoadedDaily(run))
  {
    var eventRows, dailyRows := TransformSummary(events, sales, run.localToday, run.now);
    var keptEvents, keptDaily;
    keptEvents, keptDaily, rejected := ValidateRows(eventRows, dailyRows, run.utcToday);
    assert keptEvents == EventBatch(run) && keptDaily == DailyBatch(run);
    var loaded := db.LoadPostgres(keptEvents, keptDaily, run.reachable);
    status := if loaded then Success else Failed;
  }

  /** A run never fails over repeated keys: what reaches the load names every
      key once, so only a value too large for its column can be refused. */
  lemma RunsFailOnlyForOutsideReasons(run: Run)
    ensures DistinctKeys(EventBatch(run)) && DistinctKeys(DailyBatch(run))
    ensures Succeeds(run) <==>
              run.extracted.Some? && run.reachable
              && (forall i :: 0 <= i < |EventBatch(run)| ==> Fits(EventBatch(run)[i]))
              && (forall i :: 0 <= i < |DailyBatch(run)| ==> Fits(DailyBatch(run)[i]))
  {
    if run.extracted.Some? {
      var sales := SalesOf(run.extracted.value.1, run.localToday);
      var names := NamesOf(run.extracted.value.0);
      SummaryKeysDistinct(names, sales, run.now);
      ValidationKeepsKeysDistinct(EventRows(names, sales, run.now), EventRowOk);
      ValidationKeepsKeysDistinct(DailyRows(sales), DailyRowOk(run.utcToday));
    }
  }

  // ----- sequences of runs -----------------------------------------------------------

  ghost function RunAll(st: State, runs: seq<Run>): State {
    if runs == [] then st else Step(RunAll(st, runs[..|runs| - 1]), runs[|runs| - 1])
  }

  ghost predicate Advances(run: Run) { Succeeds(run) && Logged(run) }

  /** When the successful runs on record finished. */
  ghost function SuccessTimes(runs: seq<Run>): seq<int> {
    if runs == [] then []
    else
      var last := runs[|runs| - 1];
      SuccessTimes(runs[..|runs| - 1]) + if Advances(last) then [last.finishedAt] else []
  }

  function Later(c: Option<int>, time: int): Option<int> {
    if c.Some? && c.value > time then c else Some(time)
  }

  function Latest(c: Option<int>, times: seq<int>): Option<int> {
    if times == [] then c else Later(Latest(c, times[..|times| - 1]), times[|times| - 1])
  }

  /** The rejected count covers exactly the rows that do not reach the load, and none
      when there was nothing to validate. */
  lemma RejectedIs(run: Run)
    ensures run.extracted.None? ==> Rejected(run) == 0
    ensures run.extracted.Some? ==>
              var sales := SalesOf(run.extracted.value.1, run.localToday);
              |EventBatch(run)| + |DailyBatch(run)| + Rejected(run)
              == |EventRows(NamesOf(run.extracted.value.0), sales, run.now)| + |DailyRows(sales)|
  {
    if run.extracted.Some? {
      var sales := SalesOf(run.extracted.value.1, run.localToday);
      ValidationPartitions(EventRows(NamesOf(run.extracted.value.0), sales, run.now), EventRowOk);
      ValidationPartitions(DailyRows(sales), DailyRowOk(run.utcToday));
    }
  }

  lemma CursorAfterStep(st: State, run: Run)
    ensures Cursor(Step(st, run).log) == if Advances(run) then Later(Cursor(st.log), run.finishedAt) else Cursor(st.log)
  {
    if Logged(run) {
      assert (st.log + [LogRowOf(run)])[..|st.log|] == st.log;
    }
  }

  lemma LatestNext(c: Option<int>, times: seq<int>, time: int)
    ensures Latest(c, times + [time]) == Later(Latest(c, times), time)
  {
    assert (times + [time])[..|times|] == times;
  }

  lemma {:induction false} CursorTracksSuccesses(st: State, runs: seq<Run>)
    ensures Cursor(RunAll(st, runs).log) == Latest(Cursor(st.log), SuccessTimes(runs))
  {
    if runs != [] {
      var n := |runs| - 1;
      var before, run := RunAll(st, runs[..n]), runs[n];
      CursorTracksSuccesses(st, runs[..n]);
      CursorAfterStep(before, run);
      LatestNext(Cursor(st.log), SuccessTimes(runs[..n]), run.finishedAt);
      assert RunAll(st, runs) == Step(before, run);
      if Advances(run) {
        assert SuccessTimes(runs) == SuccessTimes(runs[..n]) + [run.finishedAt];
      } else {
        assert SuccessTimes(runs) == SuccessTimes(runs[..n]);
      }
    }
  }

  lemma {:induction false} LatestIsMaximum(c: Option<int>, times: seq<int>)
    ensures c.Some? ==> Latest(c, times).Some? && Latest(c, times).value >= c.value
    ensures forall t :: t in times ==> Latest(c, times).Some? && Latest(c, times).value >= t
    ensures Latest(c, times) == c || Latest(c, times).value in times
  {
    if times != [] {
      var n := |times| - 1;
      LatestIsMaximum(c, times[..n]);
      assert times == times[..n] + [times[n]];
    }
  }

  /** The cursor never goes back, it reaches every successful run on record, and
      it only ever moves to the finishing time of one: failed and unlogged runs
      leave it alone. */
  lemma {:induction false} CursorIsLatestSuccess(st: State, runs: seq<Run>)
    ensures Cursor(st.log).Some? ==>
              Cursor(RunAll(st, runs).log).Some? && Cursor(RunAll(st, runs).log).value >= Cursor(st.log).value
    ensures forall t :: t in SuccessTimes(runs) ==>
              Cursor(RunAll(st, runs).log).Some? && Cursor(RunAll(st, runs).log).value >= t
    ensures Cursor(RunAll(st, runs).log) == Cursor(st.log)
         || Cursor(RunAll(st, runs).log).value in SuccessTimes(runs)
  {
    CursorTracksSuccesses(st, runs);
    LatestIsMaximum(Cursor(st.log), SuccessTimes(runs));
  }

  // ----- what the tables hold after many runs ---------------------------------------------

  function UpsertAll<K, P>(t: Table<K, P>, batches: seq<seq<Row<K, P>>>): Table<K, P> {
    if batches == [] then t else Upsert(UpsertAll(t, batches[..|batches| - 1]), batches[|batches| - 1])
  }

  /** The row with a given key in the last batch that has one. */
  function LastRow<K(==), P>(batches: seq<seq<Row<K, P>>>, k: K): Option<Row<K, P>> {
    if batches == [] then None
    else
      var row := FindRow(batches[|batches| - 1], k);
      if row.Some? then row else LastRow(batches[..|batches| - 1], k)
  }

  function FindRow<K(==), P>(rows: seq<Row<K, P>>, k: K): Option<Row<K, P>> {
    if rows == [] then None
    else if rows[|rows| - 1].key == k then Some(rows[|rows| - 1])
    else FindRow(rows[..|rows| - 1], k)
  }

  /** At `k` the table now holds `row`, or what it held before if there is none. */
  ghost predicate Holds<K, P>(before: Table<K, P>, after: Table<K, P>, k: K, row: Option<Row<K, P>>) {
    if row.Some? then k in after && after[k] == Store(row.value)
    else (k in after <==> k in before) && (k in before ==> after[k] == before[k])
  }

  lemma {:induction false} UpsertFinds<K, P>(t: Table<K, P>, rows: seq<Row<K, P>>, k: K)
    ensures Holds(t, Upsert(t, rows), k, FindRow(rows, k))
  {
    if rows != [] { UpsertFinds(t, rows[..|rows| - 1], k); }
  }

  lemma {:induction false} LastBatchWins<K, P>(t: Table<K, P>, batches: seq<seq<Row<K, P>>>, k: K)
    ensures Holds(t, UpsertAll(t, batches), k, LastRow(batches, k))
  {
    if batches != [] {
      var n := |batches| - 1;
      LastBatchWins(t, batches[..n], k);
      UpsertFinds(UpsertAll(t, batches[..n]), batches[n], k);
    }
  }

  ghost function EventBatches(runs: seq<Run>): seq<seq<EventRow>> {
    seq(|runs|, i requires 0 <= i < |runs| => LoadedEvents(runs[i]))
  }

  ghost function DailyBatches(runs: seq<Run>): seq<seq<DailyRow>> {
    seq(|runs|, i requires 0 <= i < |runs| => LoadedDaily(runs[i]))
  }

  lemma {:induction false} RunsUpsertTheirEvents(st: State, runs: seq<Run>)
    ensures RunAll(st, runs).events == UpsertAll(st.events, EventBatches(runs))
  {
    if runs != [] {
      var n := |runs| - 1;
      RunsUpsertTheirEvents(st, runs[..n]);
      assert RunAll(st, runs) == Step(RunAll(st, runs[..n]), runs[n]);
      assert EventBatches(runs)[..n] == EventBatches(runs[..n]);
    }
  }

  lemma {:induction false} RunsUpsertTheirDaily(st: State, runs: seq<Run>)
    ensures RunAll(st, runs).daily == UpsertAll(st.daily, DailyBatches(runs))
  {
    if runs != [] {
      var n := |runs| - 1;
      RunsUpsertTheirDaily(st, runs[..n]);
      assert RunAll(st, runs) == Step(RunAll(st, runs[..n]), runs[n]);
      assert DailyBatches(runs)[..n] == DailyBatches(runs[..n]);
    }
  }

  /** After any sequence of runs each key of either table holds the value of the
      last successful run whose kept rows name it, and keys no such run named
      keep what they had. */
  lemma TablesHoldLastLoadedValues(st: State, runs: seq<Run>, id: string, day: DayKey)
    ensures Holds(st.events, RunAll(st, runs).events, id, LastRow(EventBatches(runs), id))
    ensures Holds(st.daily, RunAll(st, runs).daily, day, LastRow(DailyBatches(runs), day))
  {
    RunsUpsertTheirEvents(st, runs);
    RunsUpsertTheirDaily(st, runs);
    LastBatchWins(st.events, EventBatches(runs), id);
    LastBatchWins(st.daily, DailyBatches(runs), day);
  }

  /** Repeating a successful run leaves nothing for a dry run to report. */
  lemma RepeatedRunHasEmptyDiff(st: State, run: Run)
    requires Succeeds(run)
    ensures Diff(Step(st, run).events, EventBatch(run)) == DiffCounts(0, 0, |EventBatch(run)|)
    ensures Diff(Step(st, run).daily, DailyBatch(run)) == DiffCounts(0, 0, |DailyBatch(run)|)
  {
    DiffAfterLoadIsUnchanged(st.events, EventBatch(run));
    DiffAfterLoadIsUnchanged(st.daily, DailyBatch(run));
  }

  // ----- what a dry run does not report ----------------------------------------------------

  /** Every event row was written by a run before the time `now`. */
  ghost predicate WrittenBefore(t: EventTable, now: int) {
    forall id :: id in t ==> t[id].extra.lastUpdated < now
  }

  /** The event rows of a run carry its own clock reading. */
  lemma BatchIsStamped(run: Run, row: EventRow)
    requires row in EventBatch(run)
    ensures row.extra.lastUpdated == run.now
  {
    var rows := EventRows(NamesOf(run.extracted.value.0), SalesOf(run.extracted.value.1, run.localToday), run.now);
    SelectIs(rows, EventRowOk);
    assert row in rows;
  }

  lemma {:induction false} RunsWriteBefore(st: State, runs: seq<Run>, now: int)
    requires WrittenBefore(st.events, now) && forall r :: r in runs ==> r.now < now
    ensures WrittenBefore(RunAll(st, runs).events, now)
  {
    if runs != [] {
      var n := |runs| - 1;
      RunsWriteBefore(st, runs[..n], now);
      var before, rows := RunAll(st, runs[..n]).events, LoadedEvents(runs[n]);
      RunsFailOnlyForOutsideReasons(runs[n]);
      UpsertIs(before, rows);
      forall id | id in Upsert(before, rows) ensures Upsert(before, rows)[id].extra.lastUpdated < now {
        if i :| 0 <= i < |rows| && rows[i].key == id {
          BatchIsStamped(runs[n], rows[i]);
          assert Upsert(before, rows)[rows[i].key] == Store(rows[i]);
        }
      }
    }
  }

  /** A later run rewrites every event row it names, also those a dry run of its
      batch calls unchanged: the time of the last update moves to its own. */
  lemma LaterRunRewritesEventRows(st: State, runs: seq<Run>, run: Run, row: EventRow)
    requires WrittenBefore(st.events, run.now) && forall r :: r in runs ==> r.now < run.now
    requires Succeeds(run) && row in EventBatch(run)
    ensures var before, after := RunAll(st, runs).events, Step(RunAll(st, runs), run).events;
            && row.key in after && after[row.key].extra.lastUpdated == run.now
            && (row.key in before ==> after[row.key] != before[row.key])
  {
    RunsWriteBefore(st, runs, run.now);
    LoadRewrites(RunAll(st, runs).events, run, row);
  }

  lemma LoadRewrites(before: EventTable, run: Run, row: EventRow)
    requires WrittenBefore(before, run.now) && row in EventBatch(run)
    ensures var after := Upsert(before, EventBatch(run));
            && row.key in after && after[row.key].extra.lastUpdated == run.now
            && (row.key in before ==> after[row.key] != before[row.key])
  {
    var rows := EventBatch(run);
    BatchIsStamped(run, row);
    RunsFailOnlyForOutsideReasons(run);
    UpsertIs(before, rows);
    var i :| 0 <= i < |rows| && rows[i] == row;
    assert Upsert(before, rows)[rows[i].key] == Store(row);
  }
}

/** Loading the summaries into PostgreSQL and the dry run that predicts it
    (`load_postgres` and `diff_etl_output` in src/etl/__init__.py). */
module EtlLoad {
  import opened Wrappers
  import opened Money
  import opened Counting
  import opened EtlTransform

  /** A stored row; revenue is what `NUMERIC(18, 2)` kept. */
  datatype Stored<P> = Stored(tickets: int, revenue: real, extra: P)

  type Table<K, P> = map<K, Stored<P>>
  type EventTable = Table<string, EventInfo>
  type DailyTable = Table<DayKey, NoInfo>

  function Store<K, P>(row: Row<K, P>): Stored<P> {
    Stored(row.tickets, Numeric2(row.revenue), row.extra)
  }

  /** `INSERT ... ON CONFLICT DO UPDATE` of all rows: map override. */
  function Upsert<K, P>(t: Table<K, P>, rows: seq<Row<K, P>>): Table<K, P> {
    if rows == [] then t
    else Upsert(t, rows[..|rows| - 1])[rows[|rows| - 1].key := Store(rows[|rows| - 1])]
  }

  const NUMERIC_LIMIT := 10_000_000_000_000_000.0
  const INT_LIMIT := 0x8000_0000

  /** The column types can hold the row. */
  predicate Fits<K, P>(row: Row<K, P>) {
    -INT_LIMIT <= row.tickets < INT_LIMIT && -NUMERIC_LIMIT < Numeric2(row.revenue) < NUMERIC_LIMIT
  }

  /** PostgreSQL takes the statement: every value fits, and no key comes twice
      (an upsert may not touch a row a second time). */
  ghost predicate Loadable<K, P>(rows: seq<Row<K, P>>) {
    DistinctKeys(rows) && forall i :: 0 <= i < |rows| ==> Fits(rows[i])
  }

  /** A 32-bit integer and a number with 16 digits before the point. */
  predicate FitsColumns(tickets: int, revenue: real) {
    -2147483648 <= tickets <= 2147483647 && Abs(Numeric2(revenue)) < 10000000000000000.0
  }

  datatype DiffCounts = DiffCounts(wouldInsert: nat, wouldUpdate: nat, same: nat)

  datatype Status = Success | Failed

  /** A row of `etl_run_log`. */
  datatype LogRow = LogRow(startedAt: int, finishedAt: int, status: Status, lastRunAt: Option<int>, rejected: nat)

  class Database {
    var events: EventTable
    var daily: DailyTable
    var runLog: seq<LogRow>

    constructor ()
      ensures events == map[] && daily == map[] && runLog == []
    {
      events, daily, runLog := map[], map[], [];
    }

    /** One transaction: both tables are upserted or neither changes. */
    method LoadPostgres(eventRows: seq<EventRow>, dailyRows: seq<DailyRow>, reachable: bool) returns (ok: bool)
      modifies this`events, this`daily
      ensures ok <==> reachable && Loadable(eventRows) && Loadable(dailyRows)
      ensures ok <==>
        && reachable
        && (forall i, j :: 0 <= i < j < |eventRows| ==> eventRows[i].key != eventRows[j].key)
        && (forall i, j :: 0 <= i < j < |dailyRows| ==> dailyRows[i].key != dailyRows[j].key)
        && (forall i :: 0 <= i < |eventRows| ==> FitsColumns(eventRows[i].tickets, eventRows[i].revenue))
        && (forall i :: 0 <= i < |dailyRows| ==> FitsColumns(dailyRows[i].tickets, dailyRows[i].revenue))
      ensures events == if ok then Upsert(old(events), eventRows) else old(events)
      ensures daily == if ok then Upsert(old(daily), dailyRows) else old(daily)
    {
      if !reachable { return false; }
      var newEvents, okEvents := UpsertStatement(events, eventRows);
      var newDaily, okDaily := UpsertStatement(daily, dailyRows);
      ok := okEvents && okDaily;
      if ok { events, daily := newEvents, newDaily; }
    }

    /** The dry run: what would the load insert, update or leave alone? */
    method DiffEtlOutput(eventRows: seq<EventRow>, dailyRows: seq<DailyRow>)
      returns (forEvents: DiffCounts, forDaily: DiffCounts)
      ensures forEvents == Diff(events, eventRows) && forDaily == Diff(daily, dailyRows)
    {
      forEvents := CompareRows(events, eventRows);
      forDaily := CompareRows(daily, dailyRows);
    }
  }

  method UpsertStatement<K(==,!new), P>(t: Table<K, P>, rows: seq<Row<K, P>>)
    returns (t': Table<K, P>, ok: bool)
    ensures ok <==> Loadable(rows)
    ensures ok ==> t' == Upsert(t, rows)
  {
    t' := t;
    var touched: set<K> := {};
    for i := 0 to |rows|
      invariant t' == Upsert(t, rows[..i])
      invariant touched == set j | 0 <= j < i :: rows[j].key
      invariant Loadable(rows[..i])
    {
      var row := rows[i];
      if row.key in touched || !Fits(row) {
        if row.key in touched {
          var j :| 0 <= j < i && rows[j].key == row.key;
        }
        return t, false;
      }
      assert rows[..i + 1][..i] == rows[..i];
      t' := t'[row.key := Store(row)];
      touched := touched + {row.key};
    }
    assert rows[..|rows|] == rows;
    ok := true;
  }

  // ----- the dry run -------------------------------------------------------------

  predicate SameFigures<K, P>(cur: Stored<P>, row: Row<K, P>) {
    cur.tickets == row.tickets && Abs(cur.revenue - row.revenue) <= 0.005
  }

  function IsNew<K, P>(t: Table<K, P>): Row<K, P> -> bool {
    (row: Row<K, P>) => row.key !in t
  }

  function IsChanged<K, P>(t: Table<K, P>): Row<K, P> -> bool {
    (row: Row<K, P>) => row.key in t && !SameFigures(t[row.key], row)
  }

  function IsUnchanged<K, P>(t: Table<K, P>): Row<K, P> -> bool {
    (row: Row<K, P>) => row.key in t && SameFigures(t[row.key], row)
  }

  function Diff<K, P>(t: Table<K, P>, rows: seq<Row<K, P>>): DiffCounts {
    DiffCounts(Count(rows, IsNew(t)), Count(rows, IsChanged(t)), Count(rows, IsUnchanged(t)))
  }

  method CompareRows<K(==), P>(t: Table<K, P>, rows: seq<Row<K, P>>) returns (d: DiffCounts)
    ensures d == Diff(t, rows)
  {
    var inserts, updates, same := 0, 0, 0;
    for i := 0 to |rows|
      invariant DiffCounts(inserts, updates, same) == Diff(t, rows[..i])
    {
      var row := rows[i];
      assert rows[..i + 1] == rows[..i] + [row];
      CountSnoc(rows[..i], row, IsNew(t));
      CountSnoc(rows[..i], row, IsChanged(t));
      CountSnoc(rows[..i], row, IsUnchanged(t));
      if row.key !in t {
        inserts := inserts + 1;
      } else {
        var cur := t[row.key];
        if cur.tickets != row.tickets || Abs(cur.revenue - row.revenue) > 0.005 {
          updates := updates + 1;
        } else {
          same := same + 1;
        }
      }
    }
    assert rows[..|rows|] == rows;
    d := DiffCounts(inserts, updates, same);
  }

  // ----- the load ------------------------------------------------------------------

  /** Every key of the batch holds its stored row afterwards, all others keep
      what they had. */
  lemma {:induction false} UpsertIs<K, P>(t: Table<K, P>, rows: seq<Row<K, P>>)
    requires DistinctKeys(rows)
    ensures forall i :: 0 <= i < |rows| ==>
              rows[i].key in Upsert(t, rows) && Upsert(t, rows)[rows[i].key] == Store(rows[i])
    ensures forall i :: 0 <= i < |rows| ==>
              Upsert(t, rows)[rows[i].key] == Stored(rows[i].tickets, Numeric2(rows[i].revenue), rows[i].extra)
    ensures forall k :: (forall i :: 0 <= i < |rows| ==> rows[i].key != k) ==>
              (k in Upsert(t, rows) <==> k in t) && (k in t ==> Upsert(t, rows)[k] == t[k])
  {
    if rows != [] {
      var n := |rows| - 1;
      UpsertIs(t, rows[..n]);
      forall k | forall i :: 0 <= i < |rows| ==> rows[i].key != k
        ensures (k in Upsert(t, rows) <==> k in t) && (k in t ==> Upsert(t, rows)[k] == t[k])
      {
        assert rows[n].key != k;
        assert forall i :: 0 <= i < n ==> rows[..n][i].key != k;
      }
    }
  }

  /** The dry run agrees with the load: what it would insert is exactly what the
      table grows by, and its three counts cover all rows. */
  lemma {:induction false} DiffPredictsLoad<K, P>(t: Table<K, P>, rows: seq<Row<K, P>>)
    requires DistinctKeys(rows)
    ensures Diff(t, rows).wouldInsert == |Upsert(t, rows)| - |t|
    ensures Diff(t, rows).wouldInsert + Diff(t, rows).wouldUpdate + Diff(t, rows).same == |rows|
  {
    if rows != [] {
      var n := |rows| - 1;
      DiffPredictsLoad(t, rows[..n]);
      UpsertIs(t, rows[..n]);
      var before := Upsert(t, rows[..n]);
      assert forall i :: 0 <= i < n ==> rows[..n][i].key != rows[n].key;
      assert rows[n].key in before <==> rows[n].key in t;
      assert Upsert(t, rows).Keys == before.Keys + {rows[n].key};
    }
  }

  /** Diffing the same rows right after loading them reports no work: rounding to
      cents moves revenue by at most half a cent, and only more than that counts. */
  lemma {:induction false} DiffAfterLoadIsUnchanged<K, P>(t: Table<K, P>, rows: seq<Row<K, P>>)
    requires DistinctKeys(rows)
    ensures Diff(Upsert(t, rows), rows) == DiffCounts(0, 0, |rows|)
  {
    var loaded := Upsert(t, rows);
    UpsertIs(t, rows);
    forall row | row in rows ensures IsUnchanged(loaded)(row) {
      Numeric2Error(row.revenue);
    }
    CountBound(rows, IsUnchanged(loaded));
    CountBound(rows, IsNew(loaded));
    CountBound(rows, IsChanged(loaded));
  }

  /** Rows reach the table only through `Store`, so stored revenue is in cents. */
  ghost predicate InCents<K, P>(t: Table<K, P>) {
    forall k :: k in t ==> WholeCents(t[k].revenue)
  }

  lemma {:induction false} UpsertKeepsCents<K, P>(t: Table<K, P>, rows: seq<Row<K, P>>)
    requires InCents(t)
    ensures InCents(Upsert(t, rows))
  {
    if rows != [] {
      UpsertKeepsCents(t, rows[..|rows| - 1]);
      Numeric2Error(rows[|rows| - 1].revenue);
    }
  }

  /** A row called unchanged is one whose load changes no figure, with a single
      exception: an amount exactly half a cent from the stored one may move it
      to the neighbouring cent. */
  lemma UnchangedMeansNoNewFigures<K, P>(t: Table<K, P>, row: Row<K, P>)
    requires InCents(t) && row.key in t
    ensures IsUnchanged(t)(row) <==>
              t[row.key].tickets == Store(row).tickets
              && (t[row.key].revenue == Store(row).revenue || Abs(t[row.key].revenue - row.revenue) == 0.005)
  {
    Numeric2Error(row.revenue);
  }

  /** The columns the dry run does not compare agree, and so does the revenue in cents. */
  ghost predicate SameRest<K, P>(cur: Stored<P>, row: Row<K, P>) {
    row.extra == cur.extra && Numeric2(row.revenue) == cur.revenue
  }

  /** The dry run looks at figures only. Loading a row it calls unchanged leaves
      the stored row as it is if and only if the other columns and the revenue in
      cents agree as well. */
  lemma UnchangedRowStaysIff<K, P>(t: Table<K, P>, row: Row<K, P>)
    requires IsUnchanged(t)(row)
    ensures Store(row) == t[row.key] <==> SameRest(t[row.key], row)
  {
  }

  lemma LoadOfStoredRows<K, P>(t: Table<K, P>, rows: seq<Row<K, P>>)
    requires DistinctKeys(rows) && forall i :: 0 <= i < |rows| ==> rows[i].key in t && t[rows[i].key] == Store(rows[i])
    ensures Upsert(t, rows) == t
  {
    UpsertIs(t, rows);
    forall k ensures (k in Upsert(t, rows) <==> k in t) && (k in t ==> Upsert(t, rows)[k] == t[k]) {
      if i :| 0 <= i < |rows| && rows[i].key == k {
        assert Upsert(t, rows)[rows[i].key] == Store(rows[i]);
      }
    }
  }

  /** The same for a batch the dry run finds nothing to do for: the load leaves
      the table alone if and only if every row agrees in what is not compared. */
  lemma QuietBatchStaysIff<K, P>(t: Table<K, P>, rows: seq<Row<K, P>>)
    requires DistinctKeys(rows) && Diff(t, rows) == DiffCounts(0, 0, |rows|)
    ensures forall i :: 0 <= i < |rows| ==> rows[i].key in t
    ensures Upsert(t, rows) == t <==> forall i :: 0 <= i < |rows| ==> SameRest(t[rows[i].key], rows[i])
  {
    forall i | 0 <= i < |rows|
      ensures rows[i].key in t && (Store(rows[i]) == t[rows[i].key] <==> SameRest(t[rows[i].key], rows[i]))
    {
      AllCounted(rows, IsUnchanged(t), rows[i]);
      UnchangedRowStaysIff(t, rows[i]);
    }
    UpsertIs(t, rows);
    if forall i :: 0 <= i < |rows| ==> SameRest(t[rows[i].key], rows[i]) {
      LoadOfStoredRows(t, rows);
    }
  }

  /** A new name for an event is an instance: no work to report, another row stored. */
  lemma RenameIsMissed(id: string, tickets: int, revenue: real, before: EventInfo, after: EventInfo)
    requires before.name != after.name
    ensures var t: EventTable := map[id := Stored(tickets, revenue, before)];
            var rows: seq<EventRow> := [Row(id, tickets, revenue, after)];
            Diff(t, rows) == DiffCounts(0, 0, 1) && Upsert(t, rows)[id].extra.name != t[id].extra.name
  {
    var t: EventTable := map[id := Stored(tickets, revenue, before)];
    var row: EventRow := Row(id, tickets, revenue, after);
    CountSnoc([], row, IsNew(t));
    CountSnoc([], row, IsChanged(t));
    CountSnoc([], row, IsUnchanged(t));
    assert [] + [row] == [row] && [row][..0] == [];
  }

  /** The half-cent exception is real: with 0.00 stored and 0.005 arriving the dry run says
      unchanged and the load stores 0.01. */
  lemma HalfCentIsMissed()
    ensures var t: EventTable := map["e" := Stored(1, 0.0, EventInfo("", 0))];
            var row: EventRow := Row("e", 1, 0.005, EventInfo("", 1));
      Diff(t, [row]) == DiffCounts(0, 0, 1) && Upsert(t, [row])["e"].revenue == 0.01
  {
    var t: EventTable := map["e" := Stored(1, 0.0, EventInfo("", 0))];
    var row: EventRow := Row("e", 1, 0.005, EventInfo("", 1));
    assert [row][..0] == [];
    assert RoundHalfAway(0.5) == 1;
    assert row.revenue * 100.0 == 0.5;
    assert Numeric2(row.revenue) == 0.01;
  }
}

/** Row validation before the load (`validate_rows` in src/etl/__init__.py). */
module EtlValidation {
  import opened Counting
  import opened EtlTransform

  predicate EventRowOk(row: EventRow) {
    row.key != "" && row.tickets >= 0 && row.revenue >= 0.0
  }

  /** A daily row may lie at most one day in the future. */
  function DailyRowOk(today: int): DailyRow -> bool {
    (row: DailyRow) => row.key.0 != "" && row.key.1 <= today + 1
  }

  method ValidateRows(eventRows: seq<EventRow>, dailyRows: seq<DailyRow>, today: int)
    returns (validEvents: seq<EventRow>, validDaily: seq<DailyRow>, rejected: nat)
    ensures validEvents == Select(eventRows, EventRowOk)
    ensures validDaily == Select(dailyRows, DailyRowOk(today))
    ensures rejected == Count(eventRows, Not(EventRowOk))
                      + Count(dailyRows, Not(DailyRowOk(today)))
    ensures forall row :: row in validEvents <==>
              row in eventRows && row.key != "" && row.tickets >= 0 && row.revenue >= 0.0
    ensures forall row :: row in validDaily <==> row in dailyRows && row.key.0 != "" && row.key.1 <= today + 1
    ensures |validEvents| + |validDaily| + rejected == |eventRows| + |dailyRows|
  {
    ghost var badEvent, badDaily := Not(EventRowOk), Not(DailyRowOk(today));
    rejected, validEvents, validDaily := 0, [], [];
    for i := 0 to |eventRows|
      invariant validEvents == Select(eventRows[..i], EventRowOk)
      invariant rejected == Count(eventRows[..i], badEvent)
    {
      var row := eventRows[i];
      assert eventRows[..i + 1] == eventRows[..i] + [row];
      SelectSnoc(eventRows[..i], row, EventRowOk);
      CountSnoc(eventRows[..i], row, badEvent);
      if row.key == "" {
        rejected := rejected + 1;
        continue;
      }
      if row.tickets < 0 {
        rejected := rejected + 1;
        continue;
      }
      if row.revenue < 0.0 {
        rejected := rejected + 1;
        continue;
      }
      validEvents := validEvents + [row];
    }
    assert eventRows[..|eventRows|] == eventRows;
    for i := 0 to |dailyRows|
      invariant validDaily == Select(dailyRows[..i], DailyRowOk(today))
      invariant rejected == Count(eventRows, badEvent) + Count(dailyRows[..i], badDaily)
    {
      var row := dailyRows[i];
      assert dailyRows[..i + 1] == dailyRows[..i] + [row];
      SelectSnoc(dailyRows[..i], row, DailyRowOk(today));
      CountSnoc(dailyRows[..i], row, badDaily);
      if row.key.0 == "" {
        rejected := rejected + 1;
        continue;
      }
      if row.key.1 > today + 1 {
        rejected := rejected + 1;
        continue;
      }
      validDaily := validDaily + [row];
    }
    assert dailyRows[..|dailyRows|] == dailyRows;
    KeptEventRows(eventRows);
    KeptDailyRows(dailyRows, today);
  }

  /** Which rows are kept, in terms of the rows themselves. */
  lemma KeptEventRows(rows: seq<EventRow>)
    ensures forall row :: row in Select(rows, EventRowOk) <==>
              row in rows && row.key != "" && row.tickets >= 0 && row.revenue >= 0.0
    ensures |Select(rows, EventRowOk)| + Count(rows, Not(EventRowOk)) == |rows|
  {
    SelectIs(rows, EventRowOk);
    ValidationPartitions(rows, EventRowOk);
  }

  lemma KeptDailyRows(rows: seq<DailyRow>, today: int)
    ensures forall row :: row in Select(rows, DailyRowOk(today)) <==>
              row in rows && row.key.0 != "" && row.key.1 <= today + 1
    ensures |Select(rows, DailyRowOk(today))| + Count(rows, Not(DailyRowOk(today))) == |rows|
  {
    SelectIs(rows, DailyRowOk(today));
    ValidationPartitions(rows, DailyRowOk(today));
  }

  /** Kept and rejected rows partition the input; validating again keeps all. */
  lemma {:induction false} ValidationPartitions<T>(rows: seq<T>, ok: T -> bool)
    ensures |Select(rows, ok)| + Count(rows, Not(ok)) == |rows|
    ensures Select(Select(rows, ok), ok) == Select(rows, ok)
  {
    if rows != [] {
      var n := |rows| - 1;
      var kept := Select(rows[..n], ok);
      ValidationPartitions(rows[..n], ok);
      if ok(rows[n]) {
        SelectSnoc(kept, rows[n], ok);
      } else {
        assert Select(rows, ok) == kept;
      }
    }
  }

  /** Dropping rows keeps primary keys distinct. */
  lemma {:induction false} ValidationKeepsKeysDistinct<K, P>(rows: seq<Row<K, P>>, ok: Row<K, P> -> bool)
    requires DistinctKeys(rows)
    ensures DistinctKeys(Select(rows, ok))
  {
    if rows != [] {
      var n := |rows| - 1;
      var kept := Select(rows[..n], ok);
      ValidationKeepsKeysDistinct(rows[..n], ok);
      forall i | 0 <= i < |kept| ensures kept[i].key != rows[n].key {
        var j := SelectedFrom(rows[..n], ok, i);
        assert rows[j].key != rows[n].key;
      }
    }
  }
}

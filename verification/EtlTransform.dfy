/** Aggregation of raw sales into the two summary tables (`transform_summary`
    in src/etl/__init__.py). */
module EtlTransform {
  import opened Wrappers
  import opened Sorting

  // ----- raw records -----------------------------------------------------------

  /** A JSON value as the ETL observes it: its Python truth value, `str(v)`, and
      what `int(v)`, `float(v)` and `datetime.fromisoformat(str(v)).date()` give,
      `None` where the conversion raises. Days count from a fixed epoch. */
  datatype RawValue = RawValue(
    truthy: bool,
    text: string,
    asInt: Option<int>,
    asFloat: Option<real>,
    asDate: Option<int>)

  type RawRecord = map<string, RawValue>

  /** `r.get(k1) or r.get(k2) or ...` */
  function FirstTruthy(r: RawRecord, keys: seq<string>): Option<RawValue> {
    if keys == [] then None
    else if keys[0] in r && r[keys[0]].truthy then Some(r[keys[0]])
    else FirstTruthy(r, keys[1..])
  }

  function TextOf(v: Option<RawValue>): string {
    if v.Some? then v.value.text else ""
  }

  function SafeInt(v: RawValue): int {
    if v.asInt.Some? then v.asInt.value else 0
  }

  function SafeFloat(v: RawValue): real {
    if v.asFloat.Some? then v.asFloat.value else 0.0
  }

  datatype Sale = Sale(eventId: string, quantity: int, amount: real, day: int)

  /** One raw sale, or nothing when it names no event. A missing or zero
      quantity counts as one ticket. */
  function SaleOf(r: RawRecord, today: int): Option<Sale> {
    var eventId := TextOf(FirstTruthy(r, ["event_id", "eventId", "event"]));
    if eventId == "" then None
    else
      Some(Sale(eventId, QuantityOf(r), AmountOf(r), DayOf(r, today)))
  }

  function AmountOf(r: RawRecord): real {
    var a := FirstTruthy(r, ["total_amount"]);
    if a.Some? then SafeFloat(a.value) else QuantityOf(r) as real * PriceOf(r)
  }

  function DayOf(r: RawRecord, today: int): int {
    var d := FirstTruthy(r, ["sale_date", "created_at", "timestamp"]);
    if d.Some? && d.value.asDate.Some? then d.value.asDate.value else today
  }

  function QuantityOf(r: RawRecord): int {
    var q := FirstTruthy(r, ["quantity", "qty"]);
    if q.Some? then SafeInt(q.value) else 1
  }

  function PriceOf(r: RawRecord): real {
    var p := FirstTruthy(r, ["price", "unit_price", "amount"]);
    if p.Some? then SafeFloat(p.value) else 0.0
  }

  function SalesOf(rs: seq<RawRecord>, today: int): seq<Sale> {
    if rs == [] then []
    else
      var last := SaleOf(rs[|rs| - 1], today);
      SalesOf(rs[..|rs| - 1], today) + if last.Some? then [last.value] else []
  }

  function EventIdOf(e: RawRecord): string { TextOf(FirstTruthy(e, ["id", "event_id"])) }

  function EventNameOf(e: RawRecord): string { TextOf(FirstTruthy(e, ["name", "title"])) }

  function NamesOf(es: seq<RawRecord>): map<string, string> {
    if es == [] then map[]
    else
      var e := es[|es| - 1];
      var eventId := EventIdOf(e);
      var names := NamesOf(es[..|es| - 1]);
      if eventId == "" then names else names[eventId := EventNameOf(e)]
  }

  // ----- aggregates and rows ---------------------------------------------------------

  datatype Agg = Agg(tickets: int, revenue: real) {
    function Plus(other: Agg): Agg { Agg(tickets + other.tickets, revenue + other.revenue) }
  }

  const ZERO := Agg(0, 0.0)

  /** A row of either summary: its primary key, its figures and whatever else
      the table keeps. */
  datatype Row<K, P> = Row(key: K, tickets: int, revenue: real, extra: P)

  datatype EventInfo = EventInfo(name: string, lastUpdated: int)
  datatype NoInfo = NoInfo

  type DayKey = (string, int)
  type EventRow = Row<string, EventInfo>
  type DailyRow = Row<DayKey, NoInfo>

  function OfEvent(eventId: string): Sale -> bool {
    (s: Sale) => s.eventId == eventId
  }

  function OfDay(key: DayKey): Sale -> bool {
    (s: Sale) => s.eventId == key.0 && s.day == key.1
  }

  function FiguresOf(s: Sale): Agg { Agg(s.quantity, s.amount) }

  /** Tickets and revenue of the sales that qualify. */
  function Total(sales: seq<Sale>, p: Sale -> bool): Agg {
    if sales == [] then ZERO
    else
      var last := sales[|sales| - 1];
      var before := Total(sales[..|sales| - 1], p);
      if p(last) then before.Plus(FiguresOf(last)) else before
  }

  /** The elements in order of first appearance: the key order of a Python dict
      filled in that order. */
  function FirstSeen<T(==)>(s: seq<T>): seq<T> {
    if s == [] then []
    else
      var before := FirstSeen(s[..|s| - 1]);
      if s[|s| - 1] in before then before else before + [s[|s| - 1]]
  }

  function EventIds(sales: seq<Sale>): seq<string> {
    seq(|sales|, i requires 0 <= i < |sales| => sales[i].eventId)
  }

  function DayKeys(sales: seq<Sale>): seq<DayKey> {
    seq(|sales|, i requires 0 <= i < |sales| => (sales[i].eventId, sales[i].day))
  }

  function EventRowFor(names: map<string, string>, sales: seq<Sale>, now: int): string -> EventRow {
    (id: string) =>
      var total := Total(sales, OfEvent(id));
      Row(id, total.tickets, total.revenue, EventInfo(if id in names then names[id] else "", now))
  }

  function DailyRowFor(sales: seq<Sale>): DayKey -> DailyRow {
    (key: DayKey) =>
      var total := Total(sales, OfDay(key));
      Row(key, total.tickets, total.revenue, NoInfo)
  }

  function Rows<K, P>(keys: seq<K>, row: K -> Row<K, P>): seq<Row<K, P>> {
    seq(|keys|, i requires 0 <= i < |keys| => row(keys[i]))
  }

  function EventRows(names: map<string, string>, sales: seq<Sale>, now: int): seq<EventRow> {
    Rows(FirstSeen(EventIds(sales)), EventRowFor(names, sales, now))
  }

  function DailyRows(sales: seq<Sale>): seq<DailyRow> {
    Rows(FirstSeen(DayKeys(sales)), DailyRowFor(sales))
  }

  // ----- `transform_summary` ---------------------------------------------------------------

  /** A dict from keys to running figures together with its key order. */
  ghost predicate Tracks<K(!new)>(totals: map<K, Agg>, order: seq<K>, sales: seq<Sale>, keys: seq<K>,
                                  picks: K -> Sale -> bool) {
    && order == FirstSeen(keys)
    && (forall k :: k in totals <==> k in order)
    && (forall k :: k in totals ==> totals[k] == Total(sales, picks(k)))
  }

  /** Absent keys have no sales yet. */
  lemma {:induction false} NoSalesYet(sales: seq<Sale>, p: Sale -> bool)
    requires forall s :: s in sales ==> !p(s)
    ensures Total(sales, p) == ZERO
  {
    if sales != [] { NoSalesYet(sales[..|sales| - 1], p); }
  }

  lemma {:induction false} FirstSeenElements<T>(s: seq<T>)
    ensures forall x :: x in FirstSeen(s) <==> x in s
    ensures Distinct(FirstSeen(s))
  {
    if s != [] {
      FirstSeenElements(s[..|s| - 1]);
      assert s == s[..|s| - 1] + [s[|s| - 1]];
    }
  }

  /** Adding one sale's figures under its key keeps a dict of totals current. */
  lemma TracksNext<K(!new)>(totals: map<K, Agg>, order: seq<K>, sales: seq<Sale>, keys: seq<K>,
                            picks: K -> Sale -> bool, s: Sale, key: K)
    requires Tracks(totals, order, sales, keys, picks)
    requires |keys| == |sales| && forall i, k :: 0 <= i < |sales| ==> (picks(k)(sales[i]) <==> keys[i] == k)
    requires forall k :: picks(k)(s) <==> k == key
    ensures Tracks(totals[key := (if key in totals then totals[key] else ZERO).Plus(FiguresOf(s))],
                   if key in totals then order else order + [key], sales + [s], keys + [key], picks)
  {
    assert (sales + [s])[..|sales|] == sales && (keys + [key])[..|keys|] == keys;
    FirstSeenElements(keys);
    if key !in totals {
      assert key !in keys;
      NoSalesYet(sales, picks(key));
    }
  }

  method TransformSummary(events: seq<RawRecord>, sales: seq<RawRecord>, today: int, now: int)
    returns (eventRows: seq<EventRow>, dailyRows: seq<DailyRow>)
    ensures eventRows == EventRows(NamesOf(events), SalesOf(sales, today), now)
    ensures dailyRows == DailyRows(SalesOf(sales, today))
  {
    var names := CollectNames(events);
    ghost var all := SalesOf(sales, today);
    var totals, eventOrder, daily, dayOrder := Aggregate(sales, today);
    eventRows := seq(|eventOrder|, i requires 0 <= i < |eventOrder| =>
      var id := eventOrder[i];
      assert id in totals;
      Row(id, totals[id].tickets, totals[id].revenue, EventInfo(if id in names then names[id] else "", now)));
    dailyRows := seq(|dayOrder|, i requires 0 <= i < |dayOrder| =>
      var key := dayOrder[i];
      assert key in daily;
      Row(key, daily[key].tickets, daily[key].revenue, NoInfo));
    assert forall i :: 0 <= i < |eventOrder| ==> eventRows[i] == EventRowFor(names, all, now)(eventOrder[i]);
    assert forall i :: 0 <= i < |dayOrder| ==> dailyRows[i] == DailyRowFor(all)(dayOrder[i]);
  }

  /** The loop of `transform_summary`: `totals` and `daily` with their key orders. */
  method Aggregate(sales: seq<RawRecord>, today: int)
    returns (totals: map<string, Agg>, eventOrder: seq<string>, daily: map<DayKey, Agg>, dayOrder: seq<DayKey>)
    ensures Tracks(totals, eventOrder, SalesOf(sales, today), EventIds(SalesOf(sales, today)), OfEvent)
    ensures Tracks(daily, dayOrder, SalesOf(sales, today), DayKeys(SalesOf(sales, today)), OfDay)
  {
    totals, eventOrder, daily, dayOrder := map[], [], map[], [];
    ghost var done, ids, days: seq<DayKey> := SalesOf(sales[..0], today), [], [];
    for i := 0 to |sales|
      invariant done == SalesOf(sales[..i], today)
      invariant ids == EventIds(done) && days == DayKeys(done)
      invariant Tracks(totals, eventOrder, done, ids, OfEvent)
      invariant Tracks(daily, dayOrder, done, days, OfDay)
    {
      SalesOfNext(sales, i, today);
      var sale := SaleOf(sales[i], today);
      if sale.Some? {
        totals, eventOrder, daily, dayOrder := AddSale(totals, eventOrder, daily, dayOrder, sale.value, done);
        done := done + [sale.value];
        ids, days := EventIds(done), DayKeys(done);
      }
    }
    assert sales[..|sales|] == sales;
  }

  /** One turn of the loop: the sale's figures go under its event and its day. */
  method AddSale(totals: map<string, Agg>, eventOrder: seq<string>, daily: map<DayKey, Agg>, dayOrder: seq<DayKey>,
                 s: Sale, ghost done: seq<Sale>)
    returns (totals': map<string, Agg>, eventOrder': seq<string>, daily': map<DayKey, Agg>, dayOrder': seq<DayKey>)
    requires Tracks(totals, eventOrder, done, EventIds(done), OfEvent)
    requires Tracks(daily, dayOrder, done, DayKeys(done), OfDay)
    ensures Tracks(totals', eventOrder', done + [s], EventIds(done + [s]), OfEvent)
    ensures Tracks(daily', dayOrder', done + [s], DayKeys(done + [s]), OfDay)
  {
    assert EventIds(done + [s]) == EventIds(done) + [s.eventId];
    assert DayKeys(done + [s]) == DayKeys(done) + [(s.eventId, s.day)];
    totals', eventOrder' := AddTo(totals, eventOrder, done, EventIds(done), OfEvent, s, s.eventId);
    daily', dayOrder' := AddTo(daily, dayOrder, done, DayKeys(done), OfDay, s, (s.eventId, s.day));
  }

  lemma SalesOfNext(rs: seq<RawRecord>, i: nat, today: int)
    requires i < |rs|
    ensures SalesOf(rs[..i + 1], today)
         == SalesOf(rs[..i], today) + if SaleOf(rs[i], today).Some? then [SaleOf(rs[i], today).value] else []
  {
    assert rs[..i + 1][..i] == rs[..i];
  }

  /** `setdefault` followed by the two `+=`. */
  method AddTo<K(==,!new)>(totals: map<K, Agg>, order: seq<K>, ghost sales: seq<Sale>, ghost keys: seq<K>,
                           ghost picks: K -> Sale -> bool, s: Sale, key: K)
    returns (totals': map<K, Agg>, order': seq<K>)
    requires Tracks(totals, order, sales, keys, picks)
    requires |keys| == |sales| && forall i, k :: 0 <= i < |sales| ==> (picks(k)(sales[i]) <==> keys[i] == k)
    requires forall k :: picks(k)(s) <==> k == key
    ensures Tracks(totals', order', sales + [s], keys + [key], picks)
  {
    TracksNext(totals, order, sales, keys, picks, s, key);
    totals', order' := totals, order;
    if key !in totals {
      totals', order' := totals[key := ZERO], order + [key];
    }
    totals' := totals'[key := totals'[key].Plus(FiguresOf(s))];
    assert totals' == totals[key := (if key in totals then totals[key] else ZERO).Plus(FiguresOf(s))];
  }

  method CollectNames(events: seq<RawRecord>) returns (names: map<string, string>)
    ensures names == NamesOf(events)
  {
    names := map[];
    for i := 0 to |events|
      invariant names == NamesOf(events[..i])
    {
      assert events[..i + 1][..i] == events[..i];
      var eventId := EventIdOf(events[i]);
      if eventId != "" {
        names := names[eventId := EventNameOf(events[i])];
      }
    }
    assert events[..|events|] == events;
  }

  // ----- aggregation is exact -----------------------------------------------------------------

  ghost predicate DistinctKeys<K, P>(rows: seq<Row<K, P>>) {
    forall i, j :: 0 <= i < j < |rows| ==> rows[i].key != rows[j].key
  }

  /** Primary keys are pairwise distinct in both outputs. */
  lemma SummaryKeysDistinct(names: map<string, string>, sales: seq<Sale>, now: int)
    ensures DistinctKeys(EventRows(names, sales, now))
    ensures DistinctKeys(DailyRows(sales))
  {
    FirstSeenElements(EventIds(sales));
    FirstSeenElements(DayKeys(sales));
  }

  /** What the daily rows of one event add up to. */
  function DailyTotal(rows: seq<DailyRow>, eventId: string): Agg {
    if rows == [] then ZERO
    else
      var last := rows[|rows| - 1];
      var before := DailyTotal(rows[..|rows| - 1], eventId);
      if last.key.0 == eventId then before.Plus(Agg(last.tickets, last.revenue)) else before
  }

  lemma {:induction false} DailyTotalNext(keys: seq<DayKey>, sales: seq<Sale>, s: Sale, eventId: string)
    requires Distinct(keys)
    ensures DailyTotal(Rows(keys, DailyRowFor(sales + [s])), eventId)
         == if s.eventId == eventId && (s.eventId, s.day) in keys
            then DailyTotal(Rows(keys, DailyRowFor(sales)), eventId).Plus(FiguresOf(s))
            else DailyTotal(Rows(keys, DailyRowFor(sales)), eventId)
  {
    if keys != [] {
      var n := |keys| - 1;
      assert keys == keys[..n] + [keys[n]];
      DailyTotalNext(keys[..n], sales, s, eventId);
      var after, before := Rows(keys, DailyRowFor(sales + [s])), Rows(keys, DailyRowFor(sales));
      assert after[..n] == Rows(keys[..n], DailyRowFor(sales + [s]));
      assert before[..n] == Rows(keys[..n], DailyRowFor(sales));
      DayTotalNext(sales, s, keys[n]);
      assert after[n] == DailyRowFor(sales + [s])(keys[n]) && before[n] == DailyRowFor(sales)(keys[n]);
    }
  }

  lemma DayTotalNext(sales: seq<Sale>, s: Sale, key: DayKey)
    ensures Total(sales + [s], OfDay(key))
         == if (s.eventId, s.day) == key then Total(sales, OfDay(key)).Plus(FiguresOf(s)) else Total(sales, OfDay(key))
  {
    assert (sales + [s])[..|sales|] == sales;
  }

  lemma {:induction false} DailyTotalEmpty(keys: seq<DayKey>, eventId: string)
    ensures DailyTotal(Rows(keys, DailyRowFor([])), eventId) == ZERO
  {
    if keys != [] {
      var n := |keys| - 1;
      DailyTotalEmpty(keys[..n], eventId);
      assert Rows(keys, DailyRowFor([]))[..n] == Rows(keys[..n], DailyRowFor([]));
    }
  }

  lemma {:induction false} DailyTotalOver(keys: seq<DayKey>, sales: seq<Sale>, eventId: string)
    requires Distinct(keys) && forall s :: s in sales ==> (s.eventId, s.day) in keys
    ensures DailyTotal(Rows(keys, DailyRowFor(sales)), eventId) == Total(sales, OfEvent(eventId))
  {
    if sales == [] {
      DailyTotalEmpty(keys, eventId);
    } else {
      var n := |sales| - 1;
      assert sales == sales[..n] + [sales[n]];
      DailyTotalOver(keys, sales[..n], eventId);
      DailyTotalNext(keys, sales[..n], sales[n], eventId);
    }
  }

  /** For every event the two tables agree: its summary figures are the sum of
      its sales and also the sum of its daily rows. */
  lemma SummaryIsSumOfDailyRows(names: map<string, string>, sales: seq<Sale>, now: int, row: EventRow)
    requires row in EventRows(names, sales, now)
    ensures Agg(row.tickets, row.revenue) == Total(sales, OfEvent(row.key))
    ensures Agg(row.tickets, row.revenue) == DailyTotal(DailyRows(sales), row.key)
  {
    FirstSeenElements(DayKeys(sales));
    forall s | s in sales ensures (s.eventId, s.day) in FirstSeen(DayKeys(sales)) {
      var i :| 0 <= i < |sales| && sales[i] == s;
      assert DayKeys(sales)[i] == (s.eventId, s.day);
    }
    DailyTotalOver(FirstSeen(DayKeys(sales)), sales, row.key);
  }

  // ----- the order of the sales does not matter --------------------------------------------------

  lemma TotalSnoc(s: seq<Sale>, x: Sale, p: Sale -> bool)
    ensures Total(s + [x], p) == if p(x) then Total(s, p).Plus(FiguresOf(x)) else Total(s, p)
  {
    assert (s + [x])[..|s|] == s;
  }

  lemma PlusAssociates(a: Agg, b: Agg, c: Agg)
    ensures a.Plus(b).Plus(c) == a.Plus(b.Plus(c))
  {
  }

  lemma {:induction false} TotalConcat(s: seq<Sale>, t: seq<Sale>, p: Sale -> bool)
    ensures Total(s + t, p) == Total(s, p).Plus(Total(t, p))
  {
    if t == [] {
      assert s + t == s;
    } else {
      var n := |t| - 1;
      TotalConcat(s, t[..n], p);
      PlusAssociates(Total(s, p), Total(t[..n], p), FiguresOf(t[n]));
      TotalSnoc(t[..n], t[n], p);
      TotalSnoc(s + t[..n], t[n], p);
      assert t[..n] + [t[n]] == t && s + t[..n] + [t[n]] == s + t;
    }
  }

  lemma {:induction false} TotalIgnoresOrder(s: seq<Sale>, t: seq<Sale>, p: Sale -> bool)
    requires multiset(s) == multiset(t)
    ensures Total(s, p) == Total(t, p)
  {
    SameElements(s, t);
    if s != [] {
      var k := TakeOut(s, t);
      TotalIgnoresOrder(s[..|s| - 1], t[..k] + t[k + 1..], p);
      TotalInsert(t[..k], t[k], t[k + 1..], p);
      assert t == t[..k] + ([t[k]] + t[k + 1..]);
    }
  }

  lemma TotalInsert(before: seq<Sale>, x: Sale, after: seq<Sale>, p: Sale -> bool)
    ensures Total(before + ([x] + after), p)
         == if p(x) then Total(before + after, p).Plus(FiguresOf(x)) else Total(before + after, p)
  {
    TotalConcat(before, [x] + after, p);
    TotalConcat([x], after, p);
    TotalConcat(before, after, p);
    assert [x][..0] == [];
  }

  lemma SameDistinctElements<T>(a: seq<T>, b: seq<T>)
    requires Distinct(a) && Distinct(b) && forall x :: x in a <==> x in b
    ensures multiset(a) == multiset(b)
  {
    forall x ensures multiset(a)[x] == multiset(b)[x] {
      DistinctCountsOne(a, x);
      DistinctCountsOne(b, x);
      assert x in a <==> x in multiset(a);
      assert x in b <==> x in multiset(b);
    }
  }

  lemma {:induction false} RowsIgnoreOrder<K, P>(a: seq<K>, b: seq<K>, row: K -> Row<K, P>)
    requires multiset(a) == multiset(b)
    ensures multiset(Rows(a, row)) == multiset(Rows(b, row))
  {
    SameElements(a, b);
    if a != [] {
      var n := |a| - 1;
      var k := TakeOut(a, b);
      RowsIgnoreOrder(a[..n], b[..k] + b[k + 1..], row);
      RowsSplit(b, k, row);
      assert Rows(a, row) == Rows(a[..n], row) + [row(a[n])];
    }
  }

  lemma RowsSplit<K, P>(b: seq<K>, k: nat, row: K -> Row<K, P>)
    requires k < |b|
    ensures multiset(Rows(b, row)) == multiset(Rows(b[..k] + b[k + 1..], row)) + multiset{row(b[k])}
  {
    var before, after := Rows(b[..k], row), Rows(b[k + 1..], row);
    assert Rows(b, row) == before + [row(b[k])] + after;
    assert Rows(b[..k] + b[k + 1..], row) == before + after;
  }

  lemma SameKeys<K>(a: seq<K>, b: seq<K>)
    requires forall x :: x in a <==> x in b
    ensures multiset(FirstSeen(a)) == multiset(FirstSeen(b))
  {
    FirstSeenElements(a);
    FirstSeenElements(b);
    SameDistinctElements(FirstSeen(a), FirstSeen(b));
  }

  /** Permuting the sales permutes the rows of both summaries and changes none. */
  lemma SummaryIgnoresSaleOrder(names: map<string, string>, s: seq<Sale>, t: seq<Sale>, now: int)
    requires multiset(s) == multiset(t)
    ensures multiset(EventRows(names, s, now)) == multiset(EventRows(names, t, now))
    ensures multiset(DailyRows(s)) == multiset(DailyRows(t))
  {
    SameSaleKeys(s, t);
    SameSaleKeys(t, s);
    SameKeys(EventIds(s), EventIds(t));
    SameKeys(DayKeys(s), DayKeys(t));
    RowsIgnoreOrder(FirstSeen(EventIds(s)), FirstSeen(EventIds(t)), EventRowFor(names, s, now));
    RowsIgnoreOrder(FirstSeen(DayKeys(s)), FirstSeen(DayKeys(t)), DailyRowFor(s));
    RowsForEither(names, s, t, now);
    assert Rows(FirstSeen(EventIds(t)), EventRowFor(names, s, now)) == EventRows(names, t, now);
    assert Rows(FirstSeen(DayKeys(t)), DailyRowFor(s)) == DailyRows(t);
  }

  lemma RowsForEither(names: map<string, string>, s: seq<Sale>, t: seq<Sale>, now: int)
    requires multiset(s) == multiset(t)
    ensures forall id :: EventRowFor(names, s, now)(id) == EventRowFor(names, t, now)(id)
    ensures forall key :: DailyRowFor(s)(key) == DailyRowFor(t)(key)
  {
    forall id ensures EventRowFor(names, s, now)(id) == EventRowFor(names, t, now)(id) {
      TotalIgnoresOrder(s, t, OfEvent(id));
    }
    forall key ensures DailyRowFor(s)(key) == DailyRowFor(t)(key) {
      TotalIgnoresOrder(s, t, OfDay(key));
    }
  }

  lemma SameSaleKeys(s: seq<Sale>, t: seq<Sale>)
    requires multiset(s) == multiset(t)
    ensures forall id :: id in EventIds(s) ==> id in EventIds(t)
    ensures forall key :: key in DayKeys(s) ==> key in DayKeys(t)
  {
    SameElements(s, t);
    forall i | 0 <= i < |s|
      ensures s[i].eventId in EventIds(t) && (s[i].eventId, s[i].day) in DayKeys(t)
    {
      assert s[i] in t;
      var j :| 0 <= j < |t| && t[j] == s[i];
      assert EventIds(t)[j] == s[i].eventId && DayKeys(t)[j] == (s[i].eventId, s[i].day);
    }
  }
}

/** The two summaries told by the raw records alone: which key of a record counts,
    what stands in for a missing one, and what the rows add up. */
module EtlRecords {
  import opened Wrappers
  import opened Counting
  import opened Sorting
  import opened EtlTransform

  // ----- one record -----------------------------------------------------------------

  /** The key is there, and its value is neither empty nor zero. */
  predicate Has(r: RawRecord, key: string) { key in r && r[key].truthy }

  function SaleEvent(r: RawRecord): string {
    if Has(r, "event_id") then r["event_id"].text
    else if Has(r, "eventId") then r["eventId"].text
    else if Has(r, "event") then r["event"].text
    else ""
  }

  function IntOrZero(v: RawValue): int { match v.asInt case Some(n) => n case None => 0 }

  function RealOrZero(v: RawValue): real { match v.asFloat case Some(x) => x case None => 0.0 }

  /** One ticket unless the record says otherwise. */
  function Quantity(r: RawRecord): int {
    if Has(r, "quantity") then IntOrZero(r["quantity"])
    else if Has(r, "qty") then IntOrZero(r["qty"])
    else 1
  }

  function UnitPrice(r: RawRecord): real {
    if Has(r, "price") then RealOrZero(r["price"])
    else if Has(r, "unit_price") then RealOrZero(r["unit_price"])
    else if Has(r, "amount") then RealOrZero(r["amount"])
    else 0.0
  }

  function Amount(r: RawRecord): real {
    if Has(r, "total_amount") then RealOrZero(r["total_amount"]) else Quantity(r) as real * UnitPrice(r)
  }

  function DateOr(v: RawValue, today: int): int { match v.asDate case Some(d) => d case None => today }

  /** A missing or unreadable date is today. */
  function SaleDay(r: RawRecord, today: int): int {
    if Has(r, "sale_date") then DateOr(r["sale_date"], today)
    else if Has(r, "created_at") then DateOr(r["created_at"], today)
    else if Has(r, "timestamp") then DateOr(r["timestamp"], today)
    else today
  }

  function EventOf(r: RawRecord): string {
    if Has(r, "id") then r["id"].text else if Has(r, "event_id") then r["event_id"].text else ""
  }

  function TitleOf(r: RawRecord): string {
    if Has(r, "name") then r["name"].text else if Has(r, "title") then r["title"].text else ""
  }

  lemma FirstOfOne(r: RawRecord, a: string)
    ensures FirstTruthy(r, [a]) == if Has(r, a) then Some(r[a]) else None
  {
    assert [a][1..] == [];
  }

  lemma FirstOfTwo(r: RawRecord, a: string, b: string)
    ensures FirstTruthy(r, [a, b]) == if Has(r, a) then Some(r[a]) else if Has(r, b) then Some(r[b]) else None
  {
    FirstOfOne(r, b);
    assert [a, b][1..] == [b];
  }

  lemma FirstOfThree(r: RawRecord, a: string, b: string, c: string)
    ensures FirstTruthy(r, [a, b, c])
         == if Has(r, a) then Some(r[a]) else if Has(r, b) then Some(r[b]) else if Has(r, c) then Some(r[c]) else None
  {
    FirstOfTwo(r, b, c);
    assert [a, b, c][1..] == [b, c];
  }

  lemma QuantityIs(r: RawRecord)
    ensures QuantityOf(r) == Quantity(r)
  {
    FirstOfTwo(r, "quantity", "qty");
  }

  lemma PriceIs(r: RawRecord)
    ensures PriceOf(r) == UnitPrice(r)
  {
    FirstOfThree(r, "price", "unit_price", "amount");
  }

  lemma AmountIs(r: RawRecord)
    ensures AmountOf(r) == Amount(r)
  {
    QuantityIs(r);
    PriceIs(r);
    FirstOfOne(r, "total_amount");
    assert QuantityOf(r) as real * PriceOf(r) == Quantity(r) as real * UnitPrice(r);
  }

  lemma DayIs(r: RawRecord, today: int)
    ensures DayOf(r, today) == SaleDay(r, today)
  {
    FirstOfThree(r, "sale_date", "created_at", "timestamp");
  }

  /** What a raw sale counts for: nothing without an event id, otherwise the figures
      and the day its own keys give. */
  lemma SaleIs(r: RawRecord, today: int)
    ensures SaleEvent(r) == "" ==> SaleOf(r, today).None?
    ensures SaleEvent(r) != "" ==> SaleOf(r, today) == Some(Sale(SaleEvent(r), Quantity(r), Amount(r), SaleDay(r, today)))
  {
    FirstOfThree(r, "event_id", "eventId", "event");
    AmountIs(r);
    DayIs(r, today);
    QuantityIs(r);
  }

  // ----- all records ---------------------------------------------------------------------

  function Tickets(eventId: string): RawRecord -> real {
    (r: RawRecord) => if SaleEvent(r) == eventId then Quantity(r) as real else 0.0
  }

  function Revenue(eventId: string): RawRecord -> real {
    (r: RawRecord) => if SaleEvent(r) == eventId then Amount(r) else 0.0
  }

  function TicketsOn(key: DayKey, today: int): RawRecord -> real {
    (r: RawRecord) => if SaleEvent(r) == key.0 && SaleDay(r, today) == key.1 then Quantity(r) as real else 0.0
  }

  function RevenueOn(key: DayKey, today: int): RawRecord -> real {
    (r: RawRecord) => if SaleEvent(r) == key.0 && SaleDay(r, today) == key.1 then Amount(r) else 0.0
  }

  lemma SalesSnoc(rs: seq<RawRecord>, today: int)
    requires rs != []
    ensures var n := |rs| - 1;
            SalesOf(rs, today) == SalesOf(rs[..n], today)
              + if SaleEvent(rs[n]) == "" then []
                else [Sale(SaleEvent(rs[n]), Quantity(rs[n]), Amount(rs[n]), SaleDay(rs[n], today))]
  {
    SaleIs(rs[|rs| - 1], today);
  }

  lemma {:induction false} TotalIsSum(rs: seq<RawRecord>, today: int, p: Sale -> bool,
                                      tickets: RawRecord -> real, revenue: RawRecord -> real)
    requires forall r :: tickets(r) == if SaleEvent(r) != "" && p(Sale(SaleEvent(r), Quantity(r), Amount(r), SaleDay(r, today)))
                                       then Quantity(r) as real else 0.0
    requires forall r :: revenue(r) == if SaleEvent(r) != "" && p(Sale(SaleEvent(r), Quantity(r), Amount(r), SaleDay(r, today)))
                                       then Amount(r) else 0.0
    ensures Total(SalesOf(rs, today), p).tickets as real == SumOf(rs, tickets)
    ensures Total(SalesOf(rs, today), p).revenue == SumOf(rs, revenue)
  {
    if rs != [] {
      var n := |rs| - 1;
      var r := rs[n];
      TotalIsSum(rs[..n], today, p, tickets, revenue);
      SalesSnoc(rs, today);
      if SaleEvent(r) != "" {
        TotalSnoc(SalesOf(rs[..n], today), Sale(SaleEvent(r), Quantity(r), Amount(r), SaleDay(r, today)), p);
      } else {
        assert SalesOf(rs, today) == SalesOf(rs[..n], today);
      }
    }
  }

  lemma {:induction false} SoldEvents(rs: seq<RawRecord>, today: int, eventId: string, day: int)
    ensures eventId in EventIds(SalesOf(rs, today)) <==> eventId != "" && exists r :: r in rs && SaleEvent(r) == eventId
    ensures (eventId, day) in DayKeys(SalesOf(rs, today)) <==>
              eventId != "" && exists r :: r in rs && SaleEvent(r) == eventId && SaleDay(r, today) == day
  {
    if rs != [] {
      var n := |rs| - 1;
      var before := SalesOf(rs[..n], today);
      SoldEvents(rs[..n], today, eventId, day);
      SalesSnoc(rs, today);
      assert rs == rs[..n] + [rs[n]];
      if SaleEvent(rs[n]) != "" {
        var s := Sale(SaleEvent(rs[n]), Quantity(rs[n]), Amount(rs[n]), SaleDay(rs[n], today));
        KeysSnoc(before, s);
      } else {
        assert SalesOf(rs, today) == before;
      }
    }
  }

  lemma KeysSnoc(sales: seq<Sale>, s: Sale)
    ensures EventIds(sales + [s]) == EventIds(sales) + [s.eventId]
    ensures DayKeys(sales + [s]) == DayKeys(sales) + [(s.eventId, s.day)]
  {
  }

  lemma EventTotal(rs: seq<RawRecord>, today: int, eventId: string)
    requires eventId != ""
    ensures Total(SalesOf(rs, today), OfEvent(eventId)).tickets as real == SumOf(rs, Tickets(eventId))
    ensures Total(SalesOf(rs, today), OfEvent(eventId)).revenue == SumOf(rs, Revenue(eventId))
  {
    TotalIsSum(rs, today, OfEvent(eventId), Tickets(eventId), Revenue(eventId));
  }

  lemma DayTotal(rs: seq<RawRecord>, today: int, key: DayKey)
    requires key.0 != ""
    ensures Total(SalesOf(rs, today), OfDay(key)).tickets as real == SumOf(rs, TicketsOn(key, today))
    ensures Total(SalesOf(rs, today), OfDay(key)).revenue == SumOf(rs, RevenueOn(key, today))
  {
    TotalIsSum(rs, today, OfDay(key), TicketsOn(key, today), RevenueOn(key, today));
  }

  /** Record `i` is the last one of the event. */
  ghost predicate IsLastNamed(es: seq<RawRecord>, eventId: string, i: int) {
    0 <= i < |es| && EventOf(es[i]) == eventId && forall j :: i < j < |es| ==> EventOf(es[j]) != eventId
  }

  /** The name an event row shows: that of the last event record with its id. */
  lemma {:induction false} NamesAre(es: seq<RawRecord>, eventId: string)
    ensures eventId in NamesOf(es) <==> eventId != "" && exists i :: 0 <= i < |es| && EventOf(es[i]) == eventId
    ensures forall i :: IsLastNamed(es, eventId, i) && eventId != "" ==>
              eventId in NamesOf(es) && NamesOf(es)[eventId] == TitleOf(es[i])
  {
    if es != [] {
      var n := |es| - 1;
      NamesAre(es[..n], eventId);
      NamesSnoc(es);
      assert es == es[..n] + [es[n]];
      forall i | 0 <= i < n ensures es[..n][i] == es[i] && (IsLastNamed(es, eventId, i) ==> IsLastNamed(es[..n], eventId, i)) {
      }
      if i :| 0 <= i < n && EventOf(es[i]) == eventId { assert EventOf(es[..n][i]) == eventId; }
    }
  }

  lemma NamesSnoc(es: seq<RawRecord>)
    requires es != []
    ensures var n := |es| - 1;
            NamesOf(es) == if EventOf(es[n]) == "" then NamesOf(es[..n]) else NamesOf(es[..n])[EventOf(es[n]) := TitleOf(es[n])]
  {
    TextsAre(es[|es| - 1]);
  }

  lemma TextsAre(e: RawRecord)
    ensures EventIdOf(e) == EventOf(e) && EventNameOf(e) == TitleOf(e)
  {
    FirstOfTwo(e, "id", "event_id");
    FirstOfTwo(e, "name", "title");
  }

  /** `transform_summary` in terms of its input: a row per event some record names,
      with the sums of those records, its name and the time; and a row per event and
      day in the same way. */
  lemma EventRowsAreSums(events: seq<RawRecord>, sales: seq<RawRecord>, today: int, now: int, eventId: string)
    ensures var rows := EventRows(NamesOf(events), SalesOf(sales, today), now);
            && ((exists row :: row in rows && row.key == eventId) <==>
                  eventId != "" && exists r :: r in sales && SaleEvent(r) == eventId)
            && forall row :: row in rows && row.key == eventId ==>
                 && row.tickets as real == SumOf(sales, Tickets(eventId))
                 && row.revenue == SumOf(sales, Revenue(eventId))
                 && row.extra.lastUpdated == now
                 && row.extra.name == if eventId in NamesOf(events) then NamesOf(events)[eventId] else ""
  {
    var names, all := NamesOf(events), SalesOf(sales, today);
    var ids, row := FirstSeen(EventIds(all)), EventRowFor(names, all, now);
    SoldEvents(sales, today, eventId, today);
    FirstSeenElements(EventIds(all));
    RowsOf(ids, row, eventId);
    if eventId != "" { EventTotal(sales, today, eventId); }
  }

  lemma DailyRowsAreSums(sales: seq<RawRecord>, today: int, key: DayKey)
    ensures var rows := DailyRows(SalesOf(sales, today));
            && ((exists row :: row in rows && row.key == key) <==>
                  key.0 != "" && exists r :: r in sales && SaleEvent(r) == key.0 && SaleDay(r, today) == key.1)
            && forall row :: row in rows && row.key == key ==>
                 row.tickets as real == SumOf(sales, TicketsOn(key, today)) && row.revenue == SumOf(sales, RevenueOn(key, today))
  {
    var all := SalesOf(sales, today);
    SoldEvents(sales, today, key.0, key.1);
    assert (key.0, key.1) == key;
    FirstSeenElements(DayKeys(all));
    RowsOf(FirstSeen(DayKeys(all)), DailyRowFor(all), key);
    if key.0 != "" { DayTotal(sales, today, key); }
  }

  lemma RowsOf<K, P>(keys: seq<K>, row: K -> Row<K, P>, key: K)
    requires forall k :: row(k).key == k
    ensures (exists r :: r in Rows(keys, row) && r.key == key) <==> key in keys
    ensures forall r :: r in Rows(keys, row) && r.key == key ==> r == row(key)
  {
    var rows := Rows(keys, row);
    if key in keys {
      var i :| 0 <= i < |keys| && keys[i] == key;
      assert rows[i] in rows && rows[i].key == key;
    }
    forall r | r in rows ensures r == row(r.key) && r.key in keys {
      var i :| 0 <= i < |rows| && rows[i] == r;
      assert r == row(keys[i]);
    }
  }

  /** The usual batch: sales that give a quantity and a unit price and no total. */
  lemma QuantityTimesPrice(events: seq<RawRecord>, sales: seq<RawRecord>, today: int, now: int, row: EventRow)
    requires forall r: RawRecord :: r in sales ==>
      Has(r, "quantity") && r["quantity"].asInt.Some? && Has(r, "price") && r["price"].asFloat.Some? && !Has(r, "total_amount")
    requires row in EventRows(NamesOf(events), SalesOf(sales, today), now)
    ensures row.revenue == SumOf(sales, QuantityPrice(row.key))
  {
    EventRowsAreSums(events, sales, today, now, row.key);
    forall r | r in sales ensures Revenue(row.key)(r) == QuantityPrice(row.key)(r) {
      RevenueIsProduct(r, row.key);
    }
    SumOfSame(sales, Revenue(row.key), QuantityPrice(row.key));
  }

  lemma RevenueIsProduct(r: RawRecord, eventId: string)
    requires Has(r, "quantity") && r["quantity"].asInt.Some? && Has(r, "price") && r["price"].asFloat.Some?
    requires !Has(r, "total_amount")
    ensures Revenue(eventId)(r) == QuantityPrice(eventId)(r)
  {
  }

  function QuantityPrice(eventId: string): RawRecord -> real {
    (r: RawRecord) =>
      if SaleEvent(r) == eventId && "quantity" in r && "price" in r && r["quantity"].asInt.Some? && r["price"].asFloat.Some?
      then r["quantity"].asInt.value as real * r["price"].asFloat.value else 0.0
  }

  // ----- order ----------------------------------------------------------------------------------

  /** Rows come in the order in which their keys first occur. */
  lemma {:induction false} FirstSeenInOrder<T(!new)>(s: seq<T>, i: nat, j: nat) returns (p: nat)
    requires i < j < |FirstSeen(s)|
    ensures p < |s| && s[p] == FirstSeen(s)[i] && FirstSeen(s)[j] !in s[..p + 1]
  {
    var n := |s| - 1;
    var head := s[..n];
    var before := FirstSeen(head);
    if j < |before| {
      p := FirstSeenInOrder(head, i, j);
      assert head[..p + 1] == s[..p + 1];
    } else {
      FirstSeenElements(head);
      assert before[i] in FirstSeen(head);
      p :| 0 <= p < n && head[p] == before[i];
      assert FirstSeen(s)[j] == s[n] && s[n] !in head;
      NotInPrefix(s, n, p + 1);
    }
  }

  lemma NotInPrefix<T>(s: seq<T>, n: nat, p: nat)
    requires p <= n < |s| && s[n] !in s[..n]
    ensures s[n] !in s[..p]
  {
    assert s[..p] == s[..n][..p];
  }
}

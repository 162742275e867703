/** The rules and the severity in plain numbers: how many events of which kind, how
    far apart. Times are in microseconds. */
module FraudMeaning {
  import opened Counting
  import opened Durations
  import opened FraudEvents
  import opened Fraud
  import opened FraudTheorems

  lemma {:induction false} CountIsSize<T>(s: seq<T>, p: T -> bool, positions: set<int>)
    requires forall i :: i in positions <==> 0 <= i < |s| && p(s[i])
    ensures Count(s, p) == |positions|
  {
    if s == [] {
      assert forall i :: i !in positions;
    } else {
      var n := |s| - 1;
      var before := positions - {n};
      CountIsSize(s[..n], p, before);
      assert positions == before + if p(s[n]) then {n} else {};
    }
  }

  /** Purchases from an address within ten minutes. */
  function PurchasesFrom(events: seq<Event>, ip: string, start: int): set<int> {
    set i | 0 <= i < |events| && events[i].kind == Purchase && events[i].ip == ip
          && start <= events[i].time <= start + 600_000_000
  }

  function TransfersOf(events: seq<Event>, ticketId: string): set<int> {
    set i | 0 <= i < |events| && events[i].kind == Transfer && events[i].ticketId == ticketId
  }

  /** Purchases of a user on a day, counted from the epoch. */
  function PurchasesOn(events: seq<Event>, user: string, day: int): set<int> {
    set i | 0 <= i < |events| && events[i].kind == Purchase && events[i].user == user
          && 86_400_000_000 * day <= events[i].time < 86_400_000_000 * (day + 1)
  }

  lemma DayIs(time: int, day: int)
    ensures time / DAY == day <==> 86_400_000_000 * day <= time < 86_400_000_000 * (day + 1)
  {
  }

  lemma SizesAreCounts(events: seq<Event>, ip: string, start: int, ticketId: string, user: string, day: int)
    ensures Count(events, PurchaseWithin(ip, start)) == |PurchasesFrom(events, ip, start)|
    ensures Count(events, TransferOf(ticketId)) == |TransfersOf(events, ticketId)|
    ensures Count(events, PurchaseOn((user, day))) == |PurchasesOn(events, user, day)|
  {
    CountIsSize(events, PurchaseWithin(ip, start), PurchasesFrom(events, ip, start));
    CountIsSize(events, TransferOf(ticketId), TransfersOf(events, ticketId));
    forall i | 0 <= i < |events| ensures events[i].time / DAY == day <==>
      86_400_000_000 * day <= events[i].time < 86_400_000_000 * (day + 1)
    {
      DayIs(events[i].time, day);
    }
    CountIsSize(events, PurchaseOn((user, day)), PurchasesOn(events, user, day));
  }

  lemma BulkIs(e: Event)
    ensures IsBulk(e) <==> e.kind == Purchase && e.capacity > 0.0 && 5.0 * e.qty >= e.capacity
  {
    if e.capacity > 0.0 {
      var share := e.qty / e.capacity;
      assert share * e.capacity == e.qty;
      if share >= 0.2 { assert (share - 0.2) * e.capacity >= 0.0; }
      if share < 0.2 { assert (0.2 - share) * e.capacity > 0.0; }
    }
  }

  /** More than three purchases from one address within ten minutes. */
  lemma SameIpInNumbers(events: seq<Event>)
    ensures Fires(TooManyPurchasesSameIp, events) <==> exists ip, start :: |PurchasesFrom(events, ip, start)| > 3
  {
    forall ip, start ensures Count(events, PurchaseWithin(ip, start)) == |PurchasesFrom(events, ip, start)| {
      SizesAreCounts(events, ip, start, "", "", 0);
    }
  }

  /** A ticket transferred more than once. */
  lemma TransfersInNumbers(events: seq<Event>)
    ensures Fires(DuplicateTicketTransfer, events) <==> exists ticketId :: |TransfersOf(events, ticketId)| > 1
  {
    forall ticketId ensures Count(events, TransferOf(ticketId)) == |TransfersOf(events, ticketId)| {
      SizesAreCounts(events, "", 0, ticketId, "", 0);
    }
  }

  /** More than five purchases of one user on one day. */
  lemma UserDayInNumbers(events: seq<Event>)
    ensures Fires(ExcessivePurchasesUserDay, events) <==> exists user, day :: |PurchasesOn(events, user, day)| > 5
  {
    forall user, day ensures Count(events, PurchaseOn((user, day))) == |PurchasesOn(events, user, day)| {
      SizesAreCounts(events, "", 0, "", user, day);
    }
    if Fires(ExcessivePurchasesUserDay, events) {
      var key :| Count(events, PurchaseOn(key)) >= 6;
      assert key == (key.0, key.1);
      assert |PurchasesOn(events, key.0, key.1)| > 5;
    }
    if user, day :| |PurchasesOn(events, user, day)| > 5 {
      assert Count(events, PurchaseOn((user, day))) >= 6;
    }
  }

  /** Two scans of a ticket at different places at most half an hour apart. */
  lemma TravelInNumbers(events: seq<Event>)
    ensures Fires(ImpossibleTravelScan, events) <==>
      exists i, j :: 0 <= i < |events| && 0 <= j < |events| && events[i].kind == events[j].kind == Scan
                  && events[i].ticketId == events[j].ticketId && events[i].location != events[j].location
                  && 0 <= events[j].time - events[i].time <= 1_800_000_000
  {
    if Fires(ImpossibleTravelScan, events) {
      var a, b :| a in events && b in events && FarApart(a, b);
      var i :| 0 <= i < |events| && events[i] == a;
      var j :| 0 <= j < |events| && events[j] == b;
    }
    if i, j :| 0 <= i < |events| && 0 <= j < |events| && events[i].kind == events[j].kind == Scan
               && events[i].ticketId == events[j].ticketId && events[i].location != events[j].location
               && 0 <= events[j].time - events[i].time <= 1_800_000_000 {
      assert FarApart(events[i], events[j]);
    }
  }

  /** A purchase of at least a fifth of a positive capacity. */
  lemma BulkInNumbers(events: seq<Event>)
    ensures Fires(BulkAllocationPurchase, events) <==>
      exists e :: e in events && e.kind == Purchase && e.capacity > 0.0 && 5.0 * e.qty >= e.capacity
  {
    forall e | e in events
      ensures IsBulk(e) <==> e.kind == Purchase && e.capacity > 0.0 && 5.0 * e.qty >= e.capacity
    {
      BulkIs(e);
    }
  }

  /** `determine_severity` rule by rule. */
  lemma SeverityIs(triggered: seq<Rule>)
    ensures DetermineSeverity(triggered) == NoSeverity <==> triggered == []
    ensures DetermineSeverity(triggered) == High <==>
              TooManyPurchasesSameIp in triggered || ExcessivePurchasesUserDay in triggered
              || ImpossibleTravelScan in triggered || BulkAllocationPurchase in triggered
    ensures DetermineSeverity(triggered) == Medium <==>
              && DuplicateTicketTransfer in triggered
              && TooManyPurchasesSameIp !in triggered && ExcessivePurchasesUserDay !in triggered
              && ImpossibleTravelScan !in triggered && BulkAllocationPurchase !in triggered
  {
    var s := set r | r in triggered;
    assert s * HIGH_RULES != {} <==>
      TooManyPurchasesSameIp in s || ExcessivePurchasesUserDay in s || ImpossibleTravelScan in s || BulkAllocationPurchase in s
    by {
      if r :| r in s * HIGH_RULES { }
      if TooManyPurchasesSameIp in s { assert TooManyPurchasesSameIp in s * HIGH_RULES; }
      if ExcessivePurchasesUserDay in s { assert ExcessivePurchasesUserDay in s * HIGH_RULES; }
      if ImpossibleTravelScan in s { assert ImpossibleTravelScan in s * HIGH_RULES; }
      if BulkAllocationPurchase in s { assert BulkAllocationPurchase in s * HIGH_RULES; }
    }
    if DuplicateTicketTransfer in s { assert DuplicateTicketTransfer in s * MEDIUM_RULES; }
    if r :| r in s * MEDIUM_RULES { assert r == DuplicateTicketTransfer; }
  }
}

/** The fraud rules and the severity of what they trigger (src/fraud.py). */
module Fraud {
  import opened Sorting
  import opened Counting
  import opened Durations
  import opened FraudEvents

  datatype Rule =
    | TooManyPurchasesSameIp
    | DuplicateTicketTransfer
    | ExcessivePurchasesUserDay
    | ImpossibleTravelScan
    | BulkAllocationPurchase
    | UnknownRule(name: string)

  const IP_WINDOW := 600 * SECOND
  const TRAVEL_WINDOW := 1800 * SECOND

  // ----- what each rule means ---------------------------------------------------

  function PurchaseFrom(ip: string): Event -> bool {
    (e: Event) => e.kind == Purchase && e.ip == ip
  }

  function PurchaseWithin(ip: string, start: int): Event -> bool {
    (e: Event) => e.kind == Purchase && e.ip == ip && start <= e.time <= start + IP_WINDOW
  }

  function TransferOf(ticketId: string): Event -> bool {
    (e: Event) => e.kind == Transfer && e.ticketId == ticketId
  }

  function PurchaseOn(key: (string, int)): Event -> bool {
    (e: Event) => e.kind == Purchase && e.user == key.0 && e.time / DAY == key.1
  }

  /** Some ten-minute interval, wherever it starts, has four purchases from one IP. */
  ghost predicate SameIpBurst(events: seq<Event>) {
    exists ip, start :: Count(events, PurchaseWithin(ip, start)) >= 4
  }

  ghost predicate TransferredTwice(events: seq<Event>) {
    exists t :: Count(events, TransferOf(t)) >= 2
  }

  ghost predicate SixPurchasesInADay(events: seq<Event>) {
    exists key :: Count(events, PurchaseOn(key)) >= 6
  }

  /** Two scans of one ticket at different places within half an hour. */
  predicate FarApart(a: Event, b: Event) {
    a.kind == b.kind == Scan && a.ticketId == b.ticketId && a.location != b.location
    && 0 <= b.time - a.time <= TRAVEL_WINDOW
  }

  ghost predicate ImpossibleTravel(events: seq<Event>) {
    exists a, b :: a in events && b in events && FarApart(a, b)
  }

  predicate IsBulk(e: Event) {
    e.kind == Purchase && e.capacity > 0.0 && e.qty / e.capacity >= 0.2
  }

  ghost predicate BulkPurchase(events: seq<Event>) {
    exists e :: e in events && IsBulk(e)
  }

  ghost predicate Fires(rule: Rule, events: seq<Event>) {
    match rule
    case TooManyPurchasesSameIp => SameIpBurst(events)
    case DuplicateTicketTransfer => TransferredTwice(events)
    case ExcessivePurchasesUserDay => SixPurchasesInADay(events)
    case ImpossibleTravelScan => ImpossibleTravel(events)
    case BulkAllocationPurchase => BulkPurchase(events)
    case UnknownRule(_) => false
  }

  // ----- `check_fraud_rules` -------------------------------------------------------

  method CheckFraudRules(events: seq<Event>) returns (triggered: set<Rule>)
    ensures forall rule :: rule in triggered <==> Fires(rule, events)
  {
    triggered := {};
    var burst := CheckSameIp(events);
    if burst { triggered := triggered + {TooManyPurchasesSameIp}; }
    var twice := CheckTransfers(events);
    if twice { triggered := triggered + {DuplicateTicketTransfer}; }
    var excessive := CheckUserDay(events);
    if excessive { triggered := triggered + {ExcessivePurchasesUserDay}; }
    var travel := CheckTravel(events);
    if travel { triggered := triggered + {ImpossibleTravelScan}; }
    var bulk := CheckBulk(events);
    if bulk { triggered := triggered + {BulkAllocationPurchase}; }
  }

  method CheckBulk(events: seq<Event>) returns (fired: bool)
    ensures fired <==> BulkPurchase(events)
  {
    fired := false;
    for i := 0 to |events|
      invariant fired <==> exists j :: 0 <= j < i && IsBulk(events[j])
    {
      if events[i].kind == Purchase {
        if events[i].capacity > 0.0 && events[i].qty / events[i].capacity >= 0.2 { fired := true; }
      }
    }
  }

  /** A dict of occurrence counts: absent keys never occurred. */
  ghost predicate Counts<K(!new)>(counts: map<K, nat>, events: seq<Event>, matches: K -> Event -> bool) {
    forall k :: Count(events, matches(k)) == if k in counts then counts[k] else 0
  }

  lemma CountNext<K(!new)>(counts: map<K, nat>, events: seq<Event>, i: nat, matches: K -> Event -> bool)
    requires i < |events| && Counts(counts, events[..i], matches)
    ensures forall k :: Count(events[..i + 1], matches(k))
              == (if k in counts then counts[k] else 0) + if matches(k)(events[i]) then 1 else 0
  {
    assert events[..i + 1] == events[..i] + [events[i]];
    forall k ensures Count(events[..i + 1], matches(k))
              == (if k in counts then counts[k] else 0) + if matches(k)(events[i]) then 1 else 0
    {
      CountSnoc(events[..i], events[i], matches(k));
    }
  }

  method AnyAbove<K(==,!new)>(counts: map<K, nat>, limit: nat, ghost events: seq<Event>,
                              ghost matches: K -> Event -> bool)
    returns (above: bool)
    requires Counts(counts, events, matches)
    ensures above <==> exists k :: Count(events, matches(k)) > limit
  {
    above := false;
    var todo := counts.Keys;
    while todo != {}
      invariant todo <= counts.Keys
      invariant above <==> exists k :: k in counts && k !in todo && counts[k] > limit
    {
      var k :| k in todo;
      if counts[k] > limit { above := true; }
      todo := todo - {k};
    }
    if exists k :: k in counts && k !in todo && counts[k] > limit {
      var k :| k in counts && k !in todo && counts[k] > limit;
      assert Count(events, matches(k)) > limit;
    }
  }

  method CheckTransfers(events: seq<Event>) returns (fired: bool)
    ensures fired <==> TransferredTwice(events)
  {
    var transferCounts: map<string, nat> := map[];
    for i := 0 to |events|
      invariant Counts(transferCounts, events[..i], TransferOf)
    {
      CountNext(transferCounts, events, i, TransferOf);
      if events[i].kind == Transfer {
        var tid := events[i].ticketId;
        transferCounts := transferCounts[tid := (if tid in transferCounts then transferCounts[tid] else 0) + 1];
      }
    }
    assert events[..|events|] == events;
    fired := AnyAbove(transferCounts, 1, events, TransferOf);
  }

  method CheckUserDay(events: seq<Event>) returns (fired: bool)
    ensures fired <==> SixPurchasesInADay(events)
  {
    var purchasesByUserDay: map<(string, int), nat> := map[];
    for i := 0 to |events|
      invariant Counts(purchasesByUserDay, events[..i], PurchaseOn)
    {
      CountNext(purchasesByUserDay, events, i, PurchaseOn);
      if events[i].kind == Purchase {
        var key := (events[i].user, events[i].time / DAY);
        purchasesByUserDay := purchasesByUserDay[key :=
          (if key in purchasesByUserDay then purchasesByUserDay[key] else 0) + 1];
      }
    }
    assert events[..|events|] == events;
    fired := AnyAbove(purchasesByUserDay, 5, events, PurchaseOn);
  }

  // ----- rule 1: bursts from one IP ---------------------------------------------------

  function Times(s: seq<Event>): seq<int> {
    seq(|s|, i requires 0 <= i < |s| => s[i].time)
  }

  function Within(start: int): int -> bool {
    (t: int) => 0 <= t - start <= IP_WINDOW
  }

  const AS_KEY: int -> real := (t: int) => t as real

  function SortedTimes(events: seq<Event>, ip: string): seq<int> {
    StableSort(Times(Select(events, PurchaseFrom(ip))), AS_KEY)
  }

  lemma {:induction false} CountOfTimes(events: seq<Event>, ip: string, start: int)
    ensures Count(Times(Select(events, PurchaseFrom(ip))), Within(start)) == Count(events, PurchaseWithin(ip, start))
  {
    if events != [] {
      var s, e := events[..|events| - 1], events[|events| - 1];
      CountOfTimes(s, ip, start);
      var t := Times(Select(s, PurchaseFrom(ip)));
      if PurchaseFrom(ip)(e) {
        assert Times(Select(events, PurchaseFrom(ip))) == t + [e.time];
        CountSnoc(t, e.time, Within(start));
      } else {
        assert Select(events, PurchaseFrom(ip)) == Select(s, PurchaseFrom(ip));
        assert !PurchaseWithin(ip, start)(e);
      }
    }
  }

  /** Counting in the sorted times is counting in the events. */
  lemma SortedCount(events: seq<Event>, ip: string, start: int)
    ensures Count(SortedTimes(events, ip), Within(start)) == Count(events, PurchaseWithin(ip, start))
  {
    var times := Times(Select(events, PurchaseFrom(ip)));
    StableSortSpec(times, AS_KEY);
    CountMonotone(times, SortedTimes(events, ip), Within(start));
    CountMonotone(SortedTimes(events, ip), times, Within(start));
    CountOfTimes(events, ip, start);
  }

  /** Moving a window up to its first element loses nothing, so it is enough to
      look at the windows that start at an element. */
  lemma {:induction false} AnchoredWindow(times: seq<int>, start: int) returns (i: nat)
    requires Count(times, Within(start)) > 0
    ensures i < |times| && Within(start)(times[i])
    ensures Count(times, Within(start)) <= Count(times, Within(times[i]))
  {
    i := FirstWithin(times, start);
    CountWeaker(times, Within(start), Within(times[i]));
  }

  lemma {:induction false} FirstWithin(times: seq<int>, start: int) returns (i: nat)
    requires Count(times, Within(start)) > 0
    ensures i < |times| && Within(start)(times[i])
    ensures forall t :: t in times && Within(start)(t) ==> times[i] <= t
  {
    var n := |times| - 1;
    assert times == times[..n] + [times[n]];
    if Count(times[..n], Within(start)) > 0 {
      i := FirstWithin(times[..n], start);
      if Within(start)(times[n]) && times[n] < times[i] { i := n; }
    } else {
      CountBound(times[..n], Within(start));
      i := n;
      forall t | t in times && Within(start)(t) ensures times[i] <= t {
        if t in times[..n] { NoneWithin(times[..n], start, t); }
      }
    }
  }

  lemma {:induction false} NoneWithin(times: seq<int>, start: int, t: int)
    requires Count(times, Within(start)) == 0 && t in times
    ensures !Within(start)(t)
  {
    var n := |times| - 1;
    if t != times[n] {
      assert times == times[..n] + [times[n]];
      NoneWithin(times[..n], start, t);
    }
  }

  /** `purchases_by_ip`: the purchase times of each IP in input order. */
  method GroupTimes(events: seq<Event>) returns (purchasesByIp: map<string, seq<int>>)
    ensures forall ip :: Times(Select(events, PurchaseFrom(ip)))
                      == if ip in purchasesByIp then purchasesByIp[ip] else []
  {
    purchasesByIp := map[];
    for i := 0 to |events|
      invariant forall ip :: Times(Select(events[..i], PurchaseFrom(ip)))
                          == if ip in purchasesByIp then purchasesByIp[ip] else []
    {
      var event := events[i];
      assert events[..i + 1] == events[..i] + [event];
      forall ip ensures Times(Select(events[..i + 1], PurchaseFrom(ip)))
                     == Times(Select(events[..i], PurchaseFrom(ip))) + if PurchaseFrom(ip)(event) then [event.time] else []
      {
        SelectSnoc(events[..i], event, PurchaseFrom(ip));
      }
      if event.kind == Purchase {
        var ip := event.ip;
        purchasesByIp := purchasesByIp[ip := (if ip in purchasesByIp then purchasesByIp[ip] else []) + [event.time]];
      }
    }
    assert events[..|events|] == events;
  }

  ghost predicate Bursts(events: seq<Event>, ip: string) {
    exists start :: Count(events, PurchaseWithin(ip, start)) >= 4
  }

  method CheckSameIp(events: seq<Event>) returns (fired: bool)
    ensures fired <==> SameIpBurst(events)
  {
    var purchasesByIp := GroupTimes(events);
    fired := false;
    var todo := purchasesByIp.Keys;
    while todo != {}
      invariant todo <= purchasesByIp.Keys
      invariant fired <==> exists ip :: ip in purchasesByIp && ip !in todo && Bursts(events, ip)
    {
      var ip :| ip in todo;
      var times := StableSort(purchasesByIp[ip], AS_KEY);
      assert times == SortedTimes(events, ip);
      var hit := ScanWindows(times);
      BurstInTimes(events, ip);
      if hit { fired := true; }
      todo := todo - {ip};
    }
    BurstIsSomeIpBursts(events, purchasesByIp);
  }

  lemma BurstInTimes(events: seq<Event>, ip: string)
    ensures Bursts(events, ip) <==> exists start :: Count(SortedTimes(events, ip), Within(start)) > 3
  {
    forall start ensures Count(events, PurchaseWithin(ip, start)) == Count(SortedTimes(events, ip), Within(start)) {
      SortedCount(events, ip, start);
    }
  }

  lemma BurstIsSomeIpBursts(events: seq<Event>, purchasesByIp: map<string, seq<int>>)
    requires forall ip :: Times(Select(events, PurchaseFrom(ip)))
                       == if ip in purchasesByIp then purchasesByIp[ip] else []
    ensures SameIpBurst(events) <==> exists ip :: ip in purchasesByIp && Bursts(events, ip)
  {
    if SameIpBurst(events) {
      var ip, start :| Count(events, PurchaseWithin(ip, start)) >= 4;
      CountOfTimes(events, ip, start);
      assert ip in purchasesByIp && Bursts(events, ip);
    }
  }

  /** The inner loop of the rule: one window per purchase. */
  method ScanWindows(times: seq<int>) returns (hit: bool)
    ensures hit <==> exists start :: Count(times, Within(start)) > 3
  {
    hit := false;
    for i := 0 to |times|
      invariant !hit
      invariant forall j :: 0 <= j < i ==> Count(times, Within(times[j])) <= 3
    {
      var window := Select(times, Within(times[i]));
      SelectIs(times, Within(times[i]));
      if |window| > 3 {
        return true;
      }
    }
    forall start ensures Count(times, Within(start)) <= 3 {
      if Count(times, Within(start)) > 3 {
        var i := AnchoredWindow(times, start);
      }
    }
  }

  // ----- rule 4: impossible travel ------------------------------------------------------

  predicate AdjacentFar(s: seq<Event>, i: nat)
    requires i + 1 < |s|
  {
    s[i].location != s[i + 1].location && s[i + 1].time - s[i].time <= TRAVEL_WINDOW
  }

  /** Between two places there is a neighbouring pair that changes place, and no
      neighbouring pair is further apart in time than the two ends. */
  lemma {:induction false} AdjacentBetween(s: seq<Event>, i: nat, j: nat) returns (k: nat)
    requires Ascending(s, BY_TIME)
    requires i <= j < |s| && s[i].location != s[j].location && s[j].time - s[i].time <= TRAVEL_WINDOW
    ensures i <= k < j && AdjacentFar(s, k)
    decreases j - i
  {
    assert BY_TIME(s[i]) <= BY_TIME(s[i + 1]) && (i + 1 < j ==> BY_TIME(s[i + 1]) <= BY_TIME(s[j]));
    if s[i].location != s[i + 1].location {
      k := i;
    } else {
      k := AdjacentBetween(s, i + 1, j);
    }
  }

  /** The all-pairs statement for one ticket. */
  ghost predicate Travels(events: seq<Event>, ticketId: string) {
    exists a, b :: a in events && b in events && FarApart(a, b) && a.ticketId == ticketId
  }

  ghost predicate SomeNeighboursFar(s: seq<Event>) {
    exists i :: 0 <= i < |s| - 1 && AdjacentFar(s, i)
  }

  /** Looking at neighbours in time order decides the question for all pairs,
      whatever the input order and however timestamps are tied. */
  lemma NeighboursDecideTravel(events: seq<Event>, ticketId: string)
    ensures SomeNeighboursFar(ScansInOrder(events, ticketId)) <==> Travels(events, ticketId)
  {
    var scans := ScansInOrder(events, ticketId);
    ScansInOrderSpec(events, ticketId);
    if SomeNeighboursFar(scans) {
      var i :| 0 <= i < |scans| - 1 && AdjacentFar(scans, i);
      assert BY_TIME(scans[i]) <= BY_TIME(scans[i + 1]);
      assert scans[i] in scans && scans[i + 1] in scans;
      assert FarApart(scans[i], scans[i + 1]);
    } else {
      forall a, b | a in events && b in events && FarApart(a, b) ensures a.ticketId != ticketId {
        if a.ticketId == ticketId {
          assert a in scans && b in scans;
          NoFarPair(scans, a, b);
        }
      }
    }
  }

  method CheckTravel(events: seq<Event>) returns (fired: bool)
    ensures fired <==> ImpossibleTravel(events)
  {
    var scansByTicket := GroupScans(events);
    fired := false;
    var todo := scansByTicket.Keys;
    while todo != {}
      invariant todo <= scansByTicket.Keys
      invariant fired <==> exists t :: t in scansByTicket && t !in todo && Travels(events, t)
    {
      var tid :| tid in todo;
      var scans := StableSort(scansByTicket[tid], BY_TIME);
      assert scans == ScansInOrder(events, tid);
      NeighboursDecideTravel(events, tid);
      var hit := ScanNeighbours(scans);
      if hit { fired := true; }
      todo := todo - {tid};
    }
    TravelIsSomeTicketTravels(events, scansByTicket);
  }

  lemma TravelIsSomeTicketTravels(events: seq<Event>, groups: map<string, seq<Event>>)
    requires forall t :: t in groups <==> Select(events, ScanOf(t)) != []
    ensures ImpossibleTravel(events) <==> exists t :: t in groups && Travels(events, t)
  {
    if ImpossibleTravel(events) {
      var a, b :| a in events && b in events && FarApart(a, b);
      SelectIs(events, ScanOf(a.ticketId));
      assert a in Select(events, ScanOf(a.ticketId));
      assert Travels(events, a.ticketId);
    }
  }

  lemma NoFarPair(s: seq<Event>, a: Event, b: Event)
    requires Ascending(s, BY_TIME) && forall i :: 0 <= i < |s| - 1 ==> !AdjacentFar(s, i)
    requires a in s && b in s
    ensures !FarApart(a, b)
  {
    if FarApart(a, b) {
      var i :| 0 <= i < |s| && s[i] == a;
      var j :| 0 <= j < |s| && s[j] == b;
      if i <= j {
        var k := AdjacentBetween(s, i, j);
      } else {
        assert BY_TIME(s[j]) <= BY_TIME(s[i]);
        var k := AdjacentBetween(s, j, i);
      }
    }
  }

  method ScanNeighbours(scans: seq<Event>) returns (hit: bool)
    ensures hit <==> SomeNeighboursFar(scans)
  {
    var i := 0;
    while i + 1 < |scans|
      invariant forall j :: 0 <= j < i && j + 1 < |scans| ==> !AdjacentFar(scans, j)
    {
      if scans[i].location != scans[i + 1].location && scans[i + 1].time - scans[i].time <= TRAVEL_WINDOW {
        assert AdjacentFar(scans, i);
        return true;
      }
      i := i + 1;
    }
    return false;
  }
}

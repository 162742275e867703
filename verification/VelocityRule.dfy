/** The stand-alone velocity check (src/velocity_rule.py) and how it relates to
    the impossible-travel rule of `Fraud`. */
module VelocityRule {
  import opened Wrappers
  import opened Sorting
  import opened Counting
  import opened Durations
  import opened FraudEvents
  import opened Fraud

  const IMPOSSIBLE_TRAVEL_WINDOW_SECONDS := 1800

  predicate Named(e: Event) { e.location.Some? && e.location.value != "" }

  predicate NamedNeighbours(s: seq<Event>, i: nat, windowSeconds: int)
    requires i + 1 < |s|
  {
    Named(s[i]) && Named(s[i + 1]) && s[i].location != s[i + 1].location
    && s[i + 1].time - s[i].time <= windowSeconds * SECOND
  }

  /** What the check reports: neighbours in time order at two named places. */
  ghost predicate Velocity(events: seq<Event>, windowSeconds: int) {
    exists tid, i :: 0 <= i < |ScansInOrder(events, tid)| - 1
                  && NamedNeighbours(ScansInOrder(events, tid), i, windowSeconds)
  }

  method CheckVelocityImpossibleLocations(events: seq<Event>, windowSeconds: int) returns (r: bool)
    ensures r <==> Velocity(events, windowSeconds)
  {
    var scansByTicket := GroupScans(events);
    var todo := scansByTicket.Keys;
    while todo != {}
      invariant todo <= scansByTicket.Keys
      invariant forall tid, i :: tid in scansByTicket && tid !in todo && 0 <= i < |ScansInOrder(events, tid)| - 1 ==>
                  !NamedNeighbours(ScansInOrder(events, tid), i, windowSeconds)
    {
      var tid :| tid in todo;
      var scans := StableSort(scansByTicket[tid], BY_TIME);
      var i := 0;
      while i + 1 < |scans|
        invariant forall j :: 0 <= j < i && j + 1 < |scans| ==> !NamedNeighbours(scans, j, windowSeconds)
      {
        if Named(scans[i]) && Named(scans[i + 1]) && scans[i].location != scans[i + 1].location {
          if scans[i + 1].time - scans[i].time <= windowSeconds * SECOND {
            assert NamedNeighbours(ScansInOrder(events, tid), i, windowSeconds);
            return true;
          }
        }
        i := i + 1;
      }
      todo := todo - {tid};
    }
    return false;
  }

  /** With its default window the check never reports more than the fraud rule. */
  lemma VelocityImpliesTravel(events: seq<Event>)
    requires Velocity(events, IMPOSSIBLE_TRAVEL_WINDOW_SECONDS)
    ensures ImpossibleTravel(events)
  {
    var tid, i :| 0 <= i < |ScansInOrder(events, tid)| - 1
      && NamedNeighbours(ScansInOrder(events, tid), i, IMPOSSIBLE_TRAVEL_WINDOW_SECONDS);
    var scans := ScansInOrder(events, tid);
    ScansInOrderSpec(events, tid);
    assert BY_TIME(scans[i]) <= BY_TIME(scans[i + 1]);
    assert scans[i] in scans && scans[i + 1] in scans;
    assert FarApart(scans[i], scans[i + 1]);
  }

  /** When every scan names its place, the neighbour check decides the question
      for all pairs: some ticket was scanned at two places too close in time. */
  lemma VelocityIsTravelWhenNamed(events: seq<Event>)
    requires forall e :: e in events && e.kind == Scan ==> Named(e)
    ensures Velocity(events, IMPOSSIBLE_TRAVEL_WINDOW_SECONDS) <==> ImpossibleTravel(events)
  {
    if ImpossibleTravel(events) {
      var a, b :| a in events && b in events && FarApart(a, b);
      var scans := ScansInOrder(events, a.ticketId);
      ScansInOrderSpec(events, a.ticketId);
      NeighboursDecideTravel(events, a.ticketId);
      var k :| 0 <= k < |scans| - 1 && AdjacentFar(scans, k);
      assert scans[k] in scans && scans[k + 1] in scans;
      assert NamedNeighbours(scans, k, IMPOSSIBLE_TRAVEL_WINDOW_SECONDS);
    }
    if Velocity(events, IMPOSSIBLE_TRAVEL_WINDOW_SECONDS) { VelocityImpliesTravel(events); }
  }

  function ScanAt(place: Option<string>): Event {
    Event(Scan, "", "", "t", 0, place, 0.0, 0.0)
  }

  /** Without that condition the check even depends on the order of its input:
      of three simultaneous scans, one without a place, the nameless one hides
      the other two exactly when it is listed between them. */
  lemma VelocityDependsOnOrder()
    ensures var a, x, b := ScanAt(Some("A")), ScanAt(None), ScanAt(Some("B"));
      Velocity([a, b, x], 1800) && !Velocity([a, x, b], 1800)
  {
    var a, x, b := ScanAt(Some("A")), ScanAt(None), ScanAt(Some("B"));
    forall tid
      ensures ScansInOrder([a, b, x], tid) == if tid == "t" then [a, b, x] else []
      ensures ScansInOrder([a, x, b], tid) == if tid == "t" then [a, x, b] else []
    {
      SimultaneousScans(a, b, x, tid);
      SimultaneousScans(a, x, b, tid);
    }
    assert |"A"| == 1 && "A"[0] != "B"[0];
    assert NamedNeighbours(ScansInOrder([a, b, x], "t"), 0, 1800);
  }

  lemma SimultaneousScans(p: Event, q: Event, r: Event, tid: string)
    requires p.kind == q.kind == r.kind == Scan && p.time == q.time == r.time
    requires p.ticketId == q.ticketId == r.ticketId == "t"
    ensures ScansInOrder([p, q, r], tid) == if tid == "t" then [p, q, r] else []
  {
    SelectThree(p, q, r, ScanOf(tid));
    SortThreeTied(p, q, r);
  }

  lemma SelectThree(p: Event, q: Event, r: Event, want: Event -> bool)
    requires want(p) == want(q) == want(r)
    ensures Select([p, q, r], want) == if want(p) then [p, q, r] else []
  {
    SelectSnoc([], p, want);
    SelectSnoc([p], q, want);
    SelectSnoc([p, q], r, want);
    assert [p, q, r] == [p, q] + [r] && [p, q] == [p] + [q] && [p] == [] + [p];
  }

  lemma SortThreeTied(p: Event, q: Event, r: Event)
    requires p.time == q.time == r.time
    ensures StableSort([p, q, r], BY_TIME) == [p, q, r]
  {
    assert [p, q, r][1..] == [q, r] && [q, r][1..] == [r];
    assert StableSort([r], BY_TIME) == [r];
    assert StableSort([q, r], BY_TIME) == [q, r];
  }
}

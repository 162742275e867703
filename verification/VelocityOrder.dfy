/** When the verdict of the velocity check depends on the order of its input. */
module VelocityOrder {
  import opened Sorting
  import opened Counting
  import opened Durations
  import opened FraudEvents
  import opened VelocityRule

  /** Two scans of a ticket at different named places, close in time, and no scan
      of the ticket at a time strictly between them. */
  ghost predicate Unseparated(events: seq<Event>, x: Event, y: Event, windowSeconds: int) {
    && x in events && y in events && x.kind == y.kind == Scan && x.ticketId == y.ticketId
    && x.location.Some? && y.location.Some? && x.location.value != "" && y.location.value != "" && x.location != y.location
    && x.time <= y.time && y.time - x.time <= windowSeconds * SECOND
    && forall z :: z in events && ScanOf(x.ticketId)(z) ==> !(x.time < z.time < y.time)
  }

  ghost predicate SomeUnseparated(events: seq<Event>, windowSeconds: int) {
    exists x, y :: Unseparated(events, x, y, windowSeconds)
  }

  /** No scan without a place shares its time with a scan of its ticket that has one. */
  ghost predicate TiesAgreeOnNaming(events: seq<Event>) {
    forall e, f :: e in events && f in events && e.kind == f.kind == Scan && e.ticketId == f.ticketId && e.time == f.time
      ==> Named(e) == Named(f)
  }

  // ----- a report always means such a pair -------------------------------------------

  lemma ReportMeansUnseparated(events: seq<Event>, windowSeconds: int)
    requires Velocity(events, windowSeconds)
    ensures SomeUnseparated(events, windowSeconds)
  {
    var tid, i :| 0 <= i < |ScansInOrder(events, tid)| - 1
               && NamedNeighbours(ScansInOrder(events, tid), i, windowSeconds);
    var s := ScansInOrder(events, tid);
    ScansInOrderSpec(events, tid);
    assert s[i] in s && s[i + 1] in s;
    assert BY_TIME(s[i]) <= BY_TIME(s[i + 1]);
    forall z | z in events && ScanOf(tid)(z) ensures !(s[i].time < z.time < s[i + 1].time) {
      assert z in s;
      var m :| 0 <= m < |s| && s[m] == z;
      InOrder(s, m, i);
      InOrder(s, i + 1, m);
    }
    assert Unseparated(events, s[i], s[i + 1], windowSeconds);
  }

  lemma InOrder(s: seq<Event>, i: nat, j: nat)
    requires Ascending(s, BY_TIME) && i < |s| && j < |s|
    ensures i <= j ==> s[i].time <= s[j].time
  {
    if i < j { assert BY_TIME(s[i]) <= BY_TIME(s[j]); }
  }

  // ----- and such a pair a report, unless ties can hide it --------------------------------

  /** Between two places there are neighbours that change place. */
  lemma {:induction false} NamedBetween(s: seq<Event>, i: nat, j: nat, windowSeconds: int) returns (k: nat)
    requires Ascending(s, BY_TIME) && i <= j < |s|
    requires forall m :: i <= m <= j ==> Named(s[m])
    requires s[i].location != s[j].location && s[j].time - s[i].time <= windowSeconds * SECOND
    ensures i <= k < j && NamedNeighbours(s, k, windowSeconds)
    decreases j - i
  {
    InOrder(s, i, i + 1);
    InOrder(s, i + 1, j);
    if s[i].location != s[i + 1].location {
      k := i;
    } else {
      k := NamedBetween(s, i + 1, j, windowSeconds);
    }
  }

  lemma UnseparatedMeansReport(events: seq<Event>, windowSeconds: int)
    requires TiesAgreeOnNaming(events) && SomeUnseparated(events, windowSeconds)
    ensures Velocity(events, windowSeconds)
  {
    var x, y :| Unseparated(events, x, y, windowSeconds);
    var s := ScansInOrder(events, x.ticketId);
    ScansInOrderSpec(events, x.ticketId);
    assert x in s && y in s;
    var p :| 0 <= p < |s| && s[p] == x;
    var q :| 0 <= q < |s| && s[q] == y;
    InOrder(s, q, p);
    var k := ReportedBetween(events, s, windowSeconds, x, y, if p < q then p else q, if p < q then q else p);
  }

  /** Whatever stands between the two in time order ties with one of them. */
  lemma ReportedBetween(events: seq<Event>, s: seq<Event>, windowSeconds: int, x: Event, y: Event, i: nat, j: nat)
    returns (k: nat)
    requires TiesAgreeOnNaming(events) && Unseparated(events, x, y, windowSeconds)
    requires Ascending(s, BY_TIME) && forall e :: e in s ==> e in events && ScanOf(x.ticketId)(e)
    requires i <= j < |s| && x.time <= s[i].time && s[j].time <= y.time
    requires (s[i] == x && s[j] == y) || (s[i] == y && s[j] == x)
    ensures i <= k < j && NamedNeighbours(s, k, windowSeconds)
  {
    assert Named(x) && Named(y);
    forall m | i <= m <= j ensures Named(s[m]) {
      assert s[m] in s;
      InOrder(s, i, m);
      InOrder(s, m, j);
      assert s[m].time == x.time || s[m].time == y.time;
    }
    k := NamedBetween(s, i, j, windowSeconds);
  }

  /** Unless a scan without a place ties with one that has a place, the check
      reports exactly the unseparated pairs, whatever the order of the events. */
  lemma VelocityIgnoresOrder(a: seq<Event>, b: seq<Event>, windowSeconds: int)
    requires multiset(a) == multiset(b) && TiesAgreeOnNaming(a)
    ensures Velocity(a, windowSeconds) <==> SomeUnseparated(a, windowSeconds)
    ensures Velocity(a, windowSeconds) <==> Velocity(b, windowSeconds)
  {
    SameElements(a, b);
    UnseparatedIgnoresOrder(a, b, windowSeconds);
    if Velocity(a, windowSeconds) { ReportMeansUnseparated(a, windowSeconds); }
    if Velocity(b, windowSeconds) { ReportMeansUnseparated(b, windowSeconds); }
    if SomeUnseparated(a, windowSeconds) {
      UnseparatedMeansReport(a, windowSeconds);
      UnseparatedMeansReport(b, windowSeconds);
    }
  }

  lemma UnseparatedIgnoresOrder(a: seq<Event>, b: seq<Event>, windowSeconds: int)
    requires forall e :: e in a <==> e in b
    ensures SomeUnseparated(a, windowSeconds) <==> SomeUnseparated(b, windowSeconds)
  {
    if x, y :| Unseparated(a, x, y, windowSeconds) { assert Unseparated(b, x, y, windowSeconds); }
    if x, y :| Unseparated(b, x, y, windowSeconds) { assert Unseparated(a, x, y, windowSeconds); }
  }

  // ----- some listing reports -----------------------------------------------------------------

  function UpTo(time: int): Event -> bool { (e: Event) => e.time <= time }

  lemma Without(s: seq<Event>, x: Event) returns (r: seq<Event>)
    requires x in s
    ensures multiset(r) + multiset{x} == multiset(s)
    ensures forall e :: e in r ==> e in s
    ensures forall e :: e in s && e != x ==> e in r
  {
    var k :| 0 <= k < |s| && s[k] == x;
    r := s[..k] + s[k + 1..];
    assert s == s[..k] + [x] + s[k + 1..];
  }

  /** The listing that puts `x` behind everything of its time and `y` right after it. */
  lemma SideBySide(events: seq<Event>, x: Event, y: Event, windowSeconds: int) returns (listing: seq<Event>)
    requires Unseparated(events, x, y, windowSeconds)
    ensures multiset(listing) == multiset(events) && Velocity(listing, windowSeconds)
  {
    var others := Without(events, x);
    var rest := Without(others, y);
    var before, after := Select(rest, UpTo(x.time)), Select(rest, Not(UpTo(x.time)));
    listing := before + ([x, y] + after);
    SelectSplits(rest, UpTo(x.time));
    PutTogether(before, x, y, after, rest, others, events);
    SelectIs(rest, UpTo(x.time));
    SelectIs(rest, Not(UpTo(x.time)));
    PairStaysTogether(before, x, y, after, windowSeconds);
  }

  lemma PutTogether(before: seq<Event>, x: Event, y: Event, after: seq<Event>,
                    rest: seq<Event>, others: seq<Event>, events: seq<Event>)
    requires multiset(before) + multiset(after) == multiset(rest)
    requires multiset(rest) + multiset{y} == multiset(others) && multiset(others) + multiset{x} == multiset(events)
    ensures multiset(before + ([x, y] + after)) == multiset(events)
  {
    assert multiset([x, y]) == multiset{x} + multiset{y};
  }

  lemma PairStaysTogether(before: seq<Event>, x: Event, y: Event, after: seq<Event>, windowSeconds: int)
    requires x.kind == y.kind == Scan && x.ticketId == y.ticketId && x.time <= y.time
    requires Named(x) && Named(y) && x.location != y.location && y.time - x.time <= windowSeconds * SECOND
    requires forall e :: e in before && ScanOf(x.ticketId)(e) ==> e.time <= x.time
    requires forall e :: e in after && ScanOf(x.ticketId)(e) ==> e.time >= y.time
    ensures Velocity(before + ([x, y] + after), windowSeconds)
  {
    var tid := x.ticketId;
    var s, sa, sb := SortedAround(before, x, y, after);
    assert s[|sa|] == x && s[|sa| + 1] == y;
    assert NamedNeighbours(s, |sa|, windowSeconds);
  }

  lemma SortedAround(before: seq<Event>, x: Event, y: Event, after: seq<Event>)
    returns (s: seq<Event>, sa: seq<Event>, sb: seq<Event>)
    requires x.kind == y.kind == Scan && x.ticketId == y.ticketId && x.time <= y.time
    requires forall e :: e in before && ScanOf(x.ticketId)(e) ==> e.time <= x.time
    requires forall e :: e in after && ScanOf(x.ticketId)(e) ==> e.time >= y.time
    ensures s == ScansInOrder(before + ([x, y] + after), x.ticketId) == sa + ([x, y] + sb)
  {
    var tid := x.ticketId;
    var a, b := Select(before, ScanOf(tid)), Select(after, ScanOf(tid));
    SelectAround(before, x, y, after, ScanOf(tid));
    SelectIs(before, ScanOf(tid));
    SelectIs(after, ScanOf(tid));
    s, sa, sb := ScansInOrder(before + ([x, y] + after), tid), StableSort(a, BY_TIME), StableSort(b, BY_TIME);
    SortAround(a, x, y, b);
  }

  lemma SelectAround(before: seq<Event>, x: Event, y: Event, after: seq<Event>, p: Event -> bool)
    requires p(x) && p(y)
    ensures Select(before + ([x, y] + after), p) == Select(before, p) + ([x, y] + Select(after, p))
  {
    SelectConcat(before, [x, y] + after, p);
    SelectConcat([x, y], after, p);
    SelectTwo(x, y, p);
  }

  lemma SortAround(a: seq<Event>, x: Event, y: Event, b: seq<Event>)
    requires x.time <= y.time
    requires forall e :: e in a ==> e.time <= x.time
    requires forall e :: e in b ==> e.time >= y.time
    ensures StableSort(a + ([x, y] + b), BY_TIME) == StableSort(a, BY_TIME) + ([x, y] + StableSort(b, BY_TIME))
  {
    SortOfBlocks(a, [x, y] + b, BY_TIME);
    SortOfBlocks([x, y], b, BY_TIME);
    SortOfSorted([x, y], BY_TIME);
  }

  lemma SelectTwo(x: Event, y: Event, p: Event -> bool)
    requires p(x) && p(y)
    ensures Select([x, y], p) == [x, y]
  {
    SelectSnoc([], x, p);
    SelectSnoc([x], y, p);
    assert [x, y] == [x] + [y] && [x] == [] + [x];
  }

  /** Some listing of the events is reported if and only if there is an
      unseparated pair: whatever hides such a pair ties with it. */
  lemma SomeListingIsReported(events: seq<Event>, windowSeconds: int)
    ensures (exists listing :: multiset(listing) == multiset(events) && Velocity(listing, windowSeconds))
       <==> SomeUnseparated(events, windowSeconds)
  {
    if listing :| multiset(listing) == multiset(events) && Velocity(listing, windowSeconds) {
      ReportMeansUnseparated(listing, windowSeconds);
      SameElements(listing, events);
      UnseparatedIgnoresOrder(listing, events, windowSeconds);
    }
    if x, y :| Unseparated(events, x, y, windowSeconds) {
      var listing := SideBySide(events, x, y, windowSeconds);
    }
  }
}

/** When the velocity check can be made to report nothing by the order of its input,
    and with `VelocityOrder` exactly when that order matters. */
module VelocityHiding {
  import opened Wrappers
  import opened Sorting
  import opened Counting
  import opened Durations
  import opened FraudEvents
  import opened VelocityRule
  import opened VelocityOrder
  import opened VelocityBlocks

  /** The scans of a ticket at one time. */
  function AtOf(ticketId: string, time: int): Event -> bool {
    (e: Event) => e.kind == Scan && e.ticketId == ticketId && e.time == time
  }

  function OfTime(time: int): Event -> bool { (e: Event) => e.time == time }

  /** For each ticket and time the place at one end, `None` for a nameless scan. */
  type Ends = (string, int) -> Option<string>

  /** Two times of a ticket with no scan of it in between. */
  ghost predicate Consecutive(events: seq<Event>, e: Event, f: Event) {
    && e in events && f in events && e.kind == f.kind == Scan && e.ticketId == f.ticketId && e.time < f.time
    && forall z :: z in events && ScanOf(e.ticketId)(z) ==> !(e.time < z.time < f.time)
  }

  predicate Joins(last: Option<string>, first: Option<string>) {
    last.None? || first.None? || last == first
  }

  /** The simultaneous scans of each ticket have enough nameless ones for these ends,
      and where consecutive times lie within the window the ends do not clash. */
  ghost predicate EndsFit(events: seq<Event>, windowSeconds: int, first: Ends, last: Ends) {
    && (forall e :: e in events && e.kind == Scan ==>
          Affordable(Select(events, AtOf(e.ticketId, e.time)), first(e.ticketId, e.time), last(e.ticketId, e.time)))
    && (forall e, f :: Consecutive(events, e, f) && f.time - e.time <= windowSeconds * SECOND ==>
          Joins(last(e.ticketId, e.time), first(f.ticketId, f.time)))
  }

  ghost predicate Hideable(events: seq<Event>, windowSeconds: int) {
    exists first: Ends, last: Ends :: EndsFit(events, windowSeconds, first, last)
  }

  // ----- the sorted scans of a ticket as blocks of simultaneous ones -----------------------

  lemma {:induction false} TiedIsSelect(s: seq<Event>, time: int)
    ensures Tied(s, BY_TIME, time as real) == Select(s, OfTime(time))
  {
    if s != [] {
      var n := |s| - 1;
      TiedIsSelect(s[..n], time);
      TiedConcat(s[..n], [s[n]], BY_TIME, time as real);
      assert s == s[..n] + [s[n]] && [s[n]][1..] == [];
    }
  }

  lemma BlockIs(events: seq<Event>, ticketId: string, time: int)
    ensures Tied(ScansInOrder(events, ticketId), BY_TIME, time as real) == Select(events, AtOf(ticketId, time))
  {
    var scans := Select(events, ScanOf(ticketId));
    StableSortSpec(scans, BY_TIME);
    TiedIsSelect(scans, time);
    SelectTwice(events, ScanOf(ticketId), OfTime(time), AtOf(ticketId, time));
  }

  /** The sorted scans: those before a time, the block of that time, those after. */
  lemma SplitAtTime(events: seq<Event>, ticketId: string, time: int) returns (before: seq<Event>, after: seq<Event>)
    ensures ScansInOrder(events, ticketId) == before + Select(events, AtOf(ticketId, time)) + after
    ensures forall x :: x in before ==> x.time < time
    ensures forall x :: x in after ==> x.time > time
  {
    ScansInOrderSpec(events, ticketId);
    BlockIs(events, ticketId, time);
    before, after := TiedIsBlock(ScansInOrder(events, ticketId), BY_TIME, time as real);
    assert forall x :: x in before ==> BY_TIME(x) < time as real;
    assert forall x :: x in after ==> BY_TIME(x) > time as real;
  }

  lemma WhereInThree(a: seq<Event>, b: seq<Event>, c: seq<Event>, i: nat)
    requires i < |a + b + c|
    ensures i < |a| ==> (a + b + c)[i] in a
    ensures |a| <= i < |a| + |b| ==> (a + b + c)[i] == b[i - |a|] && (a + b + c)[i] in b
    ensures i >= |a| + |b| ==> (a + b + c)[i] in c
  {
  }

  /** Where a scan of that time stands. */
  lemma InItsBlock(s: seq<Event>, before: seq<Event>, block: seq<Event>, after: seq<Event>, time: int, i: nat)
    requires s == before + block + after && i < |s| && s[i].time == time
    requires forall x :: x in before ==> x.time < time
    requires forall x :: x in after ==> x.time > time
    ensures |before| <= i < |before| + |block| && s[i] == block[i - |before|]
  {
    WhereInThree(before, block, after, i);
  }

  // ----- an order that reports nothing has such ends --------------------------------------------

  lemma QuietBlockIsCalm(events: seq<Event>, windowSeconds: int, ticketId: string, time: int)
    requires windowSeconds >= 0 && !Velocity(events, windowSeconds)
    ensures Calm(Select(events, AtOf(ticketId, time)))
  {
    var s, block := ScansInOrder(events, ticketId), Select(events, AtOf(ticketId, time));
    var before, after := SplitAtTime(events, ticketId, time);
    SelectIs(events, AtOf(ticketId, time));
    forall i | 0 <= i < |block| - 1 ensures !Clash(block[i], block[i + 1]) {
      var k := |before| + i;
      assert s[k] == block[i] && s[k + 1] == block[i + 1];
      assert block[i] in block && block[i + 1] in block;
      assert !NamedNeighbours(s, k, windowSeconds);
    }
  }

  /** The last scan of a time and the first of the next are neighbours. */
  lemma QuietBlocksJoin(events: seq<Event>, windowSeconds: int, e: Event, f: Event)
    requires !Velocity(events, windowSeconds) && Consecutive(events, e, f)
    requires f.time - e.time <= windowSeconds * SECOND
    ensures Joins(LastEnd(Select(events, AtOf(e.ticketId, e.time))), FirstEnd(Select(events, AtOf(f.ticketId, f.time))))
  {
    var tid := e.ticketId;
    var s, a, b := ScansInOrder(events, tid), Select(events, AtOf(tid, e.time)), Select(events, AtOf(tid, f.time));
    var k := NeighbouringBlocks(events, e, f);
    SelectIs(events, AtOf(tid, e.time));
    SelectIs(events, AtOf(tid, f.time));
    assert a[|a| - 1] in a && b[0] in b;
    QuietNeighbours(s, k, windowSeconds);
  }

  lemma QuietNeighbours(s: seq<Event>, k: nat, windowSeconds: int)
    requires k + 1 < |s| && !NamedNeighbours(s, k, windowSeconds)
    requires s[k + 1].time - s[k].time <= windowSeconds * SECOND
    ensures !Clash(s[k], s[k + 1])
  {
  }

  lemma NeighbouringBlocks(events: seq<Event>, e: Event, f: Event) returns (k: nat)
    requires Consecutive(events, e, f)
    ensures var s, a, b := ScansInOrder(events, e.ticketId), Select(events, AtOf(e.ticketId, e.time)),
                           Select(events, AtOf(e.ticketId, f.time));
            a != [] && b != [] && k < |s| - 1 && s[k] == a[|a| - 1] && s[k + 1] == b[0]
  {
    var tid := e.ticketId;
    var s, a, b := ScansInOrder(events, tid), Select(events, AtOf(tid, e.time)), Select(events, AtOf(tid, f.time));
    SelectIs(events, AtOf(tid, e.time));
    SelectIs(events, AtOf(tid, f.time));
    assert e in a && f in b;
    var before, after := SplitAtTime(events, tid, e.time);
    var before', after' := SplitAtTime(events, tid, f.time);
    k := |before| + |a| - 1;
    assert a[|a| - 1] in a && s[k] == a[|a| - 1];
    ScansInOrderSpec(events, tid);
    NextIsFirst(events, e, f, s, before, a, after, before', b, after');
  }

  lemma NextIsFirst(events: seq<Event>, e: Event, f: Event, s: seq<Event>, before: seq<Event>, a: seq<Event>,
                    after: seq<Event>, before': seq<Event>, b: seq<Event>, after': seq<Event>)
    requires Consecutive(events, e, f) && a != [] && b != []
    requires forall x :: x in s ==> x in events && ScanOf(e.ticketId)(x)
    requires s == before + a + after == before' + b + after'
    requires forall x :: x in before || x in a ==> x.time <= e.time
    requires forall x :: x in after ==> x.time > e.time
    requires forall x :: x in before' ==> x.time < f.time
    requires forall x :: x in b || x in after' ==> x.time >= f.time
    ensures |before'| == |before| + |a| && s[|before'|] == b[0]
  {
    var n, n' := |before| + |a|, |before'|;
    WhereInThree(before', b, after', n');
    WhereInThree(before, a, after, n');
    assert n <= n';
    WhereInThree(before', b, after', n);
    WhereInThree(before, a, after, n);
    assert s[n] in s;
  }

  lemma QuietOrderHasEnds(events: seq<Event>, listing: seq<Event>, windowSeconds: int)
    requires windowSeconds >= 0 && multiset(listing) == multiset(events) && !Velocity(listing, windowSeconds)
    ensures Hideable(events, windowSeconds)
  {
    var first: Ends := (ticketId: string, time: int) => FirstEnd(Select(listing, AtOf(ticketId, time)));
    var last: Ends := (ticketId: string, time: int) => LastEnd(Select(listing, AtOf(ticketId, time)));
    SameElements(listing, events);
    forall e | e in events && e.kind == Scan
      ensures Affordable(Select(events, AtOf(e.ticketId, e.time)), first(e.ticketId, e.time), last(e.ticketId, e.time))
    {
      var here := AtOf(e.ticketId, e.time);
      QuietBlockIsCalm(listing, windowSeconds, e.ticketId, e.time);
      CalmEndsAreAffordable(Select(listing, here));
      SelectIgnoresOrder(listing, events, here);
      AffordableIgnoresOrder(Select(listing, here), Select(events, here), first(e.ticketId, e.time), last(e.ticketId, e.time));
    }
    forall e, f | Consecutive(events, e, f) && f.time - e.time <= windowSeconds * SECOND
      ensures Joins(last(e.ticketId, e.time), first(f.ticketId, f.time))
    {
      assert Consecutive(listing, e, f);
      QuietBlocksJoin(listing, windowSeconds, e, f);
    }
    assert EndsFit(events, windowSeconds, first, last);
  }

  // ----- such ends give an order that reports nothing ----------------------------------------------

  type Blocks = (string, int) -> seq<Event>

  /** A listing in which the simultaneous scans of each ticket come in a given order. */
  lemma {:induction false} Arrange(events: seq<Event>, blocks: Blocks) returns (listing: seq<Event>)
    requires forall ticketId, time :: multiset(blocks(ticketId, time)) == multiset(Select(events, AtOf(ticketId, time)))
    ensures multiset(listing) == multiset(events)
    ensures forall ticketId, time :: Select(listing, AtOf(ticketId, time)) == blocks(ticketId, time)
    decreases |events|
  {
    if e :| e in events && e.kind == Scan {
      listing := ArrangeAfter(events, blocks, e);
    } else {
      listing := events;
      forall ticketId, time ensures Select(listing, AtOf(ticketId, time)) == blocks(ticketId, time) {
        SelectAllOrNone(events, AtOf(ticketId, time));
        assert |multiset(blocks(ticketId, time))| == 0;
      }
    }
  }

  lemma {:induction false} ArrangeAfter(events: seq<Event>, blocks: Blocks, e: Event) returns (listing: seq<Event>)
    requires forall ticketId, time :: multiset(blocks(ticketId, time)) == multiset(Select(events, AtOf(ticketId, time)))
    requires e in events && e.kind == Scan
    ensures multiset(listing) == multiset(events)
    ensures forall ticketId, time :: Select(listing, AtOf(ticketId, time)) == blocks(ticketId, time)
    decreases |events|, 0
  {
    var here := AtOf(e.ticketId, e.time);
    var block, rest := blocks(e.ticketId, e.time), Select(events, Not(here));
    var others: Blocks := (ticketId: string, time: int) =>
      if ticketId == e.ticketId && time == e.time then [] else blocks(ticketId, time);
    RestIsShorter(events, here, e);
    forall ticketId, time ensures multiset(others(ticketId, time)) == multiset(Select(rest, AtOf(ticketId, time))) {
      RestAt(events, here, e, ticketId, time);
    }
    var tail := Arrange(rest, others);
    listing := block + tail;
    SelectSplits(events, here);
    forall ticketId, time ensures Select(listing, AtOf(ticketId, time)) == blocks(ticketId, time) {
      JoinedAt(events, e, block, tail, ticketId, time);
    }
  }

  lemma RestIsShorter(events: seq<Event>, here: Event -> bool, e: Event)
    requires e in events && here(e)
    ensures |Select(events, Not(here))| < |events|
  {
    SelectSplits(events, here);
    SelectIs(events, here);
    var chosen, rest := Select(events, here), Select(events, Not(here));
    assert e in chosen;
    assert multiset(chosen + rest) == multiset(events);
    SameElements(chosen + rest, events);
  }

  lemma JoinedAt(events: seq<Event>, e: Event, block: seq<Event>, tail: seq<Event>, ticketId: string, time: int)
    requires multiset(block) == multiset(Select(events, AtOf(e.ticketId, e.time)))
    ensures Select(block + tail, AtOf(ticketId, time))
         == (if ticketId == e.ticketId && time == e.time then block else []) + Select(tail, AtOf(ticketId, time))
  {
    SelectIs(events, AtOf(e.ticketId, e.time));
    SameElements(block, Select(events, AtOf(e.ticketId, e.time)));
    SelectConcat(block, tail, AtOf(ticketId, time));
    SelectAllOrNone(block, AtOf(ticketId, time));
  }

  lemma RestAt(events: seq<Event>, here: Event -> bool, e: Event, ticketId: string, time: int)
    requires here == AtOf(e.ticketId, e.time)
    ensures Select(Select(events, Not(here)), AtOf(ticketId, time))
         == if ticketId == e.ticketId && time == e.time then [] else Select(events, AtOf(ticketId, time))
  {
    if ticketId == e.ticketId && time == e.time {
      SelectIs(events, Not(here));
      SelectAllOrNone(Select(events, Not(here)), AtOf(ticketId, time));
    } else {
      SelectTwice(events, Not(here), AtOf(ticketId, time), AtOf(ticketId, time));
    }
  }

  /** The order chosen for one block. */
  ghost predicate IsLayout(events: seq<Event>, first: Ends, last: Ends, ticketId: string, time: int, r: seq<Event>) {
    multiset(r) == multiset(Select(events, AtOf(ticketId, time))) && Laid(r, first(ticketId, time), last(ticketId, time))
  }

  lemma LayoutExists(events: seq<Event>, windowSeconds: int, first: Ends, last: Ends, ticketId: string, time: int)
    requires EndsFit(events, windowSeconds, first, last)
    ensures exists r :: IsLayout(events, first, last, ticketId, time, r)
  {
    var block := Select(events, AtOf(ticketId, time));
    if block == [] {
      assert IsLayout(events, first, last, ticketId, time, []);
    } else {
      SelectIs(events, AtOf(ticketId, time));
      assert block[0] in block;
      var r := Lay(block, first(ticketId, time), last(ticketId, time));
      assert IsLayout(events, first, last, ticketId, time, r);
    }
  }

  ghost function Layout(events: seq<Event>, windowSeconds: int, first: Ends, last: Ends, ticketId: string, time: int): (r: seq<Event>)
    requires EndsFit(events, windowSeconds, first, last)
    ensures IsLayout(events, first, last, ticketId, time, r)
  {
    LayoutExists(events, windowSeconds, first, last, ticketId, time);
    var r :| IsLayout(events, first, last, ticketId, time, r);
    r
  }

  /** No two neighbours of the arranged listing are reported. */
  lemma ArrangedIsQuiet(events: seq<Event>, windowSeconds: int, first: Ends, last: Ends, tid: string, i: nat)
    requires i < |ScansInOrder(events, tid)| - 1
    requires forall ticketId, time ::
      Laid(Select(events, AtOf(ticketId, time)), first(ticketId, time), last(ticketId, time))
    requires forall e, f :: Consecutive(events, e, f) && f.time - e.time <= windowSeconds * SECOND ==>
      Joins(last(e.ticketId, e.time), first(f.ticketId, f.time))
    ensures !NamedNeighbours(ScansInOrder(events, tid), i, windowSeconds)
  {
    var s := ScansInOrder(events, tid);
    ScansInOrderSpec(events, tid);
    assert BY_TIME(s[i]) <= BY_TIME(s[i + 1]);
    if s[i].time == s[i + 1].time {
      SameTimeNeighbours(events, first, last, tid, i);
    } else if s[i + 1].time - s[i].time <= windowSeconds * SECOND {
      NextTimeNeighbours(events, windowSeconds, first, last, tid, i);
    }
  }

  lemma SameTimeNeighbours(events: seq<Event>, first: Ends, last: Ends, tid: string, i: nat)
    requires i < |ScansInOrder(events, tid)| - 1
    requires ScansInOrder(events, tid)[i].time == ScansInOrder(events, tid)[i + 1].time
    requires forall ticketId, time ::
      Laid(Select(events, AtOf(ticketId, time)), first(ticketId, time), last(ticketId, time))
    ensures !Clash(ScansInOrder(events, tid)[i], ScansInOrder(events, tid)[i + 1])
  {
    var s := ScansInOrder(events, tid);
    var time := s[i].time;
    var a := Select(events, AtOf(tid, time));
    var before, after := SplitAtTime(events, tid, time);
    InItsBlock(s, before, a, after, time, i);
    InItsBlock(s, before, a, after, time, i + 1);
    assert Laid(a, first(tid, time), last(tid, time));
    assert !Clash(a[i - |before|], a[i - |before| + 1]);
  }

  lemma NextTimeNeighbours(events: seq<Event>, windowSeconds: int, first: Ends, last: Ends, tid: string, i: nat)
    requires i < |ScansInOrder(events, tid)| - 1
    requires ScansInOrder(events, tid)[i].time < ScansInOrder(events, tid)[i + 1].time
    requires ScansInOrder(events, tid)[i + 1].time - ScansInOrder(events, tid)[i].time <= windowSeconds * SECOND
    requires forall ticketId, time ::
      Laid(Select(events, AtOf(ticketId, time)), first(ticketId, time), last(ticketId, time))
    requires forall e, f :: Consecutive(events, e, f) && f.time - e.time <= windowSeconds * SECOND ==>
      Joins(last(e.ticketId, e.time), first(f.ticketId, f.time))
    ensures !Clash(ScansInOrder(events, tid)[i], ScansInOrder(events, tid)[i + 1])
  {
    var s := ScansInOrder(events, tid);
    var e, f := s[i], s[i + 1];
    var a, b := Select(events, AtOf(tid, e.time)), Select(events, AtOf(tid, f.time));
    ScansInOrderSpec(events, tid);
    assert e in s && f in s;
    NeighboursAreConsecutive(events, tid, i);
    LastAndFirst(events, tid, i);
    assert Laid(a, first(tid, e.time), last(tid, e.time)) && Laid(b, first(tid, f.time), last(tid, f.time));
    assert Joins(last(e.ticketId, e.time), first(f.ticketId, f.time));
  }

  lemma NeighboursAreConsecutive(events: seq<Event>, tid: string, i: nat)
    requires i < |ScansInOrder(events, tid)| - 1
    requires ScansInOrder(events, tid)[i].time < ScansInOrder(events, tid)[i + 1].time
    ensures Consecutive(events, ScansInOrder(events, tid)[i], ScansInOrder(events, tid)[i + 1])
  {
    var s := ScansInOrder(events, tid);
    ScansInOrderSpec(events, tid);
    assert s[i] in s && s[i + 1] in s;
    forall z | z in events && ScanOf(tid)(z) ensures !(s[i].time < z.time < s[i + 1].time) {
      assert z in s;
      var m :| 0 <= m < |s| && s[m] == z;
      InOrder(s, m, i);
      InOrder(s, i + 1, m);
    }
  }

  lemma LastAndFirst(events: seq<Event>, tid: string, i: nat)
    requires i < |ScansInOrder(events, tid)| - 1
    requires ScansInOrder(events, tid)[i].time < ScansInOrder(events, tid)[i + 1].time
    ensures var s := ScansInOrder(events, tid);
            var a, b := Select(events, AtOf(tid, s[i].time)), Select(events, AtOf(tid, s[i + 1].time));
            a != [] && b != [] && s[i] == a[|a| - 1] && s[i + 1] == b[0]
  {
    var s := ScansInOrder(events, tid);
    var a, b := Select(events, AtOf(tid, s[i].time)), Select(events, AtOf(tid, s[i + 1].time));
    var before, after := SplitAtTime(events, tid, s[i].time);
    var before', after' := SplitAtTime(events, tid, s[i + 1].time);
    SelectIs(events, AtOf(tid, s[i].time));
    SelectIs(events, AtOf(tid, s[i + 1].time));
    InItsBlock(s, before, a, after, s[i].time, i);
    InItsBlock(s, before', b, after', s[i + 1].time, i + 1);
    WhereInThree(before, a, after, i + 1);
    WhereInThree(before', b, after', i);
  }

  lemma EndsHide(events: seq<Event>, windowSeconds: int, first: Ends, last: Ends) returns (listing: seq<Event>)
    requires EndsFit(events, windowSeconds, first, last)
    ensures multiset(listing) == multiset(events) && !Velocity(listing, windowSeconds)
  {
    var blocks: Blocks := (ticketId: string, time: int) => Layout(events, windowSeconds, first, last, ticketId, time);
    listing := Arrange(events, blocks);
    SameElements(listing, events);
    forall e, f | Consecutive(listing, e, f) ensures Consecutive(events, e, f) {
    }
    forall tid, i | 0 <= i < |ScansInOrder(listing, tid)| - 1
      ensures !NamedNeighbours(ScansInOrder(listing, tid), i, windowSeconds)
    {
      ArrangedIsQuiet(listing, windowSeconds, first, last, tid, i);
    }
  }

  // ----- exactly when the order matters ---------------------------------------------------------------

  /** Some listing of the events is passed over if and only if the nameless scans
      suffice: at every time of a ticket one between any two places, one at each end
      left open, and ends left open or equal between times within the window. */
  lemma SomeListingIsPassedOver(events: seq<Event>, windowSeconds: int)
    requires windowSeconds >= 0
    ensures (exists listing :: multiset(listing) == multiset(events) && !Velocity(listing, windowSeconds))
       <==> Hideable(events, windowSeconds)
  {
    if listing :| multiset(listing) == multiset(events) && !Velocity(listing, windowSeconds) {
      QuietOrderHasEnds(events, listing, windowSeconds);
    }
    if first: Ends, last: Ends :| EndsFit(events, windowSeconds, first, last) {
      var listing := EndsHide(events, windowSeconds, first, last);
    }
  }

  /** For instance, as many nameless scans as places at each time of each ticket
      always suffice, whatever the window. */
  lemma OneBlankPerPlaceSuffices(events: seq<Event>, windowSeconds: int)
    requires forall e :: e in events && e.kind == Scan ==>
      |Places(Select(events, AtOf(e.ticketId, e.time)))| <= Blanks(Select(events, AtOf(e.ticketId, e.time)))
    ensures Hideable(events, windowSeconds)
  {
    var first: Ends := (ticketId: string, time: int) => SomePlace(Select(events, AtOf(ticketId, time)));
    var last: Ends := (ticketId: string, time: int) => None;
    assert EndsFit(events, windowSeconds, first, last);
  }

  ghost function SomePlace(s: seq<Event>): (r: Option<string>)
    ensures Places(s) != {} ==> r.Some? && r.value in Places(s)
  {
    if Places(s) == {} then None
    else
      var place :| place in Places(s);
      Some(place)
  }

  /** The verdict depends on the order of the input if and only if there is an
      unseparated pair of scans and the nameless scans suffice to hide all such. */
  lemma OrderMattersIff(events: seq<Event>, windowSeconds: int)
    ensures (exists a, b :: multiset(a) == multiset(b) == multiset(events)
                         && Velocity(a, windowSeconds) && !Velocity(b, windowSeconds))
       <==> SomeUnseparated(events, windowSeconds) && Hideable(events, windowSeconds)
  {
    SomeListingIsReported(events, windowSeconds);
    assert windowSeconds < 0 ==> windowSeconds * SECOND < 0;
    if windowSeconds >= 0 {
      SomeListingIsPassedOver(events, windowSeconds);
    } else if x, y :| Unseparated(events, x, y, windowSeconds) {
      assert false;
    }
  }
}

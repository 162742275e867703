/** Simultaneous scans of one ticket: in which orders no two neighbours name
    different places, and how many nameless scans that takes. */
module VelocityBlocks {
  import opened Wrappers
  import opened Counting
  import opened FraudEvents
  import opened VelocityRule

  function Place(e: Event): Option<string> { if Named(e) then e.location else None }

  function Nameless(e: Event): bool { !Named(e) }

  predicate Clash(a: Event, b: Event) {
    Place(a).Some? && Place(b).Some? && Place(a) != Place(b)
  }

  /** No two neighbours clash. */
  ghost predicate Calm(s: seq<Event>) {
    forall i :: 0 <= i < |s| - 1 ==> !Clash(s[i], s[i + 1])
  }

  function Places(s: seq<Event>): set<string> {
    set e | e in s && Named(e) :: e.location.value
  }

  function Blanks(s: seq<Event>): nat { Count(s, Nameless) }

  function Extra(end: Option<string>): nat { if end.None? then 1 else 0 }

  /** The scans can be ordered with these places at the ends, `None` standing for a
      nameless scan: one nameless scan between any two places, one at each such end. */
  predicate Affordable(s: seq<Event>, first: Option<string>, last: Option<string>) {
    Places(s) != {} ==>
      && (first.Some? ==> first.value in Places(s))
      && (last.Some? ==> last.value in Places(s))
      && (first.Some? && first == last ==> |Places(s)| == 1)
      && |Places(s)| - 1 + Extra(first) + Extra(last) <= Blanks(s)
  }

  /** A calm order with these ends, or nameless scans there. */
  ghost predicate Laid(s: seq<Event>, first: Option<string>, last: Option<string>) {
    Calm(s) && (s != [] ==> Place(s[0]) in {first, None} && Place(s[|s| - 1]) in {last, None})
  }

  // ----- counting ---------------------------------------------------------------------

  lemma PlacesSnoc(s: seq<Event>, e: Event)
    ensures Places(s + [e]) == Places(s) + if Named(e) then {e.location.value} else {}
    ensures Blanks(s + [e]) == Blanks(s) + if Named(e) then 0 else 1
  {
    assert e in s + [e];
    CountSnoc(s, e, Nameless);
  }

  lemma PlaceOf(s: seq<Event>, e: Event)
    requires e in s && Named(e)
    ensures e.location.value in Places(s)
  {
  }

  lemma NoPlacesAllBlank(s: seq<Event>)
    requires Places(s) == {}
    ensures Blanks(s) == |s| && forall e :: e in s ==> !Named(e)
  {
    forall e | e in s ensures !Named(e) {
      if Named(e) {
        PlaceOf(s, e);
        assert false;
      }
    }
    CountBound(s, Nameless);
  }

  /** What a calm order needs: a nameless scan for each change of place, one for
      each nameless end, and one more if it comes back to the place it began with. */
  function Needed(s: seq<Event>): int
    requires s != []
  {
    var first, last := Place(s[0]), Place(s[|s| - 1]);
    |Places(s)| - 1 + Extra(first) + Extra(last)
    + if first.Some? && first == last && |Places(s)| >= 2 then 1 else 0
  }

  lemma CalmPrefix(s: seq<Event>, n: nat)
    requires Calm(s) && n <= |s|
    ensures Calm(s[..n])
  {
  }

  lemma {:induction false} CalmNeedsBlanks(s: seq<Event>)
    requires Calm(s) && Places(s) != {}
    ensures s != [] && Needed(s) <= Blanks(s)
  {
    var n := |s| - 1;
    assert s != [];
    var rest, e := s[..n], s[n];
    assert s == rest + [e];
    PlacesSnoc(rest, e);
    if Places(rest) == {} {
      NoPlacesAllBlank(rest);
      if rest != [] { assert rest[0] in rest; }
    } else {
      CalmPrefix(s, n);
      CalmNeedsBlanks(rest);
      assert !Clash(s[n - 1], s[n]);
      OneMore(rest, e);
    }
  }

  lemma OneMore(rest: seq<Event>, e: Event)
    requires rest != [] && Places(rest) != {} && Needed(rest) <= Blanks(rest) && !Clash(rest[|rest| - 1], e)
    ensures Needed(rest + [e]) <= Blanks(rest + [e])
  {
    PlacesSnoc(rest, e);
    var first, last := Place(rest[0]), Place(rest[|rest| - 1]);
    if first.Some? { assert rest[0] in rest; }
    if last.Some? { assert rest[|rest| - 1] in rest; }
    if Named(e) && e.location.value in Places(rest) {
      assert Places(rest + [e]) == Places(rest);
    }
  }

  /** The ends of a calm order, with the first left open if both are the same place
      among several. */
  function FirstEnd(s: seq<Event>): Option<string> {
    if s == [] || (Place(s[0]) == Place(s[|s| - 1]) && |Places(s)| >= 2) then None else Place(s[0])
  }

  function LastEnd(s: seq<Event>): Option<string> {
    if s == [] then None else Place(s[|s| - 1])
  }

  lemma CalmEndsAreAffordable(s: seq<Event>)
    requires Calm(s)
    ensures Affordable(s, FirstEnd(s), LastEnd(s))
  {
    if Places(s) != {} {
      CalmNeedsBlanks(s);
      assert s[0] in s && s[|s| - 1] in s;
    }
  }

  lemma AffordableIgnoresOrder(a: seq<Event>, b: seq<Event>, first: Option<string>, last: Option<string>)
    requires multiset(a) == multiset(b)
    ensures Affordable(a, first, last) <==> Affordable(b, first, last)
  {
    CountIgnoresOrder(a, b, Nameless);
    assert forall e :: e in a <==> e in multiset(a);
    assert forall e :: e in b <==> e in multiset(b);
    assert Places(a) == Places(b);
  }

  // ----- laying out ---------------------------------------------------------------------

  lemma CalmConcat(a: seq<Event>, b: seq<Event>)
    requires Calm(a) && Calm(b) && (a != [] && b != [] ==> !Clash(a[|a| - 1], b[0]))
    ensures Calm(a + b)
  {
  }

  lemma SamePlaceIsCalm(s: seq<Event>, place: Option<string>)
    requires forall e :: e in s ==> Place(e) == place || Place(e).None?
    ensures Calm(s)
  {
    forall i | 0 <= i < |s| - 1 ensures !Clash(s[i], s[i + 1]) {
      assert s[i] in s && s[i + 1] in s;
    }
  }

  lemma TakeBlank(s: seq<Event>) returns (x: Event, rest: seq<Event>)
    requires Blanks(s) > 0
    ensures !Named(x) && multiset(rest) + multiset{x} == multiset(s)
    ensures Places(rest) == Places(s) && Blanks(rest) + 1 == Blanks(s)
  {
    CountBound(s, Nameless);
    var k :| 0 <= k < |s| && Nameless(s[k]);
    x, rest := s[k], s[..k] + s[k + 1..];
    var moved := rest + [x];
    assert s == s[..k] + [x] + s[k + 1..];
    assert multiset(moved) == multiset(s);
    PlacesSnoc(rest, x);
    CountIgnoresOrder(moved, s, Nameless);
    SamePlaces(moved, s);
  }

  lemma SamePlaces(a: seq<Event>, b: seq<Event>)
    requires multiset(a) == multiset(b)
    ensures Places(a) == Places(b)
  {
    assert forall e :: e in a <==> e in multiset(a);
    assert forall e :: e in b <==> e in multiset(b);
  }

  function AtPlace(place: string): Event -> bool {
    (e: Event) => Place(e) == Some(place)
  }

  /** The scans at one of the places, and the others. */
  lemma SplitPlace(s: seq<Event>, place: string) returns (run: seq<Event>, rest: seq<Event>)
    requires place in Places(s)
    ensures multiset(run) + multiset(rest) == multiset(s)
    ensures run != [] && forall e :: e in run ==> Place(e) == Some(place)
    ensures Places(rest) == Places(s) - {place} && Blanks(rest) == Blanks(s)
  {
    run, rest := Select(s, AtPlace(place)), Select(s, Not(AtPlace(place)));
    SelectSplits(s, AtPlace(place));
    SelectIs(s, AtPlace(place));
    SelectIs(s, Not(AtPlace(place)));
    CountSelected(s, Not(AtPlace(place)), Nameless);
    var e :| e in s && Named(e) && e.location.value == place;
    assert e in run;
  }

  /** Affordable ends can be had. */
  lemma {:induction false} Lay(s: seq<Event>, first: Option<string>, last: Option<string>) returns (r: seq<Event>)
    requires Affordable(s, first, last)
    ensures multiset(r) == multiset(s) && Laid(r, first, last)
    decreases |Places(s)|, Extra(first)
  {
    if Places(s) == {} {
      NoPlacesAllBlank(s);
      SamePlaceIsCalm(s, None);
      r := s;
      if s != [] { assert s[0] in s && s[|s| - 1] in s; }
    } else if first.None? {
      r := LayBlankFirst(s, last);
    } else if |Places(s)| == 1 {
      OnePlace(Places(s), first.value);
      r := LayOnePlace(s, first.value, last);
    } else {
      r := LayRun(s, first.value, last);
    }
  }

  lemma OnePlace(places: set<string>, place: string)
    requires place in places
    ensures |places| == 1 ==> places == {place}
    ensures |places - {place}| == |places| - 1
  {
    assert places == (places - {place}) + {place};
  }

  /** Some place to begin with that leaves the last one for the end. */
  lemma Beginning(places: set<string>, last: Option<string>) returns (place: string)
    requires places != {}
    ensures place in places && (last == Some(place) ==> |places| == 1)
  {
    place :| place in places;
    if last == Some(place) && |places| != 1 {
      var others := places - {place};
      assert |others| == |places| - 1;
      place :| place in others;
    }
  }

  lemma {:induction false} LayBlankFirst(s: seq<Event>, last: Option<string>) returns (r: seq<Event>)
    requires Affordable(s, None, last) && Places(s) != {}
    ensures multiset(r) == multiset(s) && Laid(r, None, last)
    decreases |Places(s)|, 1, 0
  {
    var x, rest := TakeBlank(s);
    var place := Beginning(Places(rest), last);
    var tail := Lay(rest, Some(place), last);
    r := [x] + tail;
    CalmConcat([x], tail);
  }

  lemma LayOnePlace(s: seq<Event>, place: string, last: Option<string>) returns (r: seq<Event>)
    requires Affordable(s, Some(place), last) && Places(s) == {place}
    ensures multiset(r) == multiset(s) && Laid(r, Some(place), last)
  {
    var run, rest := SplitPlace(s, place);
    r := run + rest;
    NoPlacesAllBlank(rest);
    forall e | e in r ensures Place(e) == Some(place) || Place(e).None? {
    }
    SamePlaceIsCalm(r, Some(place));
    assert run[0] in run && run[|run| - 1] in run;
    if rest != [] { assert rest[|rest| - 1] in rest; }
  }

  lemma {:induction false} LayRun(s: seq<Event>, place: string, last: Option<string>) returns (r: seq<Event>)
    requires Affordable(s, Some(place), last) && |Places(s)| >= 2
    ensures multiset(r) == multiset(s) && Laid(r, Some(place), last)
    decreases |Places(s)|, 0, 0
  {
    OnePlace(Places(s), place);
    var run, others := SplitPlace(s, place);
    var x, rest := TakeBlank(others);
    var place' := Beginning(Places(rest), last);
    var tail := Lay(rest, Some(place'), last);
    NotEmpty(tail, rest);
    r := run + ([x] + tail);
    RunThenTail(run, place, x, tail, place', last);
    assert multiset([x] + tail) == multiset(rest) + multiset{x};
  }

  lemma NotEmpty(tail: seq<Event>, rest: seq<Event>)
    requires multiset(tail) == multiset(rest) && Places(rest) != {}
    ensures tail != []
  {
    SamePlaces(tail, rest);
  }

  lemma RunThenTail(run: seq<Event>, place: string, x: Event, tail: seq<Event>, place': string, last: Option<string>)
    requires run != [] && forall e :: e in run ==> Place(e) == Some(place)
    requires !Named(x) && tail != [] && Laid(tail, Some(place'), last)
    ensures Laid(run + ([x] + tail), Some(place), last)
  {
    SamePlaceIsCalm(run, Some(place));
    CalmConcat([x], tail);
    CalmConcat(run, [x] + tail);
    assert run[0] in run;
  }
}

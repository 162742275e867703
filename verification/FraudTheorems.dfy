/** What the fraud rules mean for whole batches of events. */
module FraudTheorems {
  import opened Sorting
  import opened Counting
  import opened FraudEvents
  import opened Fraud

  // ----- severity ----------------------------------------------------------------

  datatype Severity = NoSeverity | Low | Medium | High

  function Rank(s: Severity): nat {
    match s
    case NoSeverity => 0
    case Low => 1
    case Medium => 2
    case High => 3
  }

  const HIGH_RULES := {TooManyPurchasesSameIp, ExcessivePurchasesUserDay, ImpossibleTravelScan, BulkAllocationPurchase}
  const MEDIUM_RULES := {DuplicateTicketTransfer}

  /** `determine_severity`. */
  function DetermineSeverity(triggered: seq<Rule>): Severity {
    if triggered == [] then NoSeverity
    else
      var s := set r | r in triggered;
      if s * HIGH_RULES != {} then High
      else if s * MEDIUM_RULES != {} then Medium
      else Low
  }

  /** The severity of a batch, whatever order the triggered rules are listed in. */
  ghost predicate SeverityOf(events: seq<Event>, severity: Severity) {
    exists listed: seq<Rule> :: (forall r :: r in listed <==> Fires(r, events)) && severity == DetermineSeverity(listed)
  }

  // ----- order and growth ------------------------------------------------------------

  /** Adding events never withdraws a rule. */
  lemma FiresMonotone(rule: Rule, few: seq<Event>, many: seq<Event>)
    requires multiset(few) <= multiset(many)
    ensures Fires(rule, few) ==> Fires(rule, many)
  {
    forall e | e in few ensures e in many {
      assert e in multiset(few);
      assert e in multiset(many);
    }
    if Fires(rule, few) {
      match rule
      case TooManyPurchasesSameIp =>
        var ip, start :| Count(few, PurchaseWithin(ip, start)) >= 4;
        CountMonotone(few, many, PurchaseWithin(ip, start));
      case DuplicateTicketTransfer =>
        var t :| Count(few, TransferOf(t)) >= 2;
        CountMonotone(few, many, TransferOf(t));
      case ExcessivePurchasesUserDay =>
        var key :| Count(few, PurchaseOn(key)) >= 6;
        CountMonotone(few, many, PurchaseOn(key));
      case _ =>
    }
  }

  /** Which rules fire depends only on which events there are, not on their order. */
  lemma FiresIgnoresOrder(rule: Rule, a: seq<Event>, b: seq<Event>)
    requires multiset(a) == multiset(b)
    ensures Fires(rule, a) <==> Fires(rule, b)
  {
    FiresMonotone(rule, a, b);
    FiresMonotone(rule, b, a);
  }

  /** More events, never a milder severity; and no batch is ever rated low. */
  lemma SeverityMonotone(few: seq<Event>, many: seq<Event>, before: Severity, after: Severity)
    requires multiset(few) <= multiset(many)
    requires SeverityOf(few, before) && SeverityOf(many, after)
    ensures Rank(before) <= Rank(after)
    ensures before != Low
  {
    var a: seq<Rule> :| (forall r :: r in a <==> Fires(r, few)) && before == DetermineSeverity(a);
    var b: seq<Rule> :| (forall r :: r in b <==> Fires(r, many)) && after == DetermineSeverity(b);
    forall r | r in a ensures r in b { FiresMonotone(r, few, many); }
    SubsetSeverity(a, b);
    if a != [] {
      assert Fires(a[0], few);
      assert a[0] in HIGH_RULES || a[0] in MEDIUM_RULES;
      SeverityWith(a, a[0]);
    }
  }

  lemma SeverityWith(triggered: seq<Rule>, r: Rule)
    requires r in triggered
    ensures r in HIGH_RULES ==> DetermineSeverity(triggered) == High
    ensures r in MEDIUM_RULES ==> DetermineSeverity(triggered) in {Medium, High}
  {
    var s := set x | x in triggered;
    assert r in HIGH_RULES ==> r in s * HIGH_RULES;
    assert r in MEDIUM_RULES ==> r in s * MEDIUM_RULES;
  }

  lemma SubsetSeverity(a: seq<Rule>, b: seq<Rule>)
    requires forall r :: r in a ==> r in b
    ensures Rank(DetermineSeverity(a)) <= Rank(DetermineSeverity(b))
  {
    var s := set r | r in a;
    if a != [] {
      assert a[0] in b;
      if s * HIGH_RULES != {} {
        var r :| r in s * HIGH_RULES;
        SeverityWith(b, r);
      } else if s * MEDIUM_RULES != {} {
        var r :| r in s * MEDIUM_RULES;
        SeverityWith(b, r);
      }
    }
  }

  // ----- the burst rule in terms of sorted times ----------------------------------------

  /** The same-IP rule fires exactly when, for some IP, four consecutive sorted
      purchase times span at most ten minutes. */
  lemma BurstInSortedTimes(events: seq<Event>)
    ensures SameIpBurst(events) <==>
      exists ip, i :: FourWithin(SortedTimes(events, ip), i)
  {
    if SameIpBurst(events) {
      var ip, start :| Count(events, PurchaseWithin(ip, start)) >= 4;
      SortedCount(events, ip, start);
      StableSortSpec(Times(Select(events, PurchaseFrom(ip))), AS_KEY);
      var i := FourInARow(SortedTimes(events, ip), start);
    }
    if exists ip, i :: FourWithin(SortedTimes(events, ip), i) {
      var ip, i :| FourWithin(SortedTimes(events, ip), i);
      var times := SortedTimes(events, ip);
      StableSortSpec(Times(Select(events, PurchaseFrom(ip))), AS_KEY);
      SpanCounts(times, i);
      SortedCount(events, ip, times[i]);
    }
  }

  ghost predicate FourWithin(times: seq<int>, i: int) {
    0 <= i < |times| - 3 && times[i + 3] - times[i] <= IP_WINDOW
  }

  lemma SpanCounts(times: seq<int>, i: nat)
    requires Ascending(times, AS_KEY) && FourWithin(times, i)
    ensures Count(times, Within(times[i])) >= 4
  {
    var p := Within(times[i]);
    var four := times[i..i + 4];
    forall t | t in four ensures p(t) {
      var j :| 0 <= j < 4 && four[j] == t;
      assert AS_KEY(times[i]) <= AS_KEY(times[i + j]) <= AS_KEY(times[i + 3]);
    }
    CountBound(four, p);
    assert times == times[..i] + four + times[i + 4..];
    CountConcat(times[..i] + four, times[i + 4..], p);
    CountConcat(times[..i], four, p);
  }

  lemma FourInARow(times: seq<int>, start: int) returns (i: nat)
    requires Ascending(times, AS_KEY) && Count(times, Within(start)) >= 4
    ensures FourWithin(times, i)
  {
    var p := Within(start);
    i := 0;
    while i < |times| && times[i] < start
      invariant i <= |times| && forall j :: 0 <= j < i ==> times[j] < start
    {
      i := i + 1;
    }
    if |times| < i + 3 {
      OnlyBetween(times, p, i, |times|);
    } else if i + 3 == |times| || times[i + 3] > start + IP_WINDOW {
      forall j | i + 3 <= j < |times| ensures !p(times[j]) {
        assert AS_KEY(times[i + 3]) <= AS_KEY(times[j]);
      }
      OnlyBetween(times, p, i, i + 3);
    }
  }

  lemma OnlyBetween(times: seq<int>, p: int -> bool, i: nat, m: nat)
    requires i <= m <= |times|
    requires forall j :: 0 <= j < i || m <= j < |times| ==> !p(times[j])
    ensures Count(times, p) <= m - i
  {
    assert times == times[..i] + times[i..m] + times[m..];
    CountConcat(times[..i] + times[i..m], times[m..], p);
    CountConcat(times[..i], times[i..m], p);
    CountBound(times[..i], p);
    CountBound(times[i..m], p);
    CountBound(times[m..], p);
  }
}

/** What the waterfall guarantees, for every input: who is served when, the
    closed form of each amount, and when no payout can come out negative. */
module RevenueTheorems {
  import opened Wrappers
  import opened Money
  import opened Sorting
  import opened RevenueModels
  import opened Waterfall

  // ----- order ---------------------------------------------------------------

  lemma {:induction false} MatchedIs(ss: seq<Stakeholder>, rules: seq<RevenueRule>, x: Stakeholder)
    ensures multiset(Matched(ss, rules))[x] == if FindRule(x, rules).Some? then multiset(ss)[x] else 0
  {
    if ss != [] {
      MatchedIs(ss[1..], rules, x);
      assert ss == [ss[0]] + ss[1..];
    }
  }

  /** Stakeholders are ranked by ascending priority, ties in input order; exactly
      those with an applicable rule are paid, each as often as they are listed. */
  lemma PayeesAreTheMatchedInPriorityOrder(ss: seq<Stakeholder>, rules: seq<RevenueRule>)
    ensures Ascending(SortByRules(ss, rules), ByPriority(rules))
    ensures forall v :: Tied(SortByRules(ss, rules), ByPriority(rules), v) == Tied(ss, ByPriority(rules), v)
    ensures multiset(Payees(ss, rules)) == multiset(Matched(ss, rules))
  {
    StableSortSpec(ss, ByPriority(rules));
    forall x ensures multiset(Payees(ss, rules))[x] == multiset(Matched(ss, rules))[x] {
      MatchedIs(ss, rules, x);
      MatchedIs(SortByRules(ss, rules), rules, x);
    }
  }

  /** A rule without roles shadows every rule after it: with the service's own
      default rules, whose role lists are all empty, everyone is booked under
      the platform-fee rule. */
  lemma OpenRuleShadowsLaterRules(before: seq<RevenueRule>, open: RevenueRule, after: seq<RevenueRule>, s: Stakeholder)
    requires open.appliesTo == []
    ensures FindRule(s, before + [open] + after)
         == if FindRule(s, before).Some? then FindRule(s, before) else Some(open)
    decreases |before|
  {
    var all := before + [open] + after;
    if before == [] {
      assert all[0] == open;
    } else {
      assert all[1..] == before[1..] + [open] + after;
      OpenRuleShadowsLaterRules(before[1..], open, after, s);
    }
  }

  // ----- closed form -----------------------------------------------------------

  ghost predicate NonNegative(xs: seq<real>) {
    forall i :: 0 <= i < |xs| ==> xs[i] >= 0.0
  }

  /** Each payee gets their claim or what the earlier claims left of the balance. */
  lemma {:induction false} WaterfallClosedForm(claims: seq<real>, balance: real, i: nat)
    requires NonNegative(claims) && balance >= 0.0 && i < |claims|
    ensures Allocate(claims, balance)[i] == Min(claims[i], Max(0.0, balance - Sum(claims[..i])))
  {
    var amount := Min(claims[0], balance);
    if i == 0 {
      assert claims[..0] == [];
    } else {
      WaterfallClosedForm(claims[1..], balance - amount, i - 1);
      assert claims[..i] == [claims[0]] + claims[1..][..i - 1];
      assert claims[..i][1..] == claims[1..][..i - 1];
      if amount < claims[0] {
        SumNonNegative(claims[1..][..i - 1]);
      }
    }
  }

  lemma {:induction false} SumNonNegative(xs: seq<real>)
    requires NonNegative(xs)
    ensures Sum(xs) >= 0.0
  {
    if xs != [] { SumNonNegative(xs[1..]); }
  }

  /** The balance never leaves [0, net] ... */
  lemma {:induction false} WaterfallStaysWithinBalance(claims: seq<real>, balance: real)
    requires NonNegative(claims) && balance >= 0.0
    ensures forall i :: 0 <= i < |claims| ==> 0.0 <= Allocate(claims, balance)[i] <= claims[i]
    ensures Sum(Allocate(claims, balance)) <= balance
  {
    if claims != [] {
      var amount := Min(claims[0], balance);
      var rest := Allocate(claims[1..], balance - amount);
      WaterfallStaysWithinBalance(claims[1..], balance - amount);
      assert ([amount] + rest)[1..] == rest;
    }
  }

  /** ... and once a claim is cut short nobody behind it gets anything, so at
      most one claim is paid in part. */
  lemma NothingAfterACut(claims: seq<real>, balance: real, i: nat, j: nat)
    requires NonNegative(claims) && balance >= 0.0 && i < j < |claims|
    requires Allocate(claims, balance)[i] < claims[i]
    ensures Allocate(claims, balance)[j] == 0.0
  {
    WaterfallClosedForm(claims, balance, i);
    WaterfallClosedForm(claims, balance, j);
    var between := claims[i + 1..j];
    assert claims[..j] == claims[..i] + ([claims[i]] + between);
    SumAppend(claims[..i], [claims[i]] + between);
    assert ([claims[i]] + between)[1..] == between;
    SumNonNegative(between);
  }

  /** Percentages and caps the models and the service accept as sensible. */
  ghost predicate SensibleLimits(s: Stakeholder) {
    s.percentage >= 0.0 && (s.maxAmount.Some? ==> s.maxAmount.value >= 0.0)
  }

  ghost predicate Sensible(ss: seq<Stakeholder>) {
    forall s :: s in ss ==> SensibleLimits(s)
  }

  lemma SensibleClaim(net: real, s: Stakeholder)
    requires net >= 0.0 && SensibleLimits(s)
    ensures Claim(net, s) >= 0.0
  {
    assert net * s.percentage >= 0.0;
  }

  lemma SensibleClaims(net: real, ss: seq<Stakeholder>, rules: seq<RevenueRule>)
    requires net >= 0.0 && Sensible(ss)
    ensures NonNegative(Claims(net, Payees(ss, rules)))
  {
    var payees := Payees(ss, rules);
    forall i | 0 <= i < |payees| ensures Claim(net, payees[i]) >= 0.0 {
      MatchedIs(SortByRules(ss, rules), rules, payees[i]);
      StableSortSpec(ss, ByPriority(rules));
      assert payees[i] in multiset(payees);
      assert payees[i] in multiset(ss);
      SensibleClaim(net, payees[i]);
    }
  }

  // ----- when every payout is non-negative ---------------------------------------

  /** In whole cents: the claims rounded half-even, their sum, the residue. */
  function CentsOf(xs: seq<real>): seq<int> {
    seq(|xs|, i requires 0 <= i < |xs| => RoundHalfEven(xs[i] * 100.0))
  }

  function SumInt(xs: seq<int>): int {
    if xs == [] then 0 else xs[0] + SumInt(xs[1..])
  }

  lemma {:induction false} RoundedSumInCents(xs: seq<real>)
    ensures Sum(Rounded(xs)) * 100.0 == SumInt(CentsOf(xs)) as real
  {
    if xs != [] {
      RoundedSumInCents(xs[1..]);
      assert Rounded(xs)[1..] == Rounded(xs[1..]) && CentsOf(xs)[1..] == CentsOf(xs[1..]);
    }
  }

  /** Rounding n amounts adds at most half a cent each; if it adds all of that,
      every one was a tie and went to an even number of cents. */
  lemma {:induction false} RoundingGain(xs: seq<real>)
    ensures 2.0 * (SumInt(CentsOf(xs)) as real - 100.0 * Sum(xs)) <= |xs| as real
    ensures 2.0 * (SumInt(CentsOf(xs)) as real - 100.0 * Sum(xs)) == |xs| as real ==>
              forall i :: 0 <= i < |xs| ==> CentsOf(xs)[i] % 2 == 0
  {
    if xs != [] {
      RoundingGain(xs[1..]);
      HalfEvenIs(xs[0] * 100.0, CentsOf(xs)[0]);
      assert CentsOf(xs)[1..] == CentsOf(xs[1..]);
      forall i | 0 < i < |xs| ensures CentsOf(xs)[i] == CentsOf(xs[1..])[i - 1] { }
    }
  }

  lemma {:induction false} SumAtMost(xs: seq<int>, most: int)
    requires forall i :: 0 <= i < |xs| ==> xs[i] <= most
    ensures SumInt(xs) <= |xs| * most
  {
    if xs != [] { SumAtMost(xs[1..], most); }
  }

  /** The net revenue, in dollars, above which n payouts cannot turn negative. */
  function SafeNet(n: nat): real {
    ((n - 1) * (n / 2) - n) as real / 100.0 + 0.005
  }

  /** The arithmetic heart, in cents: `cs` rounds amounts that sum to at most
      `net`, `big` is the largest of them and `residue` what gets pushed onto it. */
  lemma LargestAbsorbsResidue(n: nat, net: real, raw: real, total: int, big: int, residue: int)
    requires n >= 1 && total <= n * big && raw <= net * 100.0
    requires 2.0 * (total as real - raw) <= n as real
    requires 2.0 * (total as real - raw) == n as real ==> big % 2 == 0
    requires residue == RoundHalfEven(net * 100.0 - total as real)
    requires net > SafeNet(n)
    ensures big + residue >= 0
  {
    HalfEvenIs(net * 100.0 - total as real, residue);
    var h, p := n / 2, -residue;
    if big < p {
      assert net * 100.0 <= (total - p) as real + 0.5;
      if p > h {
        assert 2 * total <= 2 * (total - p) + n + 1;
        assert big <= h - 1;
      }
      TotalTooSmall(n, h, p, big, total);
    }
  }

  lemma TotalTooSmall(n: nat, h: nat, p: int, big: int, total: int)
    requires n >= 1 && total <= n * big
    requires big < p && (p <= h || big <= h - 1 == p - 2)
    ensures total - p <= (n - 1) * h - n
  {
    if p <= h {
      MulLe(n, big, p - 1);
      MulLe(n - 1, p, h);
    } else {
      MulLe(n, big, h - 1);
    }
  }

  lemma MulLe(a: nat, x: int, y: int)
    requires x <= y
    ensures a * x <= a * y
  {
  }

  /** The unrounded amounts of a sensible distribution. */
  lemma SensibleAmounts(net: real, ss: seq<Stakeholder>, rules: seq<RevenueRule>) returns (raws: seq<real>)
    requires net >= 0.0 && Sensible(ss)
    ensures raws == Allocate(Claims(net, Payees(ss, rules)), net)
    ensures |raws| == |Payees(ss, rules)| && NonNegative(raws) && Sum(raws) <= net
    ensures NonNegative(GrossAmounts(net, ss, rules))
  {
    var claims := Claims(net, Payees(ss, rules));
    raws := Allocate(claims, net);
    SensibleClaims(net, ss, rules);
    WaterfallStaysWithinBalance(claims, net);
    forall i | 0 <= i < |raws| ensures Round2(raws[i]) >= 0.0 {
      HalfEvenIs(raws[i] * 100.0, RoundHalfEven(raws[i] * 100.0));
    }
  }

  /** The adjusted amount as the service computes it. */
  function AdjustedAmount(net: real, gross: seq<real>): real
    requires gross != []
  {
    Round2(gross[LargestIndex(gross)] + Round2(net - Sum(gross)))
  }

  /** The same in cents: the largest count of cents plus the rounded residue. */
  lemma AdjustedInCents(net: real, raws: seq<real>) returns (big: int, residue: int)
    requires raws != []
    ensures AdjustedAmount(net, Rounded(raws)) == (big + residue) as real / 100.0
    ensures residue == RoundHalfEven(net * 100.0 - SumInt(CentsOf(raws)) as real)
    ensures big in CentsOf(raws) && forall i :: 0 <= i < |raws| ==> CentsOf(raws)[i] <= big
  {
    var gross, cs := Rounded(raws), CentsOf(raws);
    var k := LargestIndex(gross);
    RoundedSumInCents(raws);
    assert (net - Sum(gross)) * 100.0 == net * 100.0 - SumInt(cs) as real;
    big, residue := cs[k], RoundHalfEven((net - Sum(gross)) * 100.0);
    forall i | 0 <= i < |cs| ensures cs[i] <= big { assert gross[i] <= gross[k]; }
    AddCents(big, residue);
  }

  lemma AdjustedLargest(net: real, raws: seq<real>)
    requires raws != [] && Sum(raws) <= net && net > SafeNet(|raws|)
    ensures AdjustedAmount(net, Rounded(raws)) >= 0.0
  {
    var big, residue := AdjustedInCents(net, raws);
    RoundingGain(raws);
    SumAtMost(CentsOf(raws), big);
    LargestAbsorbsResidue(|raws|, net, 100.0 * Sum(raws), SumInt(CentsOf(raws)), big, residue);
  }

  /** No payout is negative once the net revenue exceeds `SafeNet` of the number
      of payees; `SafeNet(n)` is below 0.005 n (n + 1). */
  lemma NoNegativePayout(net: real, ss: seq<Stakeholder>, rules: seq<RevenueRule>)
    requires net >= 0.0 && Sensible(ss)
    requires net > SafeNet(|Payees(ss, rules)|)
    ensures NonNegative(Payouts(net, ss, rules))
  {
    var raws := SensibleAmounts(net, ss, rules);
    if raws != [] { AdjustedLargest(net, raws); }
  }

  lemma AddCents(a: int, b: int)
    ensures Round2(a as real / 100.0 + b as real / 100.0) == (a + b) as real / 100.0
  {
    assert (a as real / 100.0 + b as real / 100.0) * 100.0 == (a + b) as real;
    HalfEvenIs((a + b) as real, a + b);
  }

  // ----- the threshold is exact ----------------------------------------------------

  /** With `n` payees and more than `t` to distribute, nobody is ever charged. */
  ghost predicate SafeAbove(n: nat, t: real) {
    forall net: real, ss: seq<Stakeholder>, rules: seq<RevenueRule> ::
      net >= 0.0 && net > t && Sensible(ss) && |Payees(ss, rules)| == n
      ==> NonNegative(Payouts(net, ss, rules))
  }

  const OPEN_RULE := RevenueRule("everyone", "", 0, 100.0, [])

  /** `n` guests who share equally. */
  function EqualGuests(n: nat): seq<Stakeholder>
    requires n > 0
  {
    seq(n, i requires 0 <= i < n =>
      Stakeholder(seq(i, _ => 'i'), "Guest", "guest", 100.0 / n as real, None, None))
  }

  lemma EveryoneIsPaid(ss: seq<Stakeholder>)
    ensures |Payees(ss, [OPEN_RULE])| == |ss|
    ensures forall s :: s in Payees(ss, [OPEN_RULE]) <==> s in ss
  {
    var rules := [OPEN_RULE];
    StableSortSpec(ss, ByPriority(rules));
    forall s ensures multiset(Payees(ss, rules))[s] == multiset(ss)[s] {
      MatchedIs(SortByRules(ss, rules), rules, s);
    }
    assert multiset(Payees(ss, rules)) == multiset(ss);
    SameElements(Payees(ss, rules), ss);
  }

  lemma GuestClaim(n: nat, net: real, s: Stakeholder)
    requires n > 0 && s in EqualGuests(n)
    ensures Claim(net, s) == net / n as real && SensibleLimits(s)
  {
    PercentageOfEqualShare(net, n);
  }

  lemma EqualClaims(n: nat, net: real) returns (claims: seq<real>)
    requires n > 0
    ensures claims == Claims(net, Payees(EqualGuests(n), [OPEN_RULE]))
    ensures |claims| == n && forall i :: 0 <= i < n ==> claims[i] == net / n as real
    ensures Sensible(EqualGuests(n))
  {
    var ss := EqualGuests(n);
    var payees := Payees(ss, [OPEN_RULE]);
    claims := Claims(net, payees);
    EveryoneIsPaid(ss);
    forall s | s in ss ensures Claim(net, s) == net / n as real && SensibleLimits(s) {
      GuestClaim(n, net, s);
    }
    forall i | 0 <= i < n ensures claims[i] == net / n as real {
      assert payees[i] in ss;
    }
  }

  lemma PercentageOfEqualShare(net: real, n: nat)
    requires n > 0
    ensures Share(net, 100.0 / n as real) == net / n as real
  {
    var d := n as real;
    assert net * (100.0 / d) == (net / d) * 100.0 by {
      assert (net / d) * d == net;
      assert (100.0 / d) * d == 100.0;
      ProductOfQuotients(net / d, 100.0 / d, d);
    }
  }

  lemma ProductOfQuotients(a: real, b: real, d: real)
    requires b * d == 100.0
    ensures (a * d) * b == a * 100.0
  {
    assert (a * d) * b == a * (b * d);
  }

  lemma {:induction false} EqualAllocation(claims: seq<real>, c: real, balance: real)
    requires c >= 0.0 && balance == |claims| as real * c
    requires forall i :: 0 <= i < |claims| ==> claims[i] == c
    ensures Allocate(claims, balance) == claims && Sum(claims) == balance
  {
    if claims != [] {
      assert balance - c == (|claims| - 1) as real * c;
      assert (|claims| - 1) as real * c >= 0.0;
      EqualAllocation(claims[1..], c, balance - c);
    }
  }

  lemma {:induction false} EqualCents(xs: seq<real>, c: real, k: int)
    requires forall i :: 0 <= i < |xs| ==> xs[i] == c
    requires RoundHalfEven(c * 100.0) == k
    ensures SumInt(CentsOf(xs)) == |xs| * k
    ensures forall i :: 0 <= i < |xs| ==> CentsOf(xs)[i] == k
  {
    if xs != [] {
      EqualCents(xs[1..], c, k);
      assert CentsOf(xs)[1..] == CentsOf(xs[1..]);
    }
  }

  /** Amounts in which `n` equal shares round up to n/2 - 1 cents each. */
  ghost predicate JustBelow(n: nat, net: real) {
    n >= 4 && (n * (n / 2 - 1)) as real - n as real / 2.0 < net * 100.0 < 100.0 * SafeNet(n)
  }

  lemma JustBelowMeans(n: nat, net: real)
    requires JustBelow(n, net)
    ensures n * (n / 2 - 1) >= n
    ensures -((n / 2) as real) - 0.5 < net * 100.0 - (n * (n / 2 - 1)) as real < -((n / 2) as real) + 0.5
    ensures net >= 0.0
  {
    assert n * (n / 2 - 1) == (n - 1) * (n / 2) - n + n / 2;
    MulLe(n, 1, n / 2 - 1);
  }

  lemma ShareRoundsUp(n: nat, net: real, share: real)
    requires JustBelow(n, net) && n as real * share == net
    ensures RoundHalfEven(share * 100.0) == n / 2 - 1
  {
    JustBelowMeans(n, net);
    var a := n * (n / 2 - 1);
    assert a as real == (n / 2 - 1) as real * n as real;
    DivideBounds(share * 100.0, (n / 2 - 1) as real, n as real, net * 100.0, a as real);
    HalfEvenIs(share * 100.0, n / 2 - 1);
  }

  lemma DivideBounds(x: real, m: real, d: real, y: real, a: real)
    requires d > 0.0 && x * d == y && m * d == a
    requires a - d / 2.0 < y < a + d / 2.0
    ensures m - 0.5 < x < m + 0.5
  {
    assert (x - m + 0.5) * d == y - a + d / 2.0;
    assert (m + 0.5 - x) * d == a - y + d / 2.0;
    SignOfFactor(x - m + 0.5, d, y - a + d / 2.0);
    SignOfFactor(m + 0.5 - x, d, a - y + d / 2.0);
  }

  /** Just below `SafeNet(n)` an equal split among n guests charges one of them
      a cent: each share rounds up to n/2 - 1 cents and the largest payout must
      give back n/2. */
  lemma EqualSplitGoesNegative(n: nat, net: real)
    requires JustBelow(n, net)
    ensures !NonNegative(Payouts(net, EqualGuests(n), [OPEN_RULE]))
  {
    var claims := EqualClaims(n, net);
    EqualClaimsGoNegative(n, net, EqualGuests(n), claims);
  }

  lemma EqualClaimsGoNegative(n: nat, net: real, ss: seq<Stakeholder>, claims: seq<real>)
    requires JustBelow(n, net)
    requires claims == Claims(net, Payees(ss, [OPEN_RULE])) && |claims| == n
    requires forall i :: 0 <= i < n ==> claims[i] == net / n as real
    ensures !NonNegative(Payouts(net, ss, [OPEN_RULE]))
  {
    JustBelowMeans(n, net);
    var share := net / n as real;
    assert n as real * share == net;
    ShareRoundsUp(n, net, share);
    EqualAllocation(claims, share, net);
    EqualSplitAmounts(n, net, share, claims);
    NegativeWhenAdjustedIs(net, ss, [OPEN_RULE], claims);
  }

  lemma NegativeWhenAdjustedIs(net: real, ss: seq<Stakeholder>, rules: seq<RevenueRule>, raws: seq<real>)
    requires raws != [] && raws == Allocate(Claims(net, Payees(ss, rules)), net)
    requires NeedsAdjustment(net, Rounded(raws)) && AdjustedAmount(net, Rounded(raws)) < 0.0
    ensures !NonNegative(Payouts(net, ss, rules))
  {
    var nets := Rounded(raws);
    var k := LargestIndex(nets);
    assert Payouts(net, ss, rules) == Adjust(net, nets) == nets[k := AdjustedAmount(net, nets)];
    assert Payouts(net, ss, rules)[k] < 0.0;
  }

  lemma EqualSplitAmounts(n: nat, net: real, share: real, claims: seq<real>)
    requires JustBelow(n, net) && |claims| == n
    requires RoundHalfEven(share * 100.0) == n / 2 - 1
    requires forall i :: 0 <= i < n ==> claims[i] == share
    ensures NeedsAdjustment(net, Rounded(claims))
    ensures AdjustedAmount(net, Rounded(claims)) == -0.01
  {
    EqualCents(claims, share, n / 2 - 1);
    ResidueIsHalf(n, net);
    RoundedSumInCents(claims);
    var big, residue := AdjustedInCents(net, claims);
    assert big == n / 2 - 1 && residue == -(n / 2);
  }

  lemma ResidueIsHalf(n: nat, net: real)
    requires JustBelow(n, net)
    ensures RoundHalfEven(net * 100.0 - (n * (n / 2 - 1)) as real) == -(n / 2)
    ensures net * 100.0 - (n * (n / 2 - 1)) as real < -1.0
  {
    JustBelowMeans(n, net);
    HalfEvenIs(net * 100.0 - (n * (n / 2 - 1)) as real, -(n / 2));
  }

  lemma SignOfFactor(x: real, d: real, product: real)
    requires d > 0.0 && x * d == product && product > 0.0
    ensures x > 0.0
  {
  }

  /** For four or more payees `SafeNet` is the exact threshold: payouts are
      non-negative above `t` for all inputs if and only if `t >= SafeNet(n)`.
      It grows with the square of the number of payees. */
  lemma SafeNetIsExact(n: nat, t: real)
    requires n >= 4
    ensures SafeAbove(n, t) <==> t >= SafeNet(n)
  {
    if t >= SafeNet(n) {
      forall net: real, ss: seq<Stakeholder>, rules: seq<RevenueRule>
        | net >= 0.0 && net > t && Sensible(ss) && |Payees(ss, rules)| == n
        ensures NonNegative(Payouts(net, ss, rules))
      {
        NoNegativePayout(net, ss, rules);
      }
    } else {
      var low := ((n * (n / 2 - 1)) as real - n as real / 2.0) / 100.0;
      assert low < SafeNet(n) by {
        assert n * (n / 2 - 1) == (n - 1) * (n / 2) - n + n / 2;
      }
      var net := (Max(t, low) + SafeNet(n)) / 2.0;
      assert JustBelow(n, net);
      JustBelowMeans(n, net);
      var claims := EqualClaims(n, net);
      EqualSplitGoesNegative(n, net);
      assert |Payees(EqualGuests(n), [OPEN_RULE])| == n;
    }
  }

  /** With up to three payees no payout is ever negative. */
  lemma FewPayeesAreSafe(net: real, ss: seq<Stakeholder>, rules: seq<RevenueRule>)
    requires net >= 0.0 && Sensible(ss) && |Payees(ss, rules)| <= 3
    ensures NonNegative(Payouts(net, ss, rules))
  {
    var n := |Payees(ss, rules)|;
    if n > 0 {
      assert n == 1 || n == 2 || n == 3;
      NoNegativePayout(net, ss, rules);
    }
  }

  /** The bound quadratic in the number of payees. */
  lemma QuadraticBoundIsSafe(net: real, ss: seq<Stakeholder>, rules: seq<RevenueRule>)
    requires Sensible(ss)
    requires net >= 0.005 * (|Payees(ss, rules)| * (|Payees(ss, rules)| + 1)) as real
    ensures NonNegative(Payouts(net, ss, rules))
  {
    var n := |Payees(ss, rules)|;
    assert n * (n + 1) >= 0;
    if n > 0 {
      assert 2 * ((n - 1) * (n / 2)) <= (n - 1) * n by { MulLe(n - 1, 2 * (n / 2), n); }
      NoNegativePayout(net, ss, rules);
    }
  }
}

/** What the rules, the limits, the fees and the adjustment mean for the payout
    records, told by the fields of stakeholders, rules and inputs alone. */
module RevenueRecords {
  import opened Wrappers
  import opened Money
  import opened Sorting
  import opened Counting
  import opened RevenueModels
  import opened FeeTable
  import opened Waterfall
  import opened RevenueTheorems
  import opened RevenueSharing

  // ----- which rule applies ------------------------------------------------------------

  predicate IsSpace(c: char) { c == ' ' }

  predicate OccursAt(part: string, text: string, i: int) {
    0 <= i <= |text| - |part| && text[i..i + |part|] == part
  }

  ghost predicate OccursIn(part: string, text: string) {
    exists i :: OccursAt(part, text, i)
  }

  /** The role is listed, or occurs, small and without the rule's spaces, in its name. */
  ghost predicate NamesRole(rule: RevenueRule, role: string) {
    role in rule.appliesTo || OccursIn(Lower(role), Select(Lower(rule.name), Not(IsSpace)))
  }

  lemma {:induction false} ContainsIs(text: string, part: string)
    ensures Contains(text, part) <==> OccursIn(part, text)
  {
    if part <= text {
      assert OccursAt(part, text, 0);
    } else if text != "" {
      ContainsIs(text[1..], part);
      if i :| OccursAt(part, text[1..], i) { OccursLater(part, text, i); }
      if i :| OccursAt(part, text, i) {
        assert i != 0;
        OccursLater(part, text, i - 1);
      }
    }
  }

  lemma OccursLater(part: string, text: string, i: nat)
    requires text != ""
    ensures OccursAt(part, text[1..], i) <==> OccursAt(part, text, i + 1)
  {
    if i <= |text| - 1 - |part| { assert text[1..][i..i + |part|] == text[i + 1..i + 1 + |part|]; }
  }

  lemma {:induction false} RemoveSpacesIs(s: string)
    ensures RemoveSpaces(s) == Select(s, Not(IsSpace))
  {
    if s != "" {
      RemoveSpacesIs(s[1..]);
      SelectConcat([s[0]], s[1..], Not(IsSpace));
      SelectSnoc([], s[0], Not(IsSpace));
      assert s == [s[0]] + s[1..] && [s[0]] == [] + [s[0]];
    }
  }

  lemma LowerAt(s: string, i: nat)
    requires i < |s|
    ensures |Lower(s)| == |s|
    ensures 'A' <= s[i] <= 'Z' ==> Lower(s)[i] as int == s[i] as int + 32
    ensures !('A' <= s[i] <= 'Z') ==> Lower(s)[i] == s[i]
  {
  }

  lemma RoleMatchesIs(s: Stakeholder, rule: RevenueRule)
    ensures RoleMatches(s, rule) <==> NamesRole(rule, s.role)
  {
    ContainsIs(RemoveSpaces(Lower(rule.name)), Lower(s.role));
    RemoveSpacesIs(Lower(rule.name));
  }

  /** The rule of a stakeholder is the first one that names the role or has no roles. */
  lemma {:induction false} RuleOfStakeholder(s: Stakeholder, rules: seq<RevenueRule>)
    ensures FindRule(s, rules).None? ==> forall k :: 0 <= k < |rules| ==> !IsOpenTo(rules[k], s.role)
    ensures FindRule(s, rules).Some? ==>
              exists k :: IsFirstOpen(rules, s.role, k) && FindRule(s, rules).value == rules[k]
  {
    if rules != [] {
      var tail := rules[1..];
      RuleOfStakeholder(s, tail);
      RoleMatchesIs(s, rules[0]);
      if IsOpenTo(rules[0], s.role) {
        assert IsFirstOpen(rules, s.role, 0);
      } else if FindRule(s, rules).Some? {
        var k :| IsFirstOpen(tail, s.role, k) && FindRule(s, tail).value == tail[k];
        OneRuleLater(rules, s.role, k);
      } else {
        assert forall k :: 1 <= k < |rules| ==> rules[k] == tail[k - 1];
      }
    }
  }

  ghost predicate IsOpenTo(rule: RevenueRule, role: string) { rule.appliesTo == [] || NamesRole(rule, role) }

  ghost predicate IsFirstOpen(rules: seq<RevenueRule>, role: string, k: int) {
    0 <= k < |rules| && IsOpenTo(rules[k], role) && forall j :: 0 <= j < k ==> !IsOpenTo(rules[j], role)
  }

  lemma OneRuleLater(rules: seq<RevenueRule>, role: string, k: int)
    requires rules != [] && !IsOpenTo(rules[0], role) && IsFirstOpen(rules[1..], role, k)
    ensures IsFirstOpen(rules, role, k + 1) && rules[k + 1] == rules[1..][k]
  {
    forall j | 0 <= j < k + 1 ensures !IsOpenTo(rules[j], role) {
      if j > 0 { assert rules[j] == rules[1..][j - 1]; }
    }
  }

  /** The rank is the priority of the first rule that names the role, 999 without one. */
  lemma {:induction false} RankOfStakeholder(s: Stakeholder, rules: seq<RevenueRule>)
    ensures (forall k :: 0 <= k < |rules| ==> !NamesRole(rules[k], s.role)) ==> Priority(s, rules) == 999
    ensures forall k :: IsFirstNaming(rules, s.role, k) ==> Priority(s, rules) == rules[k].priority
  {
    if rules != [] {
      var tail := rules[1..];
      RankOfStakeholder(s, tail);
      RoleMatchesIs(s, rules[0]);
      assert forall k :: 0 <= k < |tail| ==> tail[k] == rules[k + 1];
      forall k | IsFirstNaming(rules, s.role, k) ensures Priority(s, rules) == rules[k].priority {
        if k > 0 {
          assert rules[k] == tail[k - 1];
          assert IsFirstNaming(tail, s.role, k - 1);
        }
      }
    }
  }

  ghost predicate IsFirstNaming(rules: seq<RevenueRule>, role: string, k: int) {
    0 <= k < |rules| && NamesRole(rules[k], role) && forall j :: 0 <= j < k ==> !NamesRole(rules[j], role)
  }

  // ----- limits -----------------------------------------------------------------------------

  predicate Lifts(s: Stakeholder, share: real) {
    s.minAmount.Some? && s.minAmount.value != 0.0 && share < s.minAmount.value
  }

  predicate Caps(s: Stakeholder, share: real) {
    s.maxAmount.Some? && s.maxAmount.value != 0.0 && share > s.maxAmount.value
  }

  /** A present, nonzero minimum above the percentage's share wins; else a present,
      nonzero maximum below it; else the share. */
  lemma LimitsDecide(net: real, s: Stakeholder)
    ensures var share := net * s.percentage / 100.0;
            && (Lifts(s, share) ==> Claim(net, s) == s.minAmount.value)
            && (!Lifts(s, share) && Caps(s, share) ==> Claim(net, s) == s.maxAmount.value)
            && (!Lifts(s, share) && !Caps(s, share) ==> Claim(net, s) == share)
  {
  }

  /** The amounts behind the records, whatever the sign of the net revenue: in turn
      each payee's share within its limits, or what the others left of the balance. */
  lemma AmountsOfRecords(net: real, ss: seq<Stakeholder>, rules: seq<RevenueRule>) returns (amounts: seq<real>)
    ensures |amounts| == |Payees(ss, rules)| == |GrossAmounts(net, ss, rules)|
    ensures forall i :: 0 <= i < |amounts| ==> GrossAmounts(net, ss, rules)[i] == Round2(amounts[i])
    ensures forall i :: 0 <= i < |amounts| ==>
              var s, left := Payees(ss, rules)[i], net - Sum(amounts[..i]);
              var share := net * s.percentage / 100.0;
              var uncut := if Lifts(s, share) then s.minAmount.value
                           else if Caps(s, share) then s.maxAmount.value else share;
              amounts[i] == if uncut > left then left else uncut
  {
    var payees := Payees(ss, rules);
    amounts := Allocate(Claims(net, payees), net);
    forall i | 0 <= i < |amounts|
      ensures amounts[i] == Min(Claim(net, payees[i]), net - Sum(amounts[..i]))
    {
      AllocateAt(Claims(net, payees), net, i);
    }
    forall i | 0 <= i < |amounts| { LimitsDecide(net, payees[i]); }
  }

  lemma {:induction false} AllocateAt(claims: seq<real>, balance: real, i: nat)
    requires i < |claims|
    ensures Allocate(claims, balance)[i] == Min(claims[i], balance - Sum(Allocate(claims, balance)[..i]))
  {
    var amount := Min(claims[0], balance);
    var rest := Allocate(claims[1..], balance - amount);
    var all := Allocate(claims, balance);
    assert all == [amount] + rest;
    if i == 0 {
      assert all[..0] == [];
    } else {
      AllocateAt(claims[1..], balance - amount, i - 1);
      assert all[..i] == [amount] + rest[..i - 1];
      assert all[..i][1..] == rest[..i - 1];
    }
  }

  lemma Round2Monotone(x: real, y: real)
    requires x <= y
    ensures Round2(x) <= Round2(y)
  {
    var j, k := RoundHalfEven(x * 100.0), RoundHalfEven(y * 100.0);
    HalfEvenMonotone(x * 100.0, y * 100.0);
  }

  lemma HalfEvenMonotone(x: real, y: real)
    requires x <= y
    ensures RoundHalfEven(x) <= RoundHalfEven(y)
  {
    HalfEvenIs(x, RoundHalfEven(x));
    HalfEvenIs(y, RoundHalfEven(y));
  }

  /** The stakeholder has a maximum, and no minimum overrides it. */
  predicate OnlyCapped(net: real, s: Stakeholder) {
    s.maxAmount.Some? && s.maxAmount.value != 0.0
    && !(s.minAmount.Some? && s.minAmount.value != 0.0 && net * s.percentage / 100.0 < s.minAmount.value)
  }

  lemma CappedClaim(net: real, s: Stakeholder)
    requires OnlyCapped(net, s)
    ensures Claim(net, s) <= s.maxAmount.value
  {
    LimitsDecide(net, s);
  }

  /** A record's gross amount is never above the rounded maximum, unless the minimum
      overrides it. */
  lemma RecordsKeepTheMaximum(net: real, ss: seq<Stakeholder>, rules: seq<RevenueRule>, i: nat)
    requires i < |Payees(ss, rules)| && OnlyCapped(net, Payees(ss, rules)[i])
    ensures GrossAmounts(net, ss, rules)[i] <= Round2(Payees(ss, rules)[i].maxAmount.value)
  {
    var payees := Payees(ss, rules);
    CappedClaim(net, payees[i]);
    GrossIsAtMost(net, payees, i, payees[i].maxAmount.value);
  }

  lemma GrossIsAtMost(net: real, payees: seq<Stakeholder>, i: nat, most: real)
    requires i < |payees| && Claim(net, payees[i]) <= most
    ensures Rounded(Allocate(Claims(net, payees), net))[i] <= Round2(most)
  {
    AllocateAt(Claims(net, payees), net, i);
    Round2Monotone(Allocate(Claims(net, payees), net)[i], most);
  }

  /** Nor below the rounded minimum, unless the balance cut it, and then nothing is
      left for anyone behind. */
  lemma RecordsKeepTheMinimum(net: real, ss: seq<Stakeholder>, rules: seq<RevenueRule>, i: nat)
    requires net >= 0.0 && Sensible(ss) && i < |Payees(ss, rules)|
    requires var s := Payees(ss, rules)[i];
             && s.minAmount.Some? && s.minAmount.value != 0.0
             && (s.maxAmount.Some? && s.maxAmount.value != 0.0 ==> s.minAmount.value <= s.maxAmount.value)
    ensures var s, gross := Payees(ss, rules)[i], GrossAmounts(net, ss, rules);
            || gross[i] >= Round2(s.minAmount.value)
            || forall j :: i < j < |gross| ==> gross[j] == 0.0
  {
    var payees := Payees(ss, rules);
    var claims := Claims(net, payees);
    var amounts := Allocate(claims, net);
    var s := payees[i];
    SensibleClaims(net, ss, rules);
    LimitsDecide(net, s);
    WaterfallStaysWithinBalance(claims, net);
    if amounts[i] == claims[i] {
      Round2Monotone(s.minAmount.value, amounts[i]);
    } else {
      forall j | i < j < |amounts| ensures Rounded(amounts)[j] == 0.0 {
        NothingAfterACut(claims, net, i, j);
        Round2Error(0.0);
      }
    }
  }

  // ----- the adjustment ------------------------------------------------------------------------

  /** Up to a cent either way nothing is adjusted; beyond that the first of the
      largest amounts takes the rounded difference and no other changes. */
  lemma PayoutsAreAdjusted(net: real, ss: seq<Stakeholder>, rules: seq<RevenueRule>)
    ensures var gross, paid := GrossAmounts(net, ss, rules), Payouts(net, ss, rules);
            var left := net - Sum(gross);
            && |paid| == |gross|
            && (gross == [] || -0.01 <= left <= 0.01 ==> paid == gross)
            && (gross != [] && (left < -0.01 || left > 0.01) ==>
                 exists k :: 0 <= k < |gross| && IsFirstLargest(gross, k)
                          && paid[k] == Round2(gross[k] + Round2(left))
                          && forall i :: 0 <= i < |gross| && i != k ==> paid[i] == gross[i])
  {
    var gross := GrossAmounts(net, ss, rules);
    if gross != [] {
      FirstLargestIs(gross);
      assert IsFirstLargest(gross, LargestIndex(gross));
    }
  }

  lemma FirstLargestIs(xs: seq<real>)
    requires xs != []
    ensures IsFirstLargest(xs, LargestIndex(xs))
  {
  }

  ghost predicate IsFirstLargest(xs: seq<real>, k: int) {
    0 <= k < |xs| && (forall i :: 0 <= i < |xs| ==> xs[i] <= xs[k]) && forall i :: 0 <= i < k ==> xs[i] < xs[k]
  }

  // ----- fees and percentages ----------------------------------------------------------------------

  lemma {:induction false} FeeTotalIsSum(fees: Fees)
    ensures FeeTotal(fees) == Sum(seq(|fees|, i requires 0 <= i < |fees| => fees[i].1))
  {
    if fees != [] {
      FeeTotalIsSum(fees[1..]);
      var amounts := seq(|fees|, i requires 0 <= i < |fees| => fees[i].1);
      assert amounts[1..] == seq(|fees[1..]|, i requires 0 <= i < |fees[1..]| => fees[1..][i].1);
    }
  }

  lemma {:induction false} RuleTotalIsSum(rules: seq<RevenueRule>)
    ensures RuleTotal(rules) == Sum(seq(|rules|, i requires 0 <= i < |rules| => rules[i].percentage))
  {
    if rules != [] {
      RuleTotalIsSum(rules[1..]);
      var percentages := seq(|rules|, i requires 0 <= i < |rules| => rules[i].percentage);
      assert percentages[1..] == seq(|rules[1..]|, i requires 0 <= i < |rules[1..]| => rules[1..][i].percentage);
    }
  }

  /** What `calculate_revenue_shares` deducts: the caller's fees, and unless the caller
      names them a percentage plus a fixed amount per ticket, converted if a rate is
      known, and the platform's percentage. */
  lemma FeesOfInput(service: RevenueSharingService, input: EventRevenueInput, rate: Option<real>)
    requires Keyed(input.additionalFees)
    ensures var config, more := service.config, input.additionalFees;
            var fixedFee := if rate.Some? then config.processingFixedFee * rate.value else config.processingFixedFee;
            var processing := input.totalSales * config.processingFeeRate / 100.0 + input.ticketCount as real * fixedFee;
            var platform := input.totalSales * config.defaultPlatformFee / 100.0;
            FeeTotal(service.FeesFor(input, input.totalSales, rate))
            == Sum(seq(|more|, i requires 0 <= i < |more| => more[i].1))
             + (if exists i :: 0 <= i < |more| && more[i].0 == "processing" then 0.0 else processing)
             + (if exists i :: 0 <= i < |more| && more[i].0 == "platform" then 0.0 else platform)
  {
    var config, more := service.config, input.additionalFees;
    var fixedFee := if rate.Some? then config.processingFixedFee * rate.value else config.processingFixedFee;
    var processing := input.totalSales * config.processingFeeRate / 100.0 + input.ticketCount as real * fixedFee;
    var platform := input.totalSales * config.defaultPlatformFee / 100.0;
    assert service.FixedFee(rate) == fixedFee;
    assert ProcessingFee(config, input.totalSales, input.ticketCount, fixedFee) == processing;
    assert PlatformFee(config, input.totalSales) == platform;
    assert service.FeesFor(input, input.totalSales, rate) == PutAll(ComputedFees(processing, platform), more);
    FeesDeducted(processing, platform, more);
    FeeTotalIsSum(more);
  }
}

/** The revenue-sharing service (src/revenue_sharing_service.py): loops and
    object updates as the service performs them, tied to `Waterfall`. */
module RevenueSharing {
  import opened Wrappers
  import opened Money
  import opened RevenueModels
  import opened Waterfall
  import opened FeeTable

  function NetAmounts(ds: seq<PayoutDistribution>): seq<real>
    reads ds
  {
    seq(|ds|, i requires 0 <= i < |ds| reads ds => ds[i].netAmount)
  }

  /** The payouts list describes `payees` and shows `gross`, in order. */
  ghost predicate Describes(ds: seq<PayoutDistribution>, payees: seq<Stakeholder>, gross: seq<real>,
                            rules: seq<RevenueRule>, currency: string)
  {
    && |ds| == |payees| == |gross|
    && (forall i, j :: 0 <= i < j < |ds| ==> ds[i] != ds[j])
    && forall i :: 0 <= i < |ds| ==>
         && FindRule(payees[i], rules).Some?
         && ds[i].stakeholderId == payees[i].id && ds[i].stakeholderName == payees[i].name
         && ds[i].role == payees[i].role && ds[i].percentageApplied == payees[i].percentage
         && ds[i].grossAmount == gross[i] && ds[i].currency == currency
         && ds[i].ruleUsed == FindRule(payees[i], rules).value.id
  }

  /** The loop of `_calculate_distributions` after serving `served`. */
  ghost predicate Serving(net: real, served: seq<Stakeholder>, rules: seq<RevenueRule>, currency: string,
                          ds: seq<PayoutDistribution>, balance: real)
    reads ds
  {
    var payees := Matched(served, rules);
    var amounts := Allocate(Claims(net, payees), net);
    && balance == net - Sum(amounts)
    && Describes(ds, payees, Rounded(amounts), rules, currency)
    && NetAmounts(ds) == Rounded(amounts)
  }

  lemma ServingStart(net: real, rules: seq<RevenueRule>, currency: string)
    ensures Serving(net, [], rules, currency, [], net)
  {
  }

  lemma ServingNext(net: real, served: seq<Stakeholder>, rules: seq<RevenueRule>, currency: string,
                    ds: seq<PayoutDistribution>, balance: real,
                    s: Stakeholder, amount: real, d: PayoutDistribution, next: seq<Stakeholder>)
    requires next == served + [s]
    requires Serving(net, served, rules, currency, ds, balance)
    requires FindRule(s, rules).Some? && amount == Min(Claim(net, s), balance)
    requires d !in ds && d.netAmount == Round2(amount)
    requires Describes([d], [s], [Round2(amount)], rules, currency)
    ensures Serving(net, next, rules, currency, ds + [d], balance - amount)
  {
    var payees := Matched(served, rules);
    var amounts := Allocate(Claims(net, payees), net);
    MatchedAppend(served, s, rules);
    var served' := ServeNext(net, payees, amounts, balance, s);
    var extended := amounts + [amount];
    assert served' == amount;
    assert Matched(next, rules) == payees + [s];
    assert Allocate(Claims(net, payees + [s]), net) == extended;
    assert NetAmounts(ds + [d]) == NetAmounts(ds) + [d.netAmount];
    DescribesAppend(ds, payees, Rounded(amounts), rules, currency, d, s, Round2(amount));
  }

  lemma ServingSkip(net: real, served: seq<Stakeholder>, rules: seq<RevenueRule>, currency: string,
                    ds: seq<PayoutDistribution>, balance: real, s: Stakeholder, next: seq<Stakeholder>)
    requires next == served + [s]
    requires Serving(net, served, rules, currency, ds, balance)
    requires FindRule(s, rules).None?
    ensures Serving(net, next, rules, currency, ds, balance)
  {
    MatchedAppend(served, s, rules);
    assert Matched(next, rules) == Matched(served, rules);
  }

  lemma DescribesAppend(ds: seq<PayoutDistribution>, payees: seq<Stakeholder>, gross: seq<real>,
                        rules: seq<RevenueRule>, currency: string, d: PayoutDistribution, s: Stakeholder, g: real)
    requires Describes(ds, payees, gross, rules, currency) && d !in ds
    requires Describes([d], [s], [g], rules, currency)
    ensures Describes(ds + [d], payees + [s], gross + [g], rules, currency)
  {
  }

  class RevenueSharingService {
    const config: RevenueShareConfig

    constructor (config: RevenueShareConfig)
      ensures this.config == config
    {
      this.config := config;
    }

    function DefaultStakeholders(eventId: string): seq<Stakeholder> {
      [ Stakeholder("organizer_" + eventId, "Event Organizer", "organizer", config.defaultOrganizerShare, None, None),
        Stakeholder("platform_" + eventId, "Platform", "platform", config.defaultPlatformFee, None, None),
        Stakeholder("venue_" + eventId, "Venue", "venue", config.defaultVenueFee, None, None) ]
    }

    function DefaultRules(): seq<RevenueRule> {
      [ RevenueRule("platform_fee_rule", "Platform Fee", 1, config.defaultPlatformFee, []),
        RevenueRule("organizer_share_rule", "Organizer Share", 2, config.defaultOrganizerShare, []),
        RevenueRule("venue_fee_rule", "Venue Fee", 3, config.defaultVenueFee, []) ]
    }

    /** `_calculate_distributions`: one pass over the stakeholders in priority
        order, then the mutation of the largest payout. */
    method CalculateDistributions(netRevenue: real, stakeholders: seq<Stakeholder>,
                                  rules: seq<RevenueRule>, currency: string)
      returns (distributions: seq<PayoutDistribution>, actualRemaining: real)
      ensures fresh(distributions)
      ensures Describes(distributions, Payees(stakeholders, rules),
                        GrossAmounts(netRevenue, stakeholders, rules), rules, currency)
      ensures NetAmounts(distributions) == Payouts(netRevenue, stakeholders, rules)
      ensures actualRemaining == netRevenue - Sum(NetAmounts(distributions))
    {
      var sorted := SortByRules(stakeholders, rules);
      var remainingBalance;
      ghost var served;
      distributions, remainingBalance, served := ServeInOrder(netRevenue, sorted, rules, currency);
      actualRemaining := AdjustLargest(netRevenue, distributions);
    }

    /** The loop of `_calculate_distributions` over the sorted stakeholders. */
    method ServeInOrder(netRevenue: real, sorted: seq<Stakeholder>, rules: seq<RevenueRule>, currency: string)
      returns (distributions: seq<PayoutDistribution>, remainingBalance: real, ghost served: seq<Stakeholder>)
      ensures fresh(distributions)
      ensures served == sorted && Serving(netRevenue, served, rules, currency, distributions, remainingBalance)
    {
      distributions, remainingBalance := [], netRevenue;
      served := [];
      ServingStart(netRevenue, rules, currency);
      for i := 0 to |sorted|
        invariant served == sorted[..i]
        invariant fresh(distributions)
        invariant Serving(netRevenue, served, rules, currency, distributions, remainingBalance)
      {
        ghost var next := served + [sorted[i]];
        var paid;
        paid, remainingBalance := Serve(netRevenue, sorted[i], rules, currency, distributions, remainingBalance,
                                        served, next);
        distributions, served := distributions + paid, next;
      }
    }

    /** One turn of that loop: nothing for a stakeholder no rule applies to. */
    method Serve(netRevenue: real, stakeholder: Stakeholder, rules: seq<RevenueRule>, currency: string,
                 distributions: seq<PayoutDistribution>, remainingBalance: real,
                 ghost served: seq<Stakeholder>, ghost next: seq<Stakeholder>)
      returns (paid: seq<PayoutDistribution>, remainingBalance': real)
      requires next == served + [stakeholder]
      requires Serving(netRevenue, served, rules, currency, distributions, remainingBalance)
      ensures fresh(paid)
      ensures Serving(netRevenue, next, rules, currency, distributions + paid, remainingBalance')
    {
      var rule := FindRule(stakeholder, rules);
      if rule.Some? {
        var distribution, grossAmount := Pay(netRevenue, stakeholder, rules, rule.value, currency, remainingBalance);
        ServingNext(netRevenue, served, rules, currency, distributions, remainingBalance,
                    stakeholder, grossAmount, distribution, next);
        paid, remainingBalance' := [distribution], remainingBalance - grossAmount;
      } else {
        ServingSkip(netRevenue, served, rules, currency, distributions, remainingBalance, stakeholder, next);
        paid, remainingBalance' := [], remainingBalance;
        assert distributions + paid == distributions;
      }
    }

    /** What such a turn pays: percentage, minimum or maximum, the cap at the
        remaining balance, and the payout record. */
    method Pay(netRevenue: real, stakeholder: Stakeholder, ghost rules: seq<RevenueRule>, rule: RevenueRule,
               currency: string, remainingBalance: real)
      returns (distribution: PayoutDistribution, grossAmount: real)
      requires FindRule(stakeholder, rules) == Some(rule)
      ensures fresh(distribution)
      ensures grossAmount == Min(Claim(netRevenue, stakeholder), remainingBalance)
      ensures distribution.netAmount == distribution.grossAmount == Round2(grossAmount)
      ensures distribution.stakeholderId == stakeholder.id && distribution.stakeholderName == stakeholder.name
      ensures distribution.role == stakeholder.role && distribution.percentageApplied == stakeholder.percentage
      ensures distribution.currency == currency && distribution.ruleUsed == rule.id
      ensures Describes([distribution], [stakeholder], [Round2(grossAmount)], rules, currency)
    {
      grossAmount := ShareWithinLimits(netRevenue, stakeholder);
      if grossAmount > remainingBalance {
        grossAmount := remainingBalance;
      }
      distribution := new PayoutDistribution(stakeholder, Round2(grossAmount), currency, rule);
    }

    /** The percentage's share, lifted to a present, nonzero minimum above it, or else
        cut to a present, nonzero maximum below it. */
    method ShareWithinLimits(netRevenue: real, stakeholder: Stakeholder) returns (amount: real)
      ensures amount == Claim(netRevenue, stakeholder)
      ensures var share, low, high := netRevenue * stakeholder.percentage / 100.0, stakeholder.minAmount, stakeholder.maxAmount;
              amount == if low.Some? && low.value != 0.0 && share < low.value then low.value
                        else if high.Some? && high.value != 0.0 && share > high.value then high.value else share
    {
      amount := netRevenue * stakeholder.percentage / 100.0;
      if Truthy(stakeholder.minAmount) && amount < stakeholder.minAmount.value {
        amount := stakeholder.minAmount.value;
      } else if Truthy(stakeholder.maxAmount) && amount > stakeholder.maxAmount.value {
        amount := stakeholder.maxAmount.value;
      }
    }

    /** The tail of `_calculate_distributions`: the largest payout absorbs a
        difference of more than a cent. */
    method AdjustLargest(netRevenue: real, distributions: seq<PayoutDistribution>) returns (actualRemaining: real)
      requires forall i, j :: 0 <= i < j < |distributions| ==> distributions[i] != distributions[j]
      modifies distributions
      ensures NetAmounts(distributions) == Adjust(netRevenue, old(NetAmounts(distributions)))
      ensures var before, left := old(NetAmounts(distributions)), netRevenue - Sum(old(NetAmounts(distributions)));
              NetAmounts(distributions) ==
              if before == [] || -0.01 <= left <= 0.01 then before
              else before[LargestIndex(before) := Round2(before[LargestIndex(before)] + Round2(left))]
      ensures actualRemaining == netRevenue - Sum(NetAmounts(distributions))
    {
      ghost var nets := NetAmounts(distributions);
      actualRemaining := netRevenue - Sum(NetAmounts(distributions));
      if distributions != [] && Abs(actualRemaining) > 0.01 {
        var k := LargestIndex(NetAmounts(distributions));
        var largest := distributions[k];
        var adjustment := Round2(actualRemaining);
        largest.netAmount := Round2(largest.netAmount + adjustment);
        assert NetAmounts(distributions) == nets[k := largest.netAmount];
        actualRemaining := netRevenue - Sum(NetAmounts(distributions));
      }
    }

    /** The fee table, with the fixed fee at its face value when no rate is known. */
    function FeesFor(input: EventRevenueInput, grossSales: real, rate: Option<real>): Fees {
      PutAll(ComputedFees(ProcessingFee(config, grossSales, input.ticketCount, FixedFee(rate)),
                          PlatformFee(config, grossSales)), input.additionalFees)
    }

    function FixedFee(rate: Option<real>): real {
      if rate.Some? then config.processingFixedFee * rate.value else config.processingFixedFee
    }

    /** `_calculate_fees`: computed fees first, then the caller's own entries,
        which replace a computed fee of the same name. `rate` is the outcome of
        the exchange-rate lookup from USD. */
    method CalculateFees(input: EventRevenueInput, grossSales: real, rate: Option<real>)
      returns (r: Result<Fees, RevenueError>)
      ensures r.Err? <==> rate.None? && input.currency != "USD"
      ensures r.Err? ==> r.error == CurrencyUnavailable
      ensures r.Ok? ==> r.value == FeesFor(input, grossSales, rate)
    {
      var fees: Fees := [];
      var processingPercentage := grossSales * config.processingFeeRate / 100.0;
      var convertedFixedFee;
      if rate.Some? {
        convertedFixedFee := config.processingFixedFee * rate.value;
      } else {
        if input.currency != "USD" {
          return Err(CurrencyUnavailable);
        }
        convertedFixedFee := config.processingFixedFee;
      }
      var processing := processingPercentage + input.ticketCount as real * convertedFixedFee;
      assert processing == ProcessingFee(config, grossSales, input.ticketCount, FixedFee(rate));
      fees := Put(fees, "processing", processing);
      var platform := grossSales * config.defaultPlatformFee / 100.0;
      assert platform == PlatformFee(config, grossSales);
      fees := Put(fees, "platform", platform);
      ghost var computed := fees;
      assert input.additionalFees[..0] == [];
      for i := 0 to |input.additionalFees|
        invariant fees == PutAll(computed, input.additionalFees[..i])
      {
        PutAllAppend(computed, input.additionalFees[..i], input.additionalFees[i]);
        assert input.additionalFees[..i + 1] == input.additionalFees[..i] + [input.additionalFees[i]];
        fees := Put(fees, input.additionalFees[i].0, input.additionalFees[i].1);
      }
      assert input.additionalFees[..|input.additionalFees|] == input.additionalFees;
      r := Ok(fees);
    }

    /** `calculate_revenue_shares`. `stored` are the stakeholders on record for
        the event. Money is conserved from the gross sales to the last cent. */
    method CalculateRevenueShares(input: EventRevenueInput, stored: seq<Stakeholder>, rate: Option<real>)
      returns (r: Result<RevenueCalculationResult, RevenueError>)
      ensures r.Err? <==> (rate.None? && input.currency != "USD") || RuleTotal(RulesFor(input)) > 100.0
      ensures r.Err? ==> r.error == if rate.None? && input.currency != "USD" then CurrencyUnavailable
                                    else PercentagesExceed(RuleTotal(RulesFor(input)))
      ensures r.Ok? ==>
        && r.value.totalGrossSales == input.totalSales
        && r.value.totalFees == FeeTotal(FeesFor(input, input.totalSales, rate))
        && r.value.totalPaidOut == Sum(NetAmounts(r.value.distributions))
        && NetAmounts(r.value.distributions)
             == Payouts(r.value.netRevenue, StakeholdersFor(input.eventId, stored), RulesFor(input))
        && r.value.netRevenue == r.value.totalPaidOut + r.value.remainingBalance
        && (input.netRevenue ==>
              input.totalSales == r.value.totalFees + r.value.totalPaidOut + r.value.remainingBalance)
        && (!input.netRevenue ==> input.totalSales == r.value.totalPaidOut + r.value.remainingBalance)
        && (r.value.distributions != [] ==> Abs(r.value.remainingBalance) <= 0.01)
      ensures r.Ok? ==>
        && r.value.eventId == input.eventId && r.value.currency == input.currency
        && |r.value.rulesApplied| == (if input.customRules == [] then 3 else |input.customRules|)
        && (forall i :: 0 <= i < |r.value.rulesApplied| ==>
              r.value.rulesApplied[i] == (if input.customRules == [] then DefaultRules() else input.customRules)[i].id)
        && NetAmounts(r.value.distributions)
             == Payouts(r.value.netRevenue, if stored == [] then DefaultStakeholders(input.eventId) else stored,
                        if input.customRules == [] then DefaultRules() else input.customRules)
        && r.value.rulesApplied == RuleIds(RulesFor(input))
        && Describes(r.value.distributions, Payees(StakeholdersFor(input.eventId, stored), RulesFor(input)),
                     GrossAmounts(r.value.netRevenue, StakeholdersFor(input.eventId, stored), RulesFor(input)),
                     RulesFor(input), input.currency)
    {
      var grossSales := input.totalSales;
      var netRevenue := grossSales;
      var fees := CalculateFees(input, grossSales, rate);
      if fees.Err? {
        return Err(fees.error);
      }
      var totalFees := FeeTotal(fees.value);
      if input.netRevenue {
        netRevenue := grossSales - totalFees;
      }
      var stakeholders := if stored == [] then DefaultStakeholders(input.eventId) else stored;
      var rules := if input.customRules == [] then DefaultRules() else input.customRules;
      var totalPct := RuleTotal(rules);
      if totalPct > 100.0 {
        return Err(PercentagesExceed(totalPct));
      }
      var distributions, remaining := CalculateDistributions(netRevenue, stakeholders, rules, input.currency);
      var totalPaidOut := Sum(NetAmounts(distributions));
      RemainderIsSmall(netRevenue, stakeholders, rules, NetAmounts(distributions), remaining);
      r := Ok(RevenueCalculationResult(input.eventId, grossSales, totalFees, netRevenue, distributions,
                                       totalPaidOut, remaining, input.currency, RuleIds(rules)));
    }

    function StakeholdersFor(eventId: string, stored: seq<Stakeholder>): seq<Stakeholder> {
      if stored == [] then DefaultStakeholders(eventId) else stored
    }

    function RulesFor(input: EventRevenueInput): seq<RevenueRule> {
      if input.customRules == [] then DefaultRules() else input.customRules
    }
  }

  function RuleTotal(rules: seq<RevenueRule>): real {
    if rules == [] then 0.0 else rules[0].percentage + RuleTotal(rules[1..])
  }

  function RuleIds(rules: seq<RevenueRule>): seq<string> {
    seq(|rules|, i requires 0 <= i < |rules| => rules[i].id)
  }

  // ----- the residual --------------------------------------------------------

  lemma {:induction false} SumOfWholeCents(xs: seq<real>)
    requires forall i :: 0 <= i < |xs| ==> WholeCents(xs[i])
    ensures WholeCents(Sum(xs))
  {
    if xs != [] {
      SumOfWholeCents(xs[1..]);
      AddWholeCents(xs[0], Sum(xs[1..]));
    }
  }

  /** Whatever the sign of the net revenue and whatever the percentages and
      limits: if anyone is paid, the payouts miss the net revenue by at most a
      cent, by at most half a cent once the adjustment fired, and by nothing
      when it fired and the net revenue is in whole cents. */
  lemma ResidualBound(net: real, ss: seq<Stakeholder>, rules: seq<RevenueRule>)
    requires Payees(ss, rules) != []
    ensures Abs(net - Sum(Payouts(net, ss, rules))) <= 0.01
    ensures NeedsAdjustment(net, GrossAmounts(net, ss, rules)) ==>
              Abs(net - Sum(Payouts(net, ss, rules))) <= 0.005
    ensures NeedsAdjustment(net, GrossAmounts(net, ss, rules)) && WholeCents(net) ==>
              Sum(Payouts(net, ss, rules)) == net
    ensures forall i :: 0 <= i < |Payouts(net, ss, rules)| ==> WholeCents(Payouts(net, ss, rules)[i])
  {
    var nets := GrossAmounts(net, ss, rules);
    var raws := Allocate(Claims(net, Payees(ss, rules)), net);
    forall i | 0 <= i < |nets| ensures WholeCents(nets[i]) { Round2Error(raws[i]); }
    AdjustedResidual(net, nets);
  }

  lemma RemainderIsSmall(net: real, ss: seq<Stakeholder>, rules: seq<RevenueRule>, paid: seq<real>, remaining: real)
    requires paid == Payouts(net, ss, rules) && remaining == net - Sum(paid)
    ensures paid != [] ==> Abs(remaining) <= 0.01
  {
    assert |paid| == |Payees(ss, rules)|;
    if paid != [] { ResidualBound(net, ss, rules); }
  }

  lemma AdjustedResidual(net: real, nets: seq<real>)
    requires nets != [] && forall i :: 0 <= i < |nets| ==> WholeCents(nets[i])
    ensures var paid := Adjust(net, nets);
            && Abs(net - Sum(paid)) <= 0.01
            && (NeedsAdjustment(net, nets) ==> Abs(net - Sum(paid)) <= 0.005)
            && (NeedsAdjustment(net, nets) && WholeCents(net) ==> Sum(paid) == net)
            && forall i :: 0 <= i < |paid| ==> WholeCents(paid[i])
  {
    if NeedsAdjustment(net, nets) {
      SumOfWholeCents(nets);
      Round2Error(net - Sum(nets));
      if WholeCents(net) { SubWholeCents(net, Sum(nets)); }
      AdjustedIs(net, nets, Round2(net - Sum(nets)));
    }
  }

  /** The amount added to the largest payout is not changed by rounding the sum again. */
  lemma AdjustedIs(net: real, nets: seq<real>, residue: real)
    requires nets != [] && forall i :: 0 <= i < |nets| ==> WholeCents(nets[i])
    requires NeedsAdjustment(net, nets) && residue == Round2(net - Sum(nets)) && WholeCents(residue)
    ensures var paid := Adjust(net, nets);
            Sum(paid) == Sum(nets) + residue && forall i :: 0 <= i < |paid| ==> WholeCents(paid[i])
  {
    var k := LargestIndex(nets);
    AddWholeCents(nets[k], residue);
    Round2Error(nets[k] + residue);
    SumUpdate(nets, k, nets[k] + residue);
  }
}

/** What the distribution of revenue computes, as functions over the inputs:
    who matches which rule, in which order, and what each one is paid. */
module Waterfall {
  import opened Wrappers
  import opened Money
  import opened Sorting
  import opened RevenueModels

  // ----- matching of roles and rules ---------------------------------------

  function Lower(s: string): string {
    seq(|s|, i requires 0 <= i < |s| => if 'A' <= s[i] <= 'Z' then (s[i] as int + 32) as char else s[i])
  }

  function RemoveSpaces(s: string): string {
    if s == "" then "" else (if s[0] == ' ' then "" else [s[0]]) + RemoveSpaces(s[1..])
  }

  predicate Contains(text: string, part: string) {
    part <= text || (text != "" && Contains(text[1..], part))
  }

  predicate RoleMatches(s: Stakeholder, rule: RevenueRule) {
    s.role in rule.appliesTo || Contains(RemoveSpaces(Lower(rule.name)), Lower(s.role))
  }

  /** A rule without roles applies to everyone. */
  predicate Applies(s: Stakeholder, rule: RevenueRule) {
    RoleMatches(s, rule) || rule.appliesTo == []
  }

  /** The first rule that applies, in the order the rules are given. */
  function FindRule(s: Stakeholder, rules: seq<RevenueRule>): Option<RevenueRule> {
    if rules == [] then None
    else if Applies(s, rules[0]) then Some(rules[0])
    else FindRule(s, rules[1..])
  }

  const LOWEST_PRIORITY := 999

  function Priority(s: Stakeholder, rules: seq<RevenueRule>): int {
    if rules == [] then LOWEST_PRIORITY
    else if RoleMatches(s, rules[0]) then rules[0].priority
    else Priority(s, rules[1..])
  }

  function ByPriority(rules: seq<RevenueRule>): Stakeholder -> real {
    s => Priority(s, rules) as real
  }

  function SortByRules(ss: seq<Stakeholder>, rules: seq<RevenueRule>): seq<Stakeholder> {
    StableSort(ss, ByPriority(rules))
  }

  /** The stakeholders some rule applies to, in the given order. */
  function Matched(ss: seq<Stakeholder>, rules: seq<RevenueRule>): seq<Stakeholder> {
    if ss == [] then []
    else (if FindRule(ss[0], rules).Some? then [ss[0]] else []) + Matched(ss[1..], rules)
  }

  /** Who is paid, in the order the waterfall serves them. */
  function Payees(ss: seq<Stakeholder>, rules: seq<RevenueRule>): seq<Stakeholder> {
    Matched(SortByRules(ss, rules), rules)
  }

  // ----- amounts -----------------------------------------------------------

  /** Python's truth value of an optional amount: neither `None` nor zero. */
  predicate Truthy(a: Option<real>) { a.Some? && a.value != 0.0 }

  function Share(net: real, percentage: real): real { net * percentage / 100.0 }

  /** What a stakeholder asks for: a percentage of the net revenue, lifted to
      the minimum or else cut to the maximum. */
  function Claim(net: real, s: Stakeholder): real {
    var share := Share(net, s.percentage);
    if Truthy(s.minAmount) && share < s.minAmount.value then s.minAmount.value
    else if Truthy(s.maxAmount) && share > s.maxAmount.value then s.maxAmount.value
    else share
  }

  function Claims(net: real, ss: seq<Stakeholder>): seq<real> {
    seq(|ss|, i requires 0 <= i < |ss| => Claim(net, ss[i]))
  }

  /** Serve the claims in order from what is still there. */
  function Allocate(claims: seq<real>, balance: real): (r: seq<real>)
    ensures |r| == |claims|
  {
    if claims == [] then []
    else
      var amount := Min(claims[0], balance);
      [amount] + Allocate(claims[1..], balance - amount)
  }

  function Rounded(xs: seq<real>): seq<real> {
    seq(|xs|, i requires 0 <= i < |xs| => Round2(xs[i]))
  }

  function Sum(xs: seq<real>): real {
    if xs == [] then 0.0 else xs[0] + Sum(xs[1..])
  }

  /** Position of the first largest element. */
  function LargestIndex(xs: seq<real>): (k: nat)
    requires xs != []
    ensures k < |xs|
    ensures forall i :: 0 <= i < |xs| ==> xs[i] <= xs[k]
    ensures forall i :: 0 <= i < k ==> xs[i] < xs[k]
  {
    if |xs| == 1 then 0
    else
      var k := LargestIndex(xs[1..]) + 1;
      assert forall i :: 1 <= i < |xs| ==> xs[i] == xs[1..][i - 1];
      if xs[0] >= xs[k] then 0 else k
  }

  /** More than one cent is left over or overpaid. */
  predicate NeedsAdjustment(net: real, nets: seq<real>) {
    nets != [] && Abs(net - Sum(nets)) > 0.01
  }

  /** Push the rounded difference onto the largest payout. */
  function Adjust(net: real, nets: seq<real>): seq<real> {
    if NeedsAdjustment(net, nets) then
      var k := LargestIndex(nets);
      nets[k := Round2(nets[k] + Round2(net - Sum(nets)))]
    else nets
  }

  /** What each payee's `gross_amount` shows. */
  function GrossAmounts(net: real, ss: seq<Stakeholder>, rules: seq<RevenueRule>): seq<real> {
    Rounded(Allocate(Claims(net, Payees(ss, rules)), net))
  }

  /** What each payee finally receives (`net_amount`). */
  function Payouts(net: real, ss: seq<Stakeholder>, rules: seq<RevenueRule>): seq<real> {
    Adjust(net, GrossAmounts(net, ss, rules))
  }

  // ----- facts the service loop and the theorems share -----------------------

  lemma {:induction false} SumAppend(xs: seq<real>, ys: seq<real>)
    ensures Sum(xs + ys) == Sum(xs) + Sum(ys)
  {
    if xs == [] {
      assert xs + ys == ys;
    } else {
      SumAppend(xs[1..], ys);
      assert (xs + ys)[1..] == xs[1..] + ys;
    }
  }

  lemma SumUpdate(xs: seq<real>, k: nat, v: real)
    requires k < |xs|
    ensures Sum(xs[k := v]) == Sum(xs) - xs[k] + v
  {
    var tail := [v] + xs[k+1..];
    assert xs == xs[..k] + ([xs[k]] + xs[k+1..]);
    assert xs[k := v] == xs[..k] + tail;
    SumAppend(xs[..k], [xs[k]] + xs[k+1..]);
    SumAppend(xs[..k], tail);
    assert ([xs[k]] + xs[k+1..])[1..] == xs[k+1..] == tail[1..];
  }

  lemma {:induction false} AllocateAppend(claims: seq<real>, c: real, balance: real)
    ensures Allocate(claims + [c], balance)
         == Allocate(claims, balance) + [Min(c, balance - Sum(Allocate(claims, balance)))]
  {
    if claims == [] {
      assert claims + [c] == [c];
    } else {
      var amount := Min(claims[0], balance);
      var rest := Allocate(claims[1..], balance - amount);
      AllocateAppend(claims[1..], c, balance - amount);
      assert (claims + [c])[1..] == claims[1..] + [c];
      assert Allocate(claims, balance) == [amount] + rest;
      assert ([amount] + rest)[1..] == rest;
      assert balance - Sum(Allocate(claims, balance)) == balance - amount - Sum(rest);
    }
  }

  lemma {:induction false} MatchedAppend(ss: seq<Stakeholder>, s: Stakeholder, rules: seq<RevenueRule>)
    ensures Matched(ss + [s], rules)
         == Matched(ss, rules) + (if FindRule(s, rules).Some? then [s] else [])
  {
    if ss == [] {
      assert ss + [s] == [s];
    } else {
      MatchedAppend(ss[1..], s, rules);
      assert (ss + [s])[1..] == ss[1..] + [s];
    }
  }

  /** Serving one more payee extends the allocation by one amount. */
  lemma ServeNext(net: real, payees: seq<Stakeholder>, amounts: seq<real>, balance: real, s: Stakeholder)
    returns (amount: real)
    requires amounts == Allocate(Claims(net, payees), net)
    requires balance == net - Sum(amounts)
    ensures amount == Min(Claim(net, s), balance)
    ensures Allocate(Claims(net, payees + [s]), net) == amounts + [amount]
    ensures Sum(amounts + [amount]) == Sum(amounts) + amount
    ensures Rounded(amounts + [amount]) == Rounded(amounts) + [Round2(amount)]
  {
    var claim := Claim(net, s);
    amount := Min(claim, balance);
    assert Claims(net, payees + [s]) == Claims(net, payees) + [claim];
    AllocateAppend(Claims(net, payees), claim, net);
    SumAppend(amounts, [amount]);
    assert Sum([amount]) == amount;
  }
}

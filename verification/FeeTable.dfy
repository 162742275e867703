/** The fee dictionary of one revenue calculation. */
module FeeTable {
  import opened RevenueModels

  /** `fees[name] = amount`: replace in place or append. */
  function Put(fees: Fees, name: string, amount: real): Fees {
    if fees == [] then [(name, amount)]
    else if fees[0].0 == name then [(name, amount)] + fees[1..]
    else [fees[0]] + Put(fees[1..], name, amount)
  }

  function PutAll(fees: Fees, more: Fees): Fees
    decreases |more|
  {
    if more == [] then fees else PutAll(Put(fees, more[0].0, more[0].1), more[1..])
  }

  function FeeTotal(fees: Fees): real {
    if fees == [] then 0.0 else fees[0].1 + FeeTotal(fees[1..])
  }

  /** Percentage plus fixed fee per ticket, the latter in the event's currency. */
  function ProcessingFee(config: RevenueShareConfig, gross: real, tickets: int, fixedFee: real): real {
    gross * config.processingFeeRate / 100.0 + tickets as real * fixedFee
  }

  function PlatformFee(config: RevenueShareConfig, gross: real): real {
    gross * config.defaultPlatformFee / 100.0
  }

  function ComputedFees(processing: real, platform: real): Fees {
    Put(Put([], "processing", processing), "platform", platform)
  }

  predicate Named(fees: Fees, name: string) {
    exists i :: 0 <= i < |fees| && fees[i].0 == name
  }

  /** Dictionary entries have distinct names. */
  ghost predicate Keyed(fees: Fees) {
    forall i, j :: 0 <= i < j < |fees| ==> fees[i].0 != fees[j].0
  }

  lemma {:induction false} PutAllAppend(fees: Fees, more: Fees, last: (string, real))
    ensures PutAll(fees, more + [last]) == Put(PutAll(fees, more), last.0, last.1)
    decreases |more|
  {
    if more == [] {
      assert more + [last] == [last];
    } else {
      PutAllAppend(Put(fees, more[0].0, more[0].1), more[1..], last);
      assert (more + [last])[1..] == more[1..] + [last];
    }
  }

  function Amount(fees: Fees, name: string): real {
    if fees == [] then 0.0 else if fees[0].0 == name then fees[0].1 else Amount(fees[1..], name)
  }

  lemma {:induction false} PutTotal(fees: Fees, name: string, amount: real)
    ensures FeeTotal(Put(fees, name, amount)) == FeeTotal(fees) - Amount(fees, name) + amount
    ensures forall other :: other != name ==> Amount(Put(fees, name, amount), other) == Amount(fees, other)
    ensures Amount(Put(fees, name, amount), name) == amount
  {
    if fees != [] && fees[0].0 != name {
      PutTotal(fees[1..], name, amount);
      assert ([fees[0]] + Put(fees[1..], name, amount))[1..] == Put(fees[1..], name, amount);
    } else if fees != [] {
      assert ([(name, amount)] + fees[1..])[1..] == fees[1..];
    }
  }

  lemma {:induction false} PutAllTotal(fees: Fees, more: Fees)
    requires Keyed(more)
    ensures FeeTotal(PutAll(fees, more)) == FeeTotal(fees) + FeeTotal(more) - Overridden(fees, more)
    decreases |more|
  {
    if more != [] {
      var next := Put(fees, more[0].0, more[0].1);
      PutTotal(fees, more[0].0, more[0].1);
      PutAllTotal(next, more[1..]);
      SameOverridden(fees, next, more[1..]);
    }
  }

  /** The part of `fees` that entries of `more` replace. */
  function Overridden(fees: Fees, more: Fees): real {
    if more == [] then 0.0 else Amount(fees, more[0].0) + Overridden(fees, more[1..])
  }

  lemma {:induction false} SameOverridden(fees: Fees, next: Fees, more: Fees)
    requires forall i :: 0 <= i < |more| ==> Amount(fees, more[i].0) == Amount(next, more[i].0)
    ensures Overridden(fees, more) == Overridden(next, more)
  {
    if more != [] { SameOverridden(fees, next, more[1..]); }
  }

  lemma {:induction false} OverriddenIs(fees: Fees, more: Fees, name: string, other: string)
    requires Keyed(more) && name != other
    requires forall n :: n != name && n != other ==> Amount(fees, n) == 0.0
    ensures Overridden(fees, more) == (if Named(more, name) then Amount(fees, name) else 0.0)
                                    + (if Named(more, other) then Amount(fees, other) else 0.0)
  {
    if more != [] {
      OverriddenIs(fees, more[1..], name, other);
      forall n | n == name || n == other
        ensures Named(more, n) <==> more[0].0 == n || Named(more[1..], n)
      {
        if Named(more, n) && more[0].0 != n {
          var i :| 0 <= i < |more| && more[i].0 == n;
          assert more[1..][i - 1].0 == n;
        }
        if Named(more[1..], n) {
          var i :| 0 <= i < |more[1..]| && more[1..][i].0 == n;
          assert more[i + 1].0 == n;
        }
      }
    }
  }

  /** The fees deducted from the gross sales: the caller's own fees, plus the
      processing and the platform fee unless the caller's fees name them, in
      which case the caller's amount replaces the computed one. */
  lemma FeesDeducted(processing: real, platform: real, additional: Fees)
    requires Keyed(additional)
    ensures FeeTotal(PutAll(ComputedFees(processing, platform), additional))
         == FeeTotal(additional)
          + (if Named(additional, "processing") then 0.0 else processing)
          + (if Named(additional, "platform") then 0.0 else platform)
  {
    assert |"processing"| != |"platform"|;
    TwoEntries("processing", processing, "platform", platform);
    PutAllTotal(ComputedFees(processing, platform), additional);
    OverriddenIs(ComputedFees(processing, platform), additional, "processing", "platform");
  }

  lemma TwoEntries(name: string, x: real, other: string, y: real)
    requires name != other
    ensures FeeTotal(Put(Put([], name, x), other, y)) == x + y
    ensures forall n :: Amount(Put(Put([], name, x), other, y), n)
                     == if n == name then x else if n == other then y else 0.0
  {
    var one: Fees := [(name, x)];
    assert one[1..] == [] && Put([], name, x) == one;
    var two := Put(one, other, y);
    assert two == [one[0]] + Put(one[1..], other, y);
    assert two == [(name, x), (other, y)];
    assert two[1..] == [(other, y)] && two[1..][1..] == [];
    assert FeeTotal(two[1..]) == y;
    assert forall n :: Amount(two[1..], n) == if n == other then y else 0.0;
  }
}

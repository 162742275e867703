/** When the log of escalations is in clock order. A task reads the clock before it
    takes the lock; the order is kept as long as no task overtakes another in
    between, and the service's own scheduling never lets that happen. */
module ChatOrder {
  import opened Sorting
  import opened Chat

  const BY_TIMESTAMP: Escalation -> real := (e: Escalation) => e.timestamp as real

  /** Step `i` commits an escalation. */
  ghost predicate Commits(states: seq<State>, actions: seq<Action>, i: nat) {
    && i < |actions| && i < |states| && actions[i].Commit?
    && actions[i].task in states[i].requests && states[i].requests[actions[i].task].Escalating?
  }

  ghost function Committed(states: seq<State>, actions: seq<Action>, i: nat): Escalation
    requires Commits(states, actions, i)
  {
    states[i].requests[actions[i].task].e
  }

  /** The escalation committed in step `i` overtakes the one committed in step `j`:
      that one was waiting for the lock already, with an earlier clock reading. */
  ghost predicate Overtakes(states: seq<State>, actions: seq<Action>, i: nat, j: nat) {
    && i < j && Commits(states, actions, i) && Commits(states, actions, j)
    && actions[j].task in states[i].requests && states[i].requests[actions[j].task].Escalating?
    && states[i].requests[actions[j].task].e.timestamp < Committed(states, actions, i).timestamp
    && forall m :: i < m < j ==> actions[m] != actions[j]
  }

  // ----- requests in flight -----------------------------------------------------------

  /** A request stays as it is until it commits. */
  lemma {:induction false} RequestWaits(states: seq<State>, actions: seq<Action>, i: nat, j: nat, task: nat)
    requires IsRun(states, actions) && i <= j < |states| && task in states[i].requests
    requires forall m :: i <= m < j ==> actions[m] != Commit(task)
    ensures task in states[j].requests && states[j].requests[task] == states[i].requests[task]
  {
    if i < j { RequestWaits(states, actions, i, j - 1, task); }
  }

  /** An escalation in flight took its timestamp from the clock when it began, and
      its task has not committed since. */
  lemma {:induction false} BeganAt(states: seq<State>, actions: seq<Action>, k: nat, task: nat) returns (b: nat)
    requires IsRun(states, actions) && k < |states|
    requires task in states[k].requests && states[k].requests[task].Escalating?
    ensures b < k && actions[b].BeginEscalate? && actions[b].task == task && states[b].clock == states[k].requests[task].e.timestamp
    ensures forall m :: b < m <= k ==>
              task in states[m].requests && states[m].requests[task] == states[k].requests[task]
    ensures forall m :: b < m < k ==> actions[m] != Commit(task)
  {
    assert k > 0;
    if actions[k - 1].BeginEscalate? && actions[k - 1].task == task {
      b := k - 1;
    } else {
      b := BeganAt(states, actions, k - 1, task);
    }
  }

  lemma {:induction false} ClockNeverGoesBack(states: seq<State>, actions: seq<Action>, i: nat, j: nat)
    requires IsRun(states, actions) && i <= j < |states|
    ensures states[i].clock <= states[j].clock
  {
    if i < j { ClockNeverGoesBack(states, actions, i, j - 1); }
  }

  // ----- the log --------------------------------------------------------------------------

  lemma {:induction false} LogGrows(states: seq<State>, actions: seq<Action>, i: nat, j: nat)
    requires IsRun(states, actions) && i <= j < |states|
    ensures states[i].board.escalations <= states[j].board.escalations
  {
    if i < j { LogGrows(states, actions, i, j - 1); }
  }

  lemma CommitAppends(states: seq<State>, actions: seq<Action>, i: nat)
    requires IsRun(states, actions) && i < |actions|
    ensures states[i + 1].board.escalations
         == states[i].board.escalations + if Commits(states, actions, i) then [Committed(states, actions, i)] else []
  {
  }

  /** Every entry of the log was appended by a commit. */
  lemma {:induction false} LoggedByCommit(states: seq<State>, actions: seq<Action>, k: nat, p: nat) returns (i: nat)
    requires IsRun(states, actions) && k < |states| && p < |states[k].board.escalations|
    ensures i < k && Commits(states, actions, i) && Committed(states, actions, i) == states[k].board.escalations[p]
  {
    assert k > 0;
    CommitAppends(states, actions, k - 1);
    if p < |states[k - 1].board.escalations| {
      i := LoggedByCommit(states, actions, k - 1, p);
    } else {
      i := k - 1;
    }
  }

  // ----- in order if and only if nobody overtakes ---------------------------------------------

  /** An entry logged with a later timestamp than a request has that commits
      afterwards has overtaken it. */
  lemma LaterEntryOvertook(states: seq<State>, actions: seq<Action>, i: nat, j: nat)
    requires IsRun(states, actions) && i < j && Commits(states, actions, i) && Commits(states, actions, j)
    requires Committed(states, actions, i).timestamp > Committed(states, actions, j).timestamp
    ensures Overtakes(states, actions, i, j)
  {
    var task := actions[j].task;
    var b := BeganAt(states, actions, j, task);
    RunKeepsInv(states, actions, i);
    assert Committed(states, actions, i).timestamp <= states[i].clock;
    if i < b { ClockNeverGoesBack(states, actions, i, b); }
    assert b < i;
  }

  lemma OvertakingUnsorts(states: seq<State>, actions: seq<Action>, k: nat, i: nat, j: nat)
    requires IsRun(states, actions) && j < k < |states| && Overtakes(states, actions, i, j)
    ensures !Ascending(states[k].board.escalations, BY_TIMESTAMP)
  {
    var log := states[k].board.escalations;
    var p, q := |states[i].board.escalations|, |states[j].board.escalations|;
    CommitAppends(states, actions, i);
    CommitAppends(states, actions, j);
    LogGrows(states, actions, i + 1, j);
    LogGrows(states, actions, i + 1, k);
    LogGrows(states, actions, j + 1, k);
    assert states[i].requests[actions[j].task].e.timestamp < states[i].requests[actions[i].task].e.timestamp;
    assert actions[i] != actions[j];
    RequestWaits(states, actions, i, j, actions[j].task);
    assert p < q && log[p] == Committed(states, actions, i) && log[q] == Committed(states, actions, j);
    assert BY_TIMESTAMP(log[p]) > BY_TIMESTAMP(log[q]);
  }

  lemma {:induction false} SortedUnlessOvertaken(states: seq<State>, actions: seq<Action>, k: nat)
    requires IsRun(states, actions) && k < |states|
    requires forall i, j :: 0 <= i < j < k ==> !Overtakes(states, actions, i, j)
    ensures Ascending(states[k].board.escalations, BY_TIMESTAMP)
  {
    if k > 0 {
      SortedUnlessOvertaken(states, actions, k - 1);
      CommitAppends(states, actions, k - 1);
      if Commits(states, actions, k - 1) {
        var log, e := states[k - 1].board.escalations, Committed(states, actions, k - 1);
        forall p | 0 <= p < |log| ensures log[p].timestamp <= e.timestamp {
          var i := LoggedByCommit(states, actions, k - 1, p);
          if log[p].timestamp > e.timestamp { LaterEntryOvertook(states, actions, i, k - 1); }
        }
      }
    }
  }

  /** The log is in clock order exactly as long as no commit has overtaken an
      escalation that read the clock earlier and committed later. */
  lemma LogInOrderUnlessOvertaken(states: seq<State>, actions: seq<Action>, k: nat)
    requires IsRun(states, actions) && k < |states|
    ensures Ascending(states[k].board.escalations, BY_TIMESTAMP)
       <==> !exists i, j :: 0 <= i < j < k && Overtakes(states, actions, i, j)
  {
    if i, j :| 0 <= i < j < k && Overtakes(states, actions, i, j) {
      OvertakingUnsorts(states, actions, k, i, j);
    } else {
      SortedUnlessOvertaken(states, actions, k);
    }
  }

  // ----- first come, first served -----------------------------------------------------------------

  /** Step `c` commits the escalation begun in step `b`. */
  ghost predicate Serves(actions: seq<Action>, b: nat, c: nat) {
    && b < c < |actions| && actions[b].BeginEscalate? && actions[c] == Commit(actions[b].task)
    && forall m :: b < m < c ==> actions[m] != actions[c]
  }

  /** Escalations take the lock in the order in which they began, as with a fair
      lock such as `asyncio.Lock`. */
  ghost predicate InTurn(actions: seq<Action>) {
    forall b: nat, c: nat, b': nat, c': nat :: b < b' && Serves(actions, b, c) && Serves(actions, b', c') ==> c < c'
  }

  /** Whoever is overtaken began earlier. */
  lemma OvertakenBeganEarlier(states: seq<State>, actions: seq<Action>, i: nat, j: nat) returns (b: nat, b': nat)
    requires IsRun(states, actions) && Overtakes(states, actions, i, j)
    ensures b' < b && Serves(actions, b, i) && Serves(actions, b', j)
  {
    b := BeganAt(states, actions, i, actions[i].task);
    b' := BeganAt(states, actions, j, actions[j].task);
    RequestWaits(states, actions, i, j, actions[j].task);
    if b <= b' { ClockNeverGoesBack(states, actions, b, b'); }
  }

  lemma InTurnNobodyOvertakes(states: seq<State>, actions: seq<Action>, i: nat, j: nat)
    requires IsRun(states, actions) && InTurn(actions)
    ensures !Overtakes(states, actions, i, j)
  {
    if Overtakes(states, actions, i, j) {
      var b, b' := OvertakenBeganEarlier(states, actions, i, j);
      assert false;
    }
  }

  /** Under a fair lock the log is in clock order in every state of every run. */
  lemma FairLogIsInOrder(states: seq<State>, actions: seq<Action>, k: nat)
    requires IsRun(states, actions) && InTurn(actions) && k < |states|
    ensures Ascending(states[k].board.escalations, BY_TIMESTAMP)
  {
    forall i: nat, j: nat | i < j < k ensures !Overtakes(states, actions, i, j) {
      InTurnNobodyOvertakes(states, actions, i, j);
    }
    SortedUnlessOvertaken(states, actions, k);
  }

  /** Nothing but time passes between a clock reading and its commit: the service
      does not await anything in between, and its lock is never contended. */
  ghost predicate Unsuspended(actions: seq<Action>) {
    forall b: nat, c: nat, m: nat :: Serves(actions, b, c) && b < m < c ==> actions[m].Tick?
  }

  lemma UnsuspendedIsInTurn(actions: seq<Action>)
    requires Unsuspended(actions)
    ensures InTurn(actions)
  {
    forall b: nat, c: nat, b': nat, c': nat | b < b' && Serves(actions, b, c) && Serves(actions, b', c') ensures c < c' {
      assert c <= b';
    }
  }
}

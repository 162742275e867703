/** What the states of the session manager tell about the run behind them: where a
    broadcast's snapshot comes from, whom it tried to reach and whom it removes,
    and which clock reading a cleanup pass works with. */
module ScanHistory {
  import opened ScanManager

  /** Steps `j` to `k` belong to one broadcast of the task: it took its snapshot in
      step `j` and has not removed anything since. */
  ghost predicate SendingSince(actions: seq<Action>, task: nat, j: nat, k: nat) {
    && j < k <= |actions| && actions[j] == Snapshot(task)
    && forall m :: j < m < k ==> actions[m] != Snapshot(task) && actions[m] != RemoveDead(task)
  }

  ghost predicate Tried(actions: seq<Action>, task: nat, ws: Socket, j: nat, k: nat)
    requires k <= |actions|
  {
    exists m :: j < m < k && actions[m].Send? && actions[m].task == task && actions[m].ws == ws
  }

  ghost predicate Failed(actions: seq<Action>, task: nat, ws: Socket, j: nat, k: nat)
    requires k <= |actions|
  {
    exists m :: j < m < k && actions[m] == Send(task, ws, false)
  }

  /** A broadcast that is sending took everybody active at its snapshot, still has to
      send to those it did not try, and holds for dead those it failed to reach. */
  lemma {:induction false} SendingIs(states: seq<State>, actions: seq<Action>, timeout: int, k: nat, task: nat)
    returns (j: nat)
    requires IsRun(states, actions, timeout) && k < |states|
    requires task in states[k].broadcasts && states[k].broadcasts[task].Sending?
    ensures SendingSince(actions, task, j, k)
    ensures var b, seen := states[k].broadcasts[task], states[j].shared.active;
            && b.snapshot == seen
            && (forall ws :: ws in b.pending <==> ws in seen && !Tried(actions, task, ws, j, k))
            && (forall ws :: ws in b.failed <==> ws in seen && Failed(actions, task, ws, j, k))
  {
    assert k > 0;
    var n := k - 1;
    var action := actions[n];
    if action == Snapshot(task) {
      j := n;
    } else {
      j := SendingIs(states, actions, timeout, n, task);
      forall ws
        ensures Tried(actions, task, ws, j, k) <==>
                  Tried(actions, task, ws, j, n) || (action.Send? && action.task == task && action.ws == ws)
        ensures Failed(actions, task, ws, j, k) <==> Failed(actions, task, ws, j, n) || action == Send(task, ws, false)
      {
      }
    }
  }

  /** Whoever was active when the broadcast took its snapshot has been tried before
      anything is removed, and of the sockets still active exactly those it failed
      to reach are removed. */
  lemma BroadcastRemovesExactlyTheFailed(states: seq<State>, actions: seq<Action>, timeout: int, k: nat, task: nat)
    returns (j: nat)
    requires timeout >= 0 && IsRun(states, actions, timeout) && k < |actions| && actions[k] == RemoveDead(task)
    ensures SendingSince(actions, task, j, k)
    ensures forall ws :: ws in states[j].shared.active ==> Tried(actions, task, ws, j, k)
    ensures forall ws :: ws in states[k + 1].shared.active <==>
              ws in states[k].shared.active && !(ws in states[j].shared.active && Failed(actions, task, ws, j, k))
  {
    j := SendingIs(states, actions, timeout, k, task);
    var b := states[k].broadcasts[task];
    forall ws | ws in states[j].shared.active ensures Tried(actions, task, ws, j, k) {
      assert ws !in b.pending;
    }
  }

  /** Before its snapshot a broadcast has given every active socket the current time. */
  lemma {:induction false} TouchedBefore(states: seq<State>, actions: seq<Action>, timeout: int, k: nat, task: nat)
    returns (t: nat)
    requires IsRun(states, actions, timeout) && k < |states|
    requires task in states[k].broadcasts && states[k].broadcasts[task].JustTouched?
    ensures t < k && actions[t] == Touch(task)
    ensures forall ws :: ws in states[t].shared.active ==>
              ws in states[t + 1].shared.activity && states[t + 1].shared.activity[ws] == states[t].clock
  {
    assert k > 0;
    var n := k - 1;
    if actions[n] == Touch(task) {
      t := n;
    } else {
      t := TouchedBefore(states, actions, timeout, n, task);
    }
  }

  /** The time a cleanup pass compares with is the clock when it woke up. */
  lemma {:induction false} PassReadsClock(states: seq<State>, actions: seq<Action>, timeout: int, k: nat) returns (w: nat)
    requires IsRun(states, actions, timeout) && k < |states| && states[k].cleanup.Ticked?
    ensures w < k && actions[w] == Wake && states[k].cleanup.at == states[w].clock
  {
    assert k > 0;
    var n := k - 1;
    if actions[n] == Wake {
      w := n;
    } else {
      w := PassReadsClock(states, actions, timeout, n);
    }
  }

  /** Step `m` takes the socket out: it disconnects, a broadcast that failed to reach
      it removes it, or a sweep removes what its scan found stale. */
  ghost predicate TakesOut(states: seq<State>, actions: seq<Action>, m: int, ws: Socket) {
    && 0 <= m < |actions| && m < |states|
    && match actions[m]
       case Disconnect(other) => other == ws
       case RemoveDead(task) =>
         task in states[m].broadcasts && states[m].broadcasts[task].Sending? && ws in states[m].broadcasts[task].failed
       case Sweep => states[m].cleanup.Scanned? && ws in states[m].cleanup.toRemove
       case _ => false
  }

  /** It connected in step `c`, before step `k`, and nothing took it out since. */
  ghost predicate StaysFrom(states: seq<State>, actions: seq<Action>, c: int, k: nat, ws: Socket) {
    && 0 <= c < k <= |actions| && actions[c] == Connect(ws)
    && forall m :: c < m < k ==> !TakesOut(states, actions, m, ws)
  }

  /** In every state the active sockets are those that connected and were not taken
      out since, and both collections name them. */
  lemma {:induction false} ActiveIff(states: seq<State>, actions: seq<Action>, timeout: int, k: nat, ws: Socket)
    requires timeout >= 0 && IsRun(states, actions, timeout) && k < |states|
    ensures ws in states[k].shared.active <==> exists c :: StaysFrom(states, actions, c, k, ws)
    ensures ws in states[k].shared.activity <==> exists c :: StaysFrom(states, actions, c, k, ws)
  {
    RunKeepsInv(states, actions, timeout, k);
    if k > 0 {
      var n := k - 1;
      ActiveIff(states, actions, timeout, n, ws);
      forall c | c != n
        ensures StaysFrom(states, actions, c, k, ws) <==>
                  StaysFrom(states, actions, c, n, ws) && !TakesOut(states, actions, n, ws)
      {
      }
      assert StaysFrom(states, actions, n, k, ws) <==> actions[n] == Connect(ws);
      assert ws in states[k].shared.active <==>
        actions[n] == Connect(ws) || (ws in states[n].shared.active && !TakesOut(states, actions, n, ws));
    }
  }

  /** An active socket's time is the clock of the last step that refreshed it: its
      own connect, or any broadcast's touch. */
  lemma {:induction false} ActivityIs(states: seq<State>, actions: seq<Action>, timeout: int, k: nat, ws: Socket)
    returns (t: nat)
    requires timeout >= 0 && IsRun(states, actions, timeout) && k < |states| && ws in states[k].shared.activity
    ensures t < k && (actions[t] == Connect(ws) || actions[t].Touch?)
    ensures states[k].shared.activity[ws] == states[t].clock
    ensures forall m :: t < m < k ==> actions[m] != Connect(ws) && !actions[m].Touch?
  {
    assert k > 0;
    var n := k - 1;
    RunKeepsInv(states, actions, timeout, n);
    if actions[n] == Connect(ws) || actions[n].Touch? {
      t := n;
    } else {
      t := ActivityIs(states, actions, timeout, n, ws);
    }
  }
}

/** What the board says about a conversation is decided by the last request about it
    that went through: told in the actions of a run. */
module ChatHistory {
  import opened Wrappers
  import opened Chat
  import ChatOrder

  /** Step `b` begins a request about `c`: an escalation, or an assignment of a
      conversation that is escalated or assigned. */
  ghost predicate Begins(states: seq<State>, actions: seq<Action>, b: int, c: string) {
    && 0 <= b < |actions| && b < |states|
    && match actions[b]
       case BeginEscalate(_, conversation, _) => conversation == c
       case CheckAssign(_, conversation, _) =>
         conversation == c && c in states[b].board.statuses && states[b].board.statuses[c] in {Escalated, Assigned}
       case _ => false
  }

  /** The request begun in step `b` is committed in step `m`. */
  ghost predicate Completes(states: seq<State>, actions: seq<Action>, b: int, m: int, c: string) {
    && Begins(states, actions, b, c) && b < m < |actions|
    && actions[m] == Commit(actions[b].task)
    && forall n :: b < n < m ==> actions[n] != actions[m]
  }

  /** The request that the begin in step `b` puts in flight. */
  ghost function Begun(states: seq<State>, actions: seq<Action>, b: int, c: string): Request
    requires Begins(states, actions, b, c)
  {
    match actions[b]
    case BeginEscalate(_, _, reason) => Escalating(Escalation(c, reason, states[b].clock))
    case CheckAssign(_, _, agent) => Assigning(c, agent)
  }

  lemma CompletesBegun(states: seq<State>, actions: seq<Action>, b: int, m: int, c: string)
    requires IsRun(states, actions) && Completes(states, actions, b, m, c)
    ensures actions[m].task in states[m].requests && states[m].requests[actions[m].task] == Begun(states, actions, b, c)
  {
    ChatOrder.RequestWaits(states, actions, b + 1, m, actions[b].task);
  }

  /** Every request in flight was begun, about its conversation, and is uncommitted. */
  lemma {:induction false} RequestBegan(states: seq<State>, actions: seq<Action>, k: nat, task: nat)
    returns (b: int, c: string)
    requires IsRun(states, actions) && k < |states| && task in states[k].requests
    ensures b < k && Begins(states, actions, b, c) && actions[b].task == task
    ensures states[k].requests[task] == Begun(states, actions, b, c)
    ensures forall n :: b < n < k ==> actions[n] != Commit(task)
  {
    assert k > 0;
    var n := k - 1;
    if task in states[n].requests {
      b, c := RequestBegan(states, actions, n, task);
    } else {
      b, c := n, actions[n].conversation;
    }
  }

  /** What the board holds of `c` after the request begun in step `b`, and before
      any (`b` negative). */
  ghost predicate BoardShows(states: seq<State>, actions: seq<Action>, b: int, c: string, board: Board)
    requires b >= 0 ==> Begins(states, actions, b, c)
  {
    if b < 0 then
      c !in board.statuses && c !in board.assignments && c !in board.escalatedAt
    else
      && c in board.statuses && c in board.assignments && c in board.escalatedAt
      && match actions[b]
         case BeginEscalate(_, _, _) =>
           board.statuses[c] == Escalated && board.assignments[c] == None && board.escalatedAt[c] == states[b].clock
         case CheckAssign(_, _, agent) => board.statuses[c] == Assigned && board.assignments[c] == Some(agent)
  }

  /** In every state a conversation's status and agent are those of the last request
      about it that was committed; without one it is not on the board. */
  lemma {:induction false} LastCommitDecides(states: seq<State>, actions: seq<Action>, k: nat, c: string)
    returns (b: int, m: int)
    requires IsRun(states, actions) && k < |states|
    ensures m < k && (b < 0 <==> m < 0) && (b >= 0 ==> Completes(states, actions, b, m, c))
    ensures forall n, a :: m < n < k && 0 <= n ==> !Completes(states, actions, a, n, c)
    ensures BoardShows(states, actions, b, c, states[k].board)
  {
    if k == 0 {
      b, m := -1, -1;
    } else {
      var last := k - 1;
      b, m := LastCommitDecides(states, actions, last, c);
      if actions[last].Commit? {
        var a, conversation := RequestBegan(states, actions, last, actions[last].task);
        assert Completes(states, actions, a, last, conversation);
        RunKeepsInv(states, actions, last);
        assert Consistent(states[last].board, c);
        if conversation == c {
          b, m := a, last;
        } else {
          forall other ensures !Completes(states, actions, other, last, c) {
            if Completes(states, actions, other, last, c) {
              CompletesBegun(states, actions, other, last, c);
              assert false;
            }
          }
        }
      }
    }
  }
}

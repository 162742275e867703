/** Escalation and assignment of chat conversations (src/chat.py and the assign
    endpoint of src/main.py). */
module Chat {
  import opened Wrappers
  import opened Sorting

  datatype Status = Open | Escalated | Assigned

  datatype Escalation = Escalation(conversation: string, reason: string, timestamp: int)

  /** One entry of the queue of conversations that wait for an agent. */
  datatype Waiting = Waiting(conversation: string, escalatedAt: Option<int>, reason: string)

  /** The manager's four collections. Conversations without a status are open. */
  datatype Board = Board(
    statuses: map<string, Status>,
    assignments: map<string, Option<string>>,
    escalatedAt: map<string, int>,
    escalations: seq<Escalation>)

  const EMPTY := Board(map[], map[], map[], [])

  function StatusOf(b: Board, conversation: string): Status {
    if conversation in b.statuses then b.statuses[conversation] else Open
  }

  function AgentOf(b: Board, conversation: string): Option<string> {
    if conversation in b.assignments then b.assignments[conversation] else None
  }

  /** The locked part of `escalate_conversation`. */
  function Escalate(b: Board, e: Escalation): Board {
    Board(b.statuses[e.conversation := Escalated], b.assignments[e.conversation := None],
          b.escalatedAt[e.conversation := e.timestamp], b.escalations + [e])
  }

  /** The locked part of `assign_conversation`. */
  function Assign(b: Board, conversation: string, agent: string): Board {
    b.(statuses := b.statuses[conversation := Assigned], assignments := b.assignments[conversation := Some(agent)])
  }

  /** The escalation of a conversation that was appended last. */
  function LastEscalation(es: seq<Escalation>, conversation: string): Option<Escalation> {
    if es == [] then None
    else if es[|es| - 1].conversation == conversation then Some(es[|es| - 1])
    else LastEscalation(es[..|es| - 1], conversation)
  }

  /** `x["escalated_at"] or datetime.min`: a missing time sorts first. */
  const TIME_MIN := -1_000_000_000_000_000_000

  const BY_ESCALATION: Waiting -> real := (w: Waiting) => (if w.escalatedAt.Some? then w.escalatedAt.value else TIME_MIN) as real

  function Entry(b: Board, conversation: string): Waiting {
    var last := LastEscalation(b.escalations, conversation);
    Waiting(conversation,
            if conversation in b.escalatedAt then Some(b.escalatedAt[conversation]) else None,
            if last.Some? then last.value.reason else "")
  }

  predicate Unassigned(b: Board, conversation: string) {
    StatusOf(b, conversation) == Escalated && AgentOf(b, conversation).None?
  }

  /** The escalation at position `i` is the conversation's last. */
  ghost predicate IsLastEscalation(es: seq<Escalation>, conversation: string, i: int) {
    && 0 <= i < |es| && es[i].conversation == conversation
    && forall j :: i < j < |es| ==> es[j].conversation != conversation
  }

  lemma QueueNames(b: Board, queue: seq<Waiting>)
    requires forall w :: w in queue <==> Unassigned(b, w.conversation) && w == Entry(b, w.conversation)
    ensures forall c :: (exists w :: w in queue && w.conversation == c) <==>
              c in b.statuses && b.statuses[c] == Escalated && !(c in b.assignments && b.assignments[c].Some?)
  {
    forall c
      ensures (exists w :: w in queue && w.conversation == c) <==>
                c in b.statuses && b.statuses[c] == Escalated && !(c in b.assignments && b.assignments[c].Some?)
    {
      assert Unassigned(b, c) <==>
        c in b.statuses && b.statuses[c] == Escalated && !(c in b.assignments && b.assignments[c].Some?);
      if Unassigned(b, c) { assert Entry(b, c) in queue; }
    }
  }

  lemma OldestFirst(queue: seq<Waiting>)
    requires Ascending(queue, BY_ESCALATION)
    ensures forall i, j :: 0 <= i < j < |queue| && queue[i].escalatedAt.Some? && queue[j].escalatedAt.Some? ==>
              queue[i].escalatedAt.value <= queue[j].escalatedAt.value
  {
    forall i, j | 0 <= i < j < |queue| && queue[i].escalatedAt.Some? && queue[j].escalatedAt.Some?
      ensures queue[i].escalatedAt.value <= queue[j].escalatedAt.value
    {
      assert BY_ESCALATION(queue[i]) <= BY_ESCALATION(queue[j]);
    }
  }

  class ChatManager {
    var statuses: map<string, Status>
    var assignments: map<string, Option<string>>
    var escalatedAt: map<string, int>
    var escalations: seq<Escalation>

    constructor ()
      ensures Fields() == EMPTY
    {
      statuses, assignments, escalatedAt, escalations := map[], map[], map[], [];
    }

    function Fields(): Board
      reads this
    {
      Board(statuses, assignments, escalatedAt, escalations)
    }

    method EscalateConversation(e: Escalation)
      modifies this
      ensures Fields() == Escalate(old(Fields()), e)
      ensures escalations == old(escalations) + [e]
      ensures statuses == old(statuses)[e.conversation := Escalated]
      ensures assignments == old(assignments)[e.conversation := None]
      ensures escalatedAt == old(escalatedAt)[e.conversation := e.timestamp]
    {
      escalations := escalations + [e];
      statuses := statuses[e.conversation := Escalated];
      assignments := assignments[e.conversation := None];
      escalatedAt := escalatedAt[e.conversation := e.timestamp];
    }

    method AssignConversation(conversation: string, agent: string)
      modifies this
      ensures Fields() == Assign(old(Fields()), conversation, agent)
      ensures statuses == old(statuses)[conversation := Assigned]
      ensures assignments == old(assignments)[conversation := Some(agent)]
      ensures escalatedAt == old(escalatedAt) && escalations == old(escalations)
    {
      statuses := statuses[conversation := Assigned];
      assignments := assignments[conversation := Some(agent)];
    }

    method GetConversationStatus(conversation: string) returns (status: Status, agent: Option<string>)
      ensures status == StatusOf(Fields(), conversation) && agent == AgentOf(Fields(), conversation)
      ensures status == if conversation in statuses then statuses[conversation] else Open
      ensures agent == if conversation in assignments then assignments[conversation] else None
    {
      status := if conversation in statuses then statuses[conversation] else Open;
      agent := if conversation in assignments then assignments[conversation] else None;
    }

    /** `get_unassigned_queue`: each unassigned escalated conversation once, with
        its time and the reason of its last escalation, oldest first. */
    method GetUnassignedQueue() returns (queue: seq<Waiting>)
      ensures forall w :: w in queue <==> Unassigned(Fields(), w.conversation) && w == Entry(Fields(), w.conversation)
      ensures Distinct(queue) && Ascending(queue, BY_ESCALATION)
      ensures forall i, j :: 0 <= i < j < |queue| && queue[i].escalatedAt.Some? && queue[j].escalatedAt.Some? ==>
                queue[i].escalatedAt.value <= queue[j].escalatedAt.value
      ensures forall c :: (exists w :: w in queue && w.conversation == c) <==>
                c in statuses && statuses[c] == Escalated && !(c in assignments && assignments[c].Some?)
      ensures forall w :: w in queue ==>
                w.escalatedAt == if w.conversation in escalatedAt then Some(escalatedAt[w.conversation]) else None
    {
      queue := [];
      var todo := statuses.Keys;
      while todo != {}
        invariant todo <= statuses.Keys
        invariant forall w :: w in queue <==>
          w.conversation !in todo && Unassigned(Fields(), w.conversation) && w == Entry(Fields(), w.conversation)
        invariant Distinct(queue)
      {
        var conversation :| conversation in todo;
        if statuses[conversation] == Escalated && AgentOf(Fields(), conversation).None? {
          var reason := FindReason(conversation);
          var time := if conversation in escalatedAt then Some(escalatedAt[conversation]) else None;
          queue := queue + [Waiting(conversation, time, reason)];
        }
        todo := todo - {conversation};
      }
      StableSortSpec(queue, BY_ESCALATION);
      DistinctFromMultiset(queue, StableSort(queue, BY_ESCALATION));
      SameElements(queue, StableSort(queue, BY_ESCALATION));
      queue := StableSort(queue, BY_ESCALATION);
      OldestFirst(queue);
      QueueNames(Fields(), queue);
    }

    /** The endpoint that assigns: it answers 400 unless the conversation was escalated. */
    method AssignEndpoint(conversation: string, agent: string) returns (ok: bool)
      modifies this
      ensures ok <==> conversation in old(statuses) && old(statuses)[conversation] in {Escalated, Assigned}
      ensures Fields() == if ok then Assign(old(Fields()), conversation, agent) else old(Fields())
      ensures ok <==> MayAssign(old(Fields()), conversation)
    {
      var status, current := GetConversationStatus(conversation);
      ok := status == Escalated || status == Assigned;
      if ok { AssignConversation(conversation, agent); }
    }

    /** The inner loop over the reversed escalations. */
    method FindReason(conversation: string) returns (reason: string)
      ensures reason == Entry(Fields(), conversation).reason
      ensures (exists i :: IsLastEscalation(escalations, conversation, i) && reason == escalations[i].reason)
           || (reason == "" && forall e :: e in escalations ==> e.conversation != conversation)
    {
      reason := "";
      var i := |escalations|;
      assert escalations[..i] == escalations;
      while i > 0
        invariant i <= |escalations|
        invariant LastEscalation(escalations[..i], conversation) == LastEscalation(escalations, conversation)
        invariant reason == ""
        invariant forall j :: i <= j < |escalations| ==> escalations[j].conversation != conversation
      {
        var e := escalations[i - 1];
        assert escalations[..i][..i - 1] == escalations[..i - 1];
        if e.conversation == conversation {
          assert IsLastEscalation(escalations, conversation, i - 1);
          return e.reason;
        }
        i := i - 1;
      }
    }
  }

  // ----- tasks and interleavings ---------------------------------------------------------

  /** A request in flight: an escalation that has read the clock, or an assignment
      whose status check passed; each still waits for the lock. */
  datatype Request =
    | Escalating(e: Escalation)
    | Assigning(conversation: string, agent: string)

  datatype State = State(board: Board, clock: int, requests: map<nat, Request>)

  datatype Action =
    | Tick(to: int)
    | BeginEscalate(task: nat, conversation: string, reason: string)
    | CheckAssign(task: nat, conversation: string, agent: string)
    | Commit(task: nat)

  predicate Enabled(s: State, a: Action) {
    match a
    case Tick(to) => s.clock <= to
    case BeginEscalate(task, _, _) => task !in s.requests
    case CheckAssign(task, _, _) => task !in s.requests
    case Commit(task) => task in s.requests
  }

  /** The endpoint's guard, read without the lock: otherwise it answers 400. */
  predicate MayAssign(b: Board, conversation: string) {
    StatusOf(b, conversation) in {Escalated, Assigned}
  }

  function Next(s: State, a: Action): State
    requires Enabled(s, a)
  {
    match a
    case Tick(to) => s.(clock := to)
    case BeginEscalate(task, conversation, reason) =>
      s.(requests := s.requests[task := Escalating(Escalation(conversation, reason, s.clock))])
    case CheckAssign(task, conversation, agent) =>
      if MayAssign(s.board, conversation) then s.(requests := s.requests[task := Assigning(conversation, agent)]) else s
    case Commit(task) =>
      var board := match s.requests[task]
        case Escalating(e) => Escalate(s.board, e)
        case Assigning(conversation, agent) => Assign(s.board, conversation, agent);
      s.(board := board, requests := s.requests - {task})
  }

  ghost predicate IsRun(states: seq<State>, actions: seq<Action>) {
    && |states| == |actions| + 1 && states[0].board == EMPTY && states[0].requests == map[]
    && forall i :: 0 <= i < |actions| ==> Enabled(states[i], actions[i]) && states[i + 1] == Next(states[i], actions[i])
  }

  // ----- the protocol -----------------------------------------------------------------------

  /** What holds of one conversation at all times: escalated ones have no agent,
      assigned ones have one and were escalated, open ones never were; the
      escalation time on the board is that of the last escalation. */
  ghost predicate Consistent(b: Board, c: string) {
    && (c in b.assignments <==> c in b.statuses)
    && (c in b.statuses ==> b.statuses[c] != Open)
    && (StatusOf(b, c) == Escalated ==> AgentOf(b, c).None?)
    && (StatusOf(b, c) == Assigned ==> AgentOf(b, c).Some?)
    && (StatusOf(b, c) == Open <==> LastEscalation(b.escalations, c).None?)
    && (c in b.escalatedAt <==> LastEscalation(b.escalations, c).Some?)
    && (c in b.escalatedAt ==> b.escalatedAt[c] == LastEscalation(b.escalations, c).value.timestamp)
  }

  ghost predicate Inv(s: State) {
    && (forall c :: Consistent(s.board, c))
    && (forall t :: t in s.requests && s.requests[t].Assigning? ==> MayAssign(s.board, s.requests[t].conversation))
    && (forall t :: t in s.requests && s.requests[t].Escalating? ==> s.requests[t].e.timestamp <= s.clock)
    && (forall e :: e in s.board.escalations ==> e.timestamp <= s.clock)
  }

  lemma EscalateKeepsConsistent(b: Board, e: Escalation, c: string)
    requires Consistent(b, c)
    ensures Consistent(Escalate(b, e), c)
  {
    assert (b.escalations + [e])[..|b.escalations|] == b.escalations;
  }

  lemma AssignKeepsConsistent(b: Board, conversation: string, agent: string, c: string)
    requires Consistent(b, c) && MayAssign(b, conversation)
    ensures Consistent(Assign(b, conversation, agent), c)
  {
  }

  lemma StepKeepsInv(s: State, a: Action)
    requires Inv(s) && Enabled(s, a)
    ensures Inv(Next(s, a))
  {
    forall c ensures Consistent(Next(s, a).board, c) {
      assert Consistent(s.board, c);
      if a.Commit? {
        match s.requests[a.task]
        case Escalating(e) => EscalateKeepsConsistent(s.board, e, c);
        case Assigning(conversation, agent) => AssignKeepsConsistent(s.board, conversation, agent, c);
      }
    }
  }

  /** In every interleaving in which assignments go through the endpoint. */
  lemma {:induction false} RunKeepsInv(states: seq<State>, actions: seq<Action>, i: nat)
    requires IsRun(states, actions) && i < |states|
    ensures Inv(states[i])
  {
    if i > 0 {
      RunKeepsInv(states, actions, i - 1);
      StepKeepsInv(states[i - 1], actions[i - 1]);
    }
  }

  /** Once a conversation may be assigned it may be assigned for good, so a guard
      that passed without the lock still holds when the lock is taken. */
  lemma {:induction false} GuardStaysTrue(states: seq<State>, actions: seq<Action>, i: nat, j: nat, c: string)
    requires IsRun(states, actions) && i <= j < |states| && MayAssign(states[i].board, c)
    ensures MayAssign(states[j].board, c)
  {
    if i < j { GuardStaysTrue(states, actions, i, j - 1, c); }
  }

  /** Escalated means no agent; assigned means an agent and an escalation
      committed before. */
  lemma StatusTellsAgent(states: seq<State>, actions: seq<Action>, k: nat, c: string)
    requires IsRun(states, actions) && k < |states|
    ensures StatusOf(states[k].board, c) == Escalated ==> AgentOf(states[k].board, c).None?
    ensures StatusOf(states[k].board, c) == Assigned ==> AgentOf(states[k].board, c).Some?
    ensures StatusOf(states[k].board, c) != Open <==> exists i :: 0 <= i < k && CommitsEscalation(states, actions, i, c)
  {
    RunKeepsInv(states, actions, k);
    assert Consistent(states[k].board, c);
    if StatusOf(states[k].board, c) != Open {
      var i := EscalatedEarlier(states, actions, k, c);
    }
    if exists i :: 0 <= i < k && CommitsEscalation(states, actions, i, c) {
      var i :| 0 <= i < k && CommitsEscalation(states, actions, i, c);
      GuardStaysTrue(states, actions, i + 1, k, c);
    }
  }

  ghost predicate CommitsEscalation(states: seq<State>, actions: seq<Action>, i: nat, c: string) {
    i < |actions| && i < |states| && actions[i].Commit? && actions[i].task in states[i].requests
    && states[i].requests[actions[i].task].Escalating? && states[i].requests[actions[i].task].e.conversation == c
  }

  lemma {:induction false} EscalatedEarlier(states: seq<State>, actions: seq<Action>, k: nat, c: string) returns (i: nat)
    requires IsRun(states, actions) && k < |states| && StatusOf(states[k].board, c) != Open
    ensures i < k && CommitsEscalation(states, actions, i, c)
  {
    assert k > 0;
    RunKeepsInv(states, actions, k - 1);
    if CommitsEscalation(states, actions, k - 1, c) {
      i := k - 1;
    } else {
      i := EscalatedEarlier(states, actions, k - 1, c);
    }
  }

  /** In every reachable state the queue shows exactly the escalated conversations,
      each with the time and the reason of one escalation: its last. */
  lemma QueueShowsLastEscalation(states: seq<State>, actions: seq<Action>, k: nat, w: Waiting)
    requires IsRun(states, actions) && k < |states|
    ensures var b := states[k].board;
      Unassigned(b, w.conversation) && w == Entry(b, w.conversation) <==>
      StatusOf(b, w.conversation) == Escalated
      && exists e :: LastEscalation(b.escalations, w.conversation) == Some(e)
                  && w == Waiting(e.conversation, Some(e.timestamp), e.reason)
  {
    RunKeepsInv(states, actions, k);
    assert Consistent(states[k].board, w.conversation);
    LastEscalationIsTheirs(states[k].board.escalations, w.conversation);
  }

  lemma {:induction false} LastEscalationIsTheirs(es: seq<Escalation>, c: string)
    ensures LastEscalation(es, c).Some? ==> LastEscalation(es, c).value.conversation == c && LastEscalation(es, c).value in es
    ensures LastEscalation(es, c).None? <==> forall e :: e in es ==> e.conversation != c
  {
    if es != [] {
      LastEscalationIsTheirs(es[..|es| - 1], c);
      assert es == es[..|es| - 1] + [es[|es| - 1]];
    }
  }

  /** The log of escalations is in commit order, and it takes a fair lock to make
      that clock order: with an unfair one, or an await before the lock, a task
      could read the clock first and commit second. */
  lemma EscalationsCanCommitOutOfOrder() returns (states: seq<State>, actions: seq<Action>)
    ensures IsRun(states, actions)
    ensures var es := states[|states| - 1].board.escalations; |es| == 2 && es[0].timestamp > es[1].timestamp
  {
    actions := [BeginEscalate(0, "c", "timeout"), Tick(5), BeginEscalate(1, "c", "user_request"), Commit(1), Commit(0)];
    var s0 := State(EMPTY, 0, map[]);
    var s1 := Next(s0, actions[0]);
    var s2 := Next(s1, actions[1]);
    var s3 := Next(s2, actions[2]);
    var s4 := Next(s3, actions[3]);
    var s5 := Next(s4, actions[4]);
    states := [s0, s1, s2, s3, s4, s5];
  }
}

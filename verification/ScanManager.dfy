/** The WebSocket session manager (src/manager.py): its lock sections as methods
    on the shared fields, and every interleaving of them as a transition system. */
module ScanManager {

  /** A connection, known by its identity. */
  datatype Socket = Socket(id: int)

  type Activity = map<Socket, int>

  // ----- the lock sections as functions of the shared fields -----------------------

  datatype Shared = Shared(active: set<Socket>, activity: Activity)

  function Connected(s: Shared, ws: Socket, now: int): Shared {
    Shared(s.active + {ws}, s.activity[ws := now])
  }

  function Without(s: Shared, gone: set<Socket>): Shared {
    Shared(s.active - gone, s.activity - gone)
  }

  function Touched(s: Shared, now: int): Shared {
    Shared(s.active, s.activity + map ws | ws in s.active :: now)
  }

  /** The sockets silent for longer than the timeout at `at`. */
  function Stale(activity: Activity, at: int, timeout: int): set<Socket> {
    set ws | ws in activity && at - activity[ws] > timeout
  }

  class TicketScanManager {
    var activeConnections: set<Socket>
    var connectionActivity: Activity
    const sessionTimeout: int

    constructor (sessionTimeout: int)
      ensures Fields() == Shared({}, map[]) && this.sessionTimeout == sessionTimeout
    {
      activeConnections, connectionActivity := {}, map[];
      this.sessionTimeout := sessionTimeout;
    }

    function Fields(): Shared
      reads this
    {
      Shared(activeConnections, connectionActivity)
    }

    /** The locked part of `connect`. */
    method Connect(ws: Socket, now: int)
      modifies this
      ensures Fields() == Connected(old(Fields()), ws, now)
      ensures activeConnections == old(activeConnections) + {ws} && connectionActivity == old(connectionActivity)[ws := now]
    {
      activeConnections := activeConnections + {ws};
      connectionActivity := connectionActivity[ws := now];
    }

    method Disconnect(ws: Socket)
      modifies this
      ensures Fields() == Without(old(Fields()), {ws})
      ensures activeConnections == old(activeConnections) - {ws} && connectionActivity == old(connectionActivity) - {ws}
    {
      activeConnections := activeConnections - {ws};
      connectionActivity := connectionActivity - {ws};
    }

    method UpdateActivityForAll(now: int)
      modifies this
      ensures Fields() == Touched(old(Fields()), now)
      ensures activeConnections == old(activeConnections)
      ensures forall ws :: ws in connectionActivity <==> ws in old(connectionActivity) || ws in activeConnections
      ensures forall ws :: ws in connectionActivity ==>
                connectionActivity[ws] == if ws in activeConnections then now else old(connectionActivity)[ws]
    {
      var todo := activeConnections;
      ghost var before := connectionActivity;
      while todo != {}
        invariant todo <= activeConnections && activeConnections == old(activeConnections)
        invariant connectionActivity == before + map ws | ws in activeConnections - todo :: now
      {
        var ws :| ws in todo;
        connectionActivity := connectionActivity[ws := now];
        todo := todo - {ws};
      }
    }

    /** The second locked part of `broadcast_scan` and of the cleanup pass. */
    method RemoveConnections(toRemove: seq<Socket>)
      modifies this
      ensures Fields() == Without(old(Fields()), set ws | ws in toRemove)
      ensures forall ws :: ws in activeConnections <==> ws in old(activeConnections) && ws !in toRemove
      ensures forall ws :: ws in connectionActivity <==> ws in old(connectionActivity) && ws !in toRemove
      ensures forall ws :: ws in connectionActivity ==> connectionActivity[ws] == old(connectionActivity)[ws]
    {
      for i := 0 to |toRemove|
        invariant Fields() == Without(old(Fields()), set ws | ws in toRemove[..i])
      {
        assert toRemove[..i + 1] == toRemove[..i] + [toRemove[i]];
        activeConnections := activeConnections - {toRemove[i]};
        connectionActivity := connectionActivity - {toRemove[i]};
      }
      assert toRemove[..|toRemove|] == toRemove;
    }

    /** The first locked part of a cleanup pass. */
    method ScanInactive(currentTime: int) returns (toRemove: seq<Socket>)
      ensures (set ws | ws in toRemove) == Stale(connectionActivity, currentTime, sessionTimeout)
      ensures forall ws :: ws in toRemove <==>
                ws in connectionActivity && currentTime - connectionActivity[ws] > sessionTimeout
    {
      toRemove := [];
      var todo := connectionActivity.Keys;
      while todo != {}
        invariant todo <= connectionActivity.Keys
        invariant forall ws :: ws in toRemove <==>
          ws in connectionActivity && ws !in todo && currentTime - connectionActivity[ws] > sessionTimeout
      {
        var ws :| ws in todo;
        var lastActivity := connectionActivity[ws];
        if currentTime - lastActivity > sessionTimeout { toRemove := toRemove + [ws]; }
        todo := todo - {ws};
      }
    }

    /** A cleanup pass with nothing happening between its two lock sections. */
    method CleanupPass(currentTime: int)
      modifies this
      ensures forall ws :: ws in activeConnections <==>
                ws in old(activeConnections)
                && !(ws in old(connectionActivity) && currentTime - old(connectionActivity)[ws] > sessionTimeout)
      ensures forall ws :: ws in connectionActivity <==>
                ws in old(connectionActivity) && currentTime - old(connectionActivity)[ws] <= sessionTimeout
      ensures forall ws :: ws in connectionActivity ==> connectionActivity[ws] == old(connectionActivity)[ws]
    {
      var toRemove := ScanInactive(currentTime);
      if toRemove != [] {
        RemoveConnections(toRemove);
      }
    }

    /** A broadcast with nothing else happening: everybody active is sent to once and
        counts as active now, and those who cannot be reached are removed. */
    method BroadcastScan(now: int, reachable: Socket -> bool) returns (sentTo: seq<Socket>)
      modifies this
      ensures forall ws :: ws in sentTo <==> ws in old(activeConnections)
      ensures forall i, j :: 0 <= i < j < |sentTo| ==> sentTo[i] != sentTo[j]
      ensures forall ws :: ws in activeConnections <==> ws in old(activeConnections) && reachable(ws)
      ensures forall ws :: ws in connectionActivity <==>
                if ws in old(activeConnections) then reachable(ws) else ws in old(connectionActivity)
      ensures forall ws :: ws in connectionActivity ==>
                connectionActivity[ws] == if ws in old(activeConnections) then now else old(connectionActivity)[ws]
    {
      UpdateActivityForAll(now);
      var toRemove;
      sentTo, toRemove := SendToAll(activeConnections, reachable);
      if toRemove != [] {
        RemoveConnections(toRemove);
      }
    }
  }

  method SendToAll(connections: set<Socket>, reachable: Socket -> bool) returns (sentTo: seq<Socket>, toRemove: seq<Socket>)
    ensures forall ws :: ws in sentTo <==> ws in connections
    ensures forall i, j :: 0 <= i < j < |sentTo| ==> sentTo[i] != sentTo[j]
    ensures forall ws :: ws in toRemove <==> ws in connections && !reachable(ws)
  {
    sentTo, toRemove := [], [];
    var todo := connections;
    while todo != {}
      invariant todo <= connections
      invariant forall ws :: ws in sentTo <==> ws in connections && ws !in todo
      invariant forall i, j :: 0 <= i < j < |sentTo| ==> sentTo[i] != sentTo[j]
      invariant forall ws :: ws in toRemove <==> ws in connections && ws !in todo && !reachable(ws)
    {
      var ws :| ws in todo;
      sentTo := sentTo + [ws];
      if !reachable(ws) { toRemove := toRemove + [ws]; }
      todo := todo - {ws};
    }
  }

  // ----- tasks and interleavings ----------------------------------------------------

  /** Where the cleanup task stands: asleep; past its clock reading; or between
      its two lock sections, with the activity it scanned. */
  datatype Cleanup =
    | Sleeping
    | Ticked(at: int)
    | Scanned(at: int, seen: Activity, toRemove: set<Socket>)

  /** Where one broadcast stands: done touching; or sending, with the snapshot it
      sends to, who it still has to send to and whose send failed. */
  datatype Broadcast =
    | JustTouched
    | Sending(snapshot: set<Socket>, pending: set<Socket>, failed: set<Socket>)

  datatype State = State(
    shared: Shared,
    clock: int,
    cleanup: Cleanup,
    broadcasts: map<nat, Broadcast>)

  datatype Action =
    | Tick(to: int)
    | Connect(ws: Socket)
    | Disconnect(ws: Socket)
    | Touch(task: nat)
    | Snapshot(task: nat)
    | Send(task: nat, ws: Socket, ok: bool)
    | RemoveDead(task: nat)
    | Wake
    | Scan
    | Sweep

  /** When an action may happen. */
  predicate Enabled(s: State, a: Action) {
    match a
    case Tick(to) => s.clock <= to
    case Connect(_) => true
    case Disconnect(_) => true
    case Touch(task) => task !in s.broadcasts
    case Snapshot(task) => task in s.broadcasts && s.broadcasts[task].JustTouched?
    case Send(task, ws, _) => task in s.broadcasts && s.broadcasts[task].Sending? && ws in s.broadcasts[task].pending
    case RemoveDead(task) => task in s.broadcasts && s.broadcasts[task].Sending? && s.broadcasts[task].pending == {}
    case Wake => s.cleanup.Sleeping?
    case Scan => s.cleanup.Ticked?
    case Sweep => s.cleanup.Scanned?
  }

  function Next(s: State, a: Action, timeout: int): State
    requires Enabled(s, a)
  {
    match a
    case Tick(to) => s.(clock := to)
    case Connect(ws) => s.(shared := Connected(s.shared, ws, s.clock))
    case Disconnect(ws) => s.(shared := Without(s.shared, {ws}))
    case Touch(task) => s.(shared := Touched(s.shared, s.clock), broadcasts := s.broadcasts[task := JustTouched])
    case Snapshot(task) =>
      s.(broadcasts := s.broadcasts[task := Sending(s.shared.active, s.shared.active, {})])
    case Send(task, ws, ok) =>
      var b := s.broadcasts[task];
      s.(broadcasts := s.broadcasts[task := Sending(b.snapshot, b.pending - {ws}, if ok then b.failed else b.failed + {ws})])
    case RemoveDead(task) =>
      s.(shared := Without(s.shared, s.broadcasts[task].failed), broadcasts := s.broadcasts - {task})
    case Wake => s.(cleanup := Ticked(s.clock))
    case Scan =>
      var stale := Stale(s.shared.activity, s.cleanup.at, timeout);
      s.(cleanup := if stale == {} then Sleeping else Scanned(s.cleanup.at, s.shared.activity, stale))
    case Sweep => s.(shared := Without(s.shared, s.cleanup.toRemove), cleanup := Sleeping)
  }

  predicate Initial(s: State) {
    s.shared == Shared({}, map[]) && s.cleanup.Sleeping? && s.broadcasts == map[]
  }

  /** A run: states and the actions between them. */
  ghost predicate IsRun(states: seq<State>, actions: seq<Action>, timeout: int) {
    && |states| == |actions| + 1 && Initial(states[0])
    && forall i :: 0 <= i < |actions| ==>
         Enabled(states[i], actions[i]) && states[i + 1] == Next(states[i], actions[i], timeout)
  }

  // ----- the invariant -----------------------------------------------------------------

  /** Nothing outside `excused` has been silent since before `at - timeout`. */
  ghost predicate FreshSince(activity: Activity, at: int, timeout: int, excused: set<Socket>) {
    forall ws :: ws in activity && ws !in excused ==> activity[ws] >= at - timeout
  }

  ghost predicate CleanupInv(s: State, timeout: int) {
    match s.cleanup
    case Sleeping => true
    case Ticked(at) => at <= s.clock
    case Scanned(at, seen, toRemove) =>
      && at <= s.clock
      && toRemove == Stale(seen, at, timeout)
      && FreshSince(s.shared.activity, at, timeout, toRemove)
      && forall ws :: ws in toRemove && ws in s.shared.activity ==>
           s.shared.activity[ws] == seen[ws] || s.shared.activity[ws] >= at
  }

  ghost predicate BroadcastInv(b: Broadcast) {
    b.Sending? ==> b.pending <= b.snapshot && b.failed <= b.snapshot && b.pending !! b.failed
  }

  ghost predicate Inv(s: State, timeout: int) {
    && s.shared.active == s.shared.activity.Keys
    && (forall ws :: ws in s.shared.activity ==> s.shared.activity[ws] <= s.clock)
    && CleanupInv(s, timeout)
    && (forall t :: t in s.broadcasts ==> BroadcastInv(s.broadcasts[t]))
  }

  lemma StepKeepsInv(s: State, a: Action, timeout: int)
    requires timeout >= 0 && Inv(s, timeout) && Enabled(s, a)
    ensures Inv(Next(s, a, timeout), timeout)
  {
  }

  /** In every state of every run, whatever the interleaving: the two collections
      name the same sockets and no activity lies in the future. */
  lemma {:induction false} RunKeepsInv(states: seq<State>, actions: seq<Action>, timeout: int, i: nat)
    requires timeout >= 0 && IsRun(states, actions, timeout) && i < |states|
    ensures Inv(states[i], timeout)
    ensures states[i].shared.active == states[i].shared.activity.Keys
  {
    if i > 0 {
      RunKeepsInv(states, actions, timeout, i - 1);
      StepKeepsInv(states[i - 1], actions[i - 1], timeout);
    }
  }

  // ----- what a cleanup pass does ----------------------------------------------------------

  /** A pass that found something: it scanned in step `i` and sweeps in step `j`,
      with any actions of other tasks in between. */
  ghost predicate IsPass(states: seq<State>, actions: seq<Action>, i: nat, j: nat) {
    && i < j < |actions| < |states| && actions[i].Scan? && actions[j].Sweep?
    && forall k :: i < k < j ==> !actions[k].Sweep? && !actions[k].Scan? && !actions[k].Wake?
  }

  lemma {:induction false} PassKeepsItsScan(states: seq<State>, actions: seq<Action>, timeout: int, i: nat, j: nat, k: nat)
    requires IsRun(states, actions, timeout) && IsPass(states, actions, i, j) && i < k <= j
    ensures states[k].cleanup == states[i + 1].cleanup
  {
    if k > i + 1 { PassKeepsItsScan(states, actions, timeout, i, j, k - 1); }
  }

  /** A pass removes only sockets that were stale in its own scan, and when it is
      done no socket has been silent since before its clock reading minus the
      timeout - also those that connected or were touched meanwhile. */
  lemma PassRemovesStaleOnly(states: seq<State>, actions: seq<Action>, timeout: int, i: nat, j: nat)
    requires timeout >= 0 && IsRun(states, actions, timeout) && IsPass(states, actions, i, j)
    ensures states[j].shared.active - states[j + 1].shared.active
         <= Stale(states[i].shared.activity, states[i].cleanup.at, timeout)
    ensures FreshSince(states[j + 1].shared.activity, states[i].cleanup.at, timeout, {})
  {
    RunKeepsInv(states, actions, timeout, j);
    PassKeepsItsScan(states, actions, timeout, i, j, j);
  }

  /** A scan that finds nothing has established the same. */
  lemma EmptyScanMeansFresh(s: State, timeout: int)
    requires Enabled(s, Scan) && Next(s, Scan, timeout).cleanup.Sleeping?
    ensures FreshSince(s.shared.activity, s.cleanup.at, timeout, {})
  {
    forall ws | ws in s.shared.activity ensures s.shared.activity[ws] >= s.cleanup.at - timeout {
      assert ws !in Stale(s.shared.activity, s.cleanup.at, timeout);
    }
  }

  /** The sweep does not look again: of the sockets it removes, those still stale
      are exactly those nobody touched or reconnected since the scan. */
  lemma SweptAndStillStale(s: State, timeout: int, ws: Socket)
    requires timeout >= 0 && Inv(s, timeout) && s.cleanup.Scanned?
    requires ws in s.cleanup.toRemove && ws in s.shared.active
    ensures s.cleanup.at - s.shared.activity[ws] > timeout <==> s.shared.activity[ws] == s.cleanup.seen[ws]
  {
  }

  /** A broadcast touches every active socket, a connect the one. */
  predicate Refreshes(a: Action, ws: Socket) { a.Touch? || a == Connect(ws) }

  ghost predicate RefreshedBetween(actions: seq<Action>, i: nat, k: nat, ws: Socket)
    requires k <= |actions|
  {
    exists m :: i < m < k && Refreshes(actions[m], ws)
  }

  /** Between scan and sweep an activity changes only by such a step. */
  lemma {:induction false} ActivitySinceScan(states: seq<State>, actions: seq<Action>, timeout: int,
                                             i: nat, j: nat, k: nat, ws: Socket)
    requires timeout >= 0 && IsRun(states, actions, timeout) && IsPass(states, actions, i, j) && i < k <= j
    requires ws in states[k].shared.activity
    ensures if RefreshedBetween(actions, i, k, ws)
            then states[k].shared.activity[ws] >= states[i].cleanup.at
            else ws in states[i].shared.activity && states[k].shared.activity[ws] == states[i].shared.activity[ws]
  {
    if k > i + 1 {
      RunKeepsInv(states, actions, timeout, k - 1);
      OneStepActivity(states[k - 1], actions[k - 1], timeout, ws);
      if Refreshes(actions[k - 1], ws) {
        ClockAfterScan(states, actions, timeout, i, j, k - 1);
      } else {
        ActivitySinceScan(states, actions, timeout, i, j, k - 1, ws);
      }
    }
  }

  lemma OneStepActivity(s: State, a: Action, timeout: int, ws: Socket)
    requires Inv(s, timeout) && Enabled(s, a) && ws in Next(s, a, timeout).shared.activity
    ensures if Refreshes(a, ws) then Next(s, a, timeout).shared.activity[ws] == s.clock
            else ws in s.shared.activity && Next(s, a, timeout).shared.activity[ws] == s.shared.activity[ws]
  {
  }

  lemma ClockAfterScan(states: seq<State>, actions: seq<Action>, timeout: int, i: nat, j: nat, k: nat)
    requires timeout >= 0 && IsRun(states, actions, timeout) && IsPass(states, actions, i, j) && i < k <= j
    ensures states[k].clock >= states[i].cleanup.at
  {
    PassKeepsItsScan(states, actions, timeout, i, j, k);
    PassKeepsItsScan(states, actions, timeout, i, j, j);
    RunKeepsInv(states, actions, timeout, k);
    assert states[k].cleanup.Scanned? && states[k].cleanup.at == states[i].cleanup.at;
  }

  /** In terms of the run: a socket about to be swept is still stale if and only
      if no broadcast touched and no connect renewed it since the scan. */
  lemma SweptStaleIffNotRefreshed(states: seq<State>, actions: seq<Action>, timeout: int, i: nat, j: nat, ws: Socket)
    requires timeout >= 0 && IsRun(states, actions, timeout) && IsPass(states, actions, i, j)
    requires ws in states[j].cleanup.toRemove && ws in states[j].shared.active
    ensures ws in states[j].shared.activity && ws !in states[j + 1].shared.active
    ensures states[j].cleanup.at - states[j].shared.activity[ws] > timeout
       <==> !RefreshedBetween(actions, i, j, ws)
  {
    RunKeepsInv(states, actions, timeout, i);
    RunKeepsInv(states, actions, timeout, j);
    PassKeepsItsScan(states, actions, timeout, i, j, j);
    ActivitySinceScan(states, actions, timeout, i, j, j, ws);
  }

  /** In a pass during which nothing but time passes between scan and sweep, what
      is removed is exactly what is stale, then as at the scan. The service's passes
      are of this kind: no await lies between the two lock sections, and taking a
      lock nobody holds does not suspend. */
  lemma UninterruptedSweepIsExact(states: seq<State>, actions: seq<Action>, timeout: int, i: nat, j: nat)
    requires timeout >= 0 && IsRun(states, actions, timeout) && IsPass(states, actions, i, j)
    requires forall m :: i < m < j ==> actions[m].Tick?
    ensures states[j].shared == states[i].shared
    ensures states[j].shared.active - states[j + 1].shared.active
         == Stale(states[j].shared.activity, states[i].cleanup.at, timeout)
    ensures states[j + 1].shared.active
         == states[j].shared.active - Stale(states[j].shared.activity, states[i].cleanup.at, timeout)
  {
    OnlyTimePasses(states, actions, timeout, i + 1, j);
    PassKeepsItsScan(states, actions, timeout, i, j, j);
    RunKeepsInv(states, actions, timeout, j);
  }

  lemma {:induction false} OnlyTimePasses(states: seq<State>, actions: seq<Action>, timeout: int, i: nat, j: nat)
    requires IsRun(states, actions, timeout) && i <= j < |states| && forall m :: i <= m < j ==> actions[m].Tick?
    ensures states[j].shared == states[i].shared
  {
    if i < j { OnlyTimePasses(states, actions, timeout, i, j - 1); }
  }

  /** With an await between the two sections a socket could be swept right after a
      broadcast refreshed it. */
  lemma FreshSocketCanBeSwept() returns (states: seq<State>, actions: seq<Action>, ws: Socket)
    ensures IsRun(states, actions, 30) && |actions| == 7 && actions[6].Sweep?
    ensures ws in states[6].shared.active && ws !in states[7].shared.active
    ensures states[6].shared.activity == map[ws := states[6].clock]
  {
    ws := Socket(1);
    actions := [Connect(ws), Tick(100), Wake, Scan, Tick(101), Touch(0), Sweep];
    var s0 := State(Shared({}, map[]), 0, Sleeping, map[]);
    var s1 := Next(s0, Connect(ws), 30);
    var s2 := Next(s1, Tick(100), 30);
    var s3 := Next(s2, Wake, 30);
    assert ws in Stale(s3.shared.activity, 100, 30);
    var s4 := Next(s3, Scan, 30);
    var s5 := Next(s4, Tick(101), 30);
    var s6 := Next(s5, Touch(0), 30);
    var s7 := Next(s6, Sweep, 30);
    states := [s0, s1, s2, s3, s4, s5, s6, s7];
  }

  // ----- what a broadcast removes ------------------------------------------------------------

  /** Every socket a broadcast holds for dead had a send of that broadcast fail. */
  lemma {:induction false} DeadMeansSendFailed(states: seq<State>, actions: seq<Action>, timeout: int,
                                               k: nat, task: nat, ws: Socket) returns (i: nat)
    requires IsRun(states, actions, timeout) && k < |states|
    requires task in states[k].broadcasts && states[k].broadcasts[task].Sending?
    requires ws in states[k].broadcasts[task].failed
    ensures i < k && actions[i] == Send(task, ws, false)
  {
    assert k > 0;
    var before := states[k - 1];
    if actions[k - 1] == Send(task, ws, false) {
      i := k - 1;
    } else {
      assert task in before.broadcasts && before.broadcasts[task].Sending? && ws in before.broadcasts[task].failed;
      i := DeadMeansSendFailed(states, actions, timeout, k - 1, task, ws);
    }
  }

  /** Whoever left the pending set of a broadcast was sent to. */
  lemma {:induction false} SentMeansSend(states: seq<State>, actions: seq<Action>, timeout: int,
                                         k: nat, task: nat, ws: Socket) returns (i: nat)
    requires IsRun(states, actions, timeout) && k < |states|
    requires task in states[k].broadcasts && states[k].broadcasts[task].Sending?
    requires ws in states[k].broadcasts[task].snapshot && ws !in states[k].broadcasts[task].pending
    ensures i < k && actions[i].Send? && actions[i].task == task && actions[i].ws == ws
  {
    assert k > 0;
    var action, before := actions[k - 1], states[k - 1];
    if action.Send? && action.task == task && action.ws == ws {
      i := k - 1;
    } else {
      assert task in before.broadcasts && before.broadcasts[task].Sending?;
      i := SentMeansSend(states, actions, timeout, k - 1, task, ws);
    }
  }

  /** A broadcast gets to its removal only after a send to everyone it saw, and
      it removes exactly the sockets whose send failed. */
  lemma BroadcastRemovesFailedOnly(states: seq<State>, actions: seq<Action>, timeout: int, k: nat, task: nat, ws: Socket)
    requires timeout >= 0 && IsRun(states, actions, timeout) && k < |actions| && actions[k] == RemoveDead(task)
    ensures ws in states[k].broadcasts[task].snapshot ==>
              exists i :: 0 <= i < k && actions[i].Send? && actions[i].task == task && actions[i].ws == ws
    ensures states[k + 1].shared.active == states[k].shared.active - states[k].broadcasts[task].failed
    ensures ws in states[k].shared.active && ws !in states[k + 1].shared.active ==>
              exists i :: 0 <= i < k && actions[i] == Send(task, ws, false)
  {
    if ws in states[k].broadcasts[task].snapshot {
      var i := SentMeansSend(states, actions, timeout, k, task, ws);
    }
    if ws in states[k].shared.active && ws !in states[k + 1].shared.active {
      var i := DeadMeansSendFailed(states, actions, timeout, k, task, ws);
    }
  }
}

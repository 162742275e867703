/** What each stats record holds, told by the calls alone: one record per event and
    day, with what was counted on that day. */
module AnalyticsDays {
  import opened Wrappers
  import opened Durations
  import opened Analytics

  /** The day of a call; a read happens when its record would be stamped. */
  function DayOf(c: Call): int {
    match c
    case LogCall(_, _, _, _, now, _) => now / DAY
    case GetCall(_, _, stamp) => stamp / DAY
  }

  /** Days never go back, and a record is stamped on the day of its call. */
  ghost predicate Clocked(calls: seq<Call>) {
    && (forall i :: 0 <= i < |calls| && calls[i].LogCall? ==> calls[i].stamp / DAY == calls[i].now / DAY)
    && (forall i, j :: 0 <= i < j < |calls| ==> DayOf(calls[i]) <= DayOf(calls[j]))
  }

  predicate Moves(entry: Entry, m: Metric) {
    match m
    case Scans => entry.ScanEntry?
    case Transfers => entry.TransferEntry?
    case Attempts => entry.AttemptEntry?
    case ValidScans => entry == ScanEntry(true)
    case InvalidScans => entry == ScanEntry(false)
    case SuccessfulTransfers => entry == TransferEntry(true)
    case FailedTransfers => entry == TransferEntry(false)
  }

  /** The call stored a raw row of the event. */
  predicate Logged(c: Call, eventId: string) {
    c.LogCall? && c.eventId == Some(eventId) && c.rawOk
  }

  /** It also updated the counters. */
  predicate Counted(c: Call, eventId: string) { Logged(c, eventId) && c.updateOk }

  predicate Reads(c: Call, eventId: string) {
    c.GetCall? && c.eventId' == eventId && c.commitOk
  }

  /** Call `i` finds no record of the event, recomputes the counters and keeps them. */
  ghost predicate Recomputes(calls: seq<Call>, i: nat, eventId: string) {
    && i < |calls| && Reads(calls[i], eventId)
    && forall j :: 0 <= j < i ==> !Counted(calls[j], eventId) && !Reads(calls[j], eventId)
  }

  /** How many raw rows of a kind the event had before call `k`. */
  ghost function RawBefore(calls: seq<Call>, k: nat, eventId: string, m: Metric): int
    requires k <= |calls|
  {
    if k == 0 then 0
    else
      var c := calls[k - 1];
      RawBefore(calls, k - 1, eventId, m) + if Logged(c, eventId) && Moves(c.entry, m) then 1 else 0
  }

  /** What the calls before `k` counted for the event on a day: its updates of that
      day, and all its raw rows if a read recomputed the counters on that day. */
  ghost function OnDay(calls: seq<Call>, k: nat, eventId: string, day: int, m: Metric): int
    requires k <= |calls|
  {
    if k == 0 then 0
    else
      var c, before := calls[k - 1], OnDay(calls, k - 1, eventId, day, m);
      if DayOf(c) != day then before
      else if Counted(c, eventId) then before + (if Moves(c.entry, m) then 1 else 0)
      else if Recomputes(calls, k - 1, eventId) then before + RawBefore(calls, k - 1, eventId, m)
      else before
  }

  /** Some call before `k` counted something on the day. */
  ghost predicate ActiveOn(calls: seq<Call>, k: nat, eventId: string, day: int)
    requires k <= |calls|
  {
    exists i :: 0 <= i < k && DayOf(calls[i]) == day && (Counted(calls[i], eventId) || Recomputes(calls, i, eventId))
  }

  // ----- the calls ---------------------------------------------------------------------

  lemma IncrementIs(entry: Entry, m: Metric)
    ensures Get(Increment(entry), m) == if Moves(entry, m) then 1 else 0
  {
  }

  lemma {:induction false} RawBeforeIsRaw(states: seq<Tables>, calls: seq<Call>, k: nat, eventId: string, m: Metric)
    requires IsRun(states, calls) && k <= |calls|
    ensures Get(Raw(states[k], eventId), m) == RawBefore(calls, k, eventId, m)
  {
    if k > 0 {
      RawBeforeIsRaw(states, calls, k - 1, eventId, m);
      RawStep(states[k - 1], states[k], calls[k - 1], eventId, m);
    }
  }

  lemma RawStep(t: Tables, t': Tables, c: Call, eventId: string, m: Metric)
    requires Step(t, t', c)
    ensures Get(Raw(t', eventId), m)
         == Get(Raw(t, eventId), m) + if Logged(c, eventId) && Moves(c.entry, m) then 1 else 0
  {
    match c
    case LogCall(id, entry, rawOk, updateOk, now, stamp) =>
      if Accepted(id, entry, rawOk) {
        RawInsert(t, id, entry, eventId, m);
        IncrementIs(entry, m);
        assert Raw(t', eventId) == Raw(Insert(t, id, entry), eventId);
      }
    case GetCall(id, commitOk, stamp) =>
      assert Raw(t', eventId) == Raw(t, eventId);
  }

  lemma {:induction false} QuietDay(calls: seq<Call>, k: nat, eventId: string, day: int, m: Metric)
    requires k <= |calls| && !ActiveOn(calls, k, eventId, day)
    ensures OnDay(calls, k, eventId, day, m) == 0
  {
    if k > 0 {
      forall i | 0 <= i < k - 1 && DayOf(calls[i]) == day
        ensures !Counted(calls[i], eventId) && !Recomputes(calls, i, eventId)
      {
      }
      assert !ActiveOn(calls, k - 1, eventId, day);
      QuietDay(calls, k - 1, eventId, day, m);
    }
  }

  /** The first call that could leave a record does. */
  lemma {:induction false} FirstIsActive(calls: seq<Call>, k: nat, eventId: string)
    requires k <= |calls| && forall day :: !ActiveOn(calls, k, eventId, day)
    ensures forall j :: 0 <= j < k ==> !Counted(calls[j], eventId) && !Reads(calls[j], eventId)
  {
    if k > 0 {
      var n := k - 1;
      forall day ensures !ActiveOn(calls, n, eventId, day) {
        assert !ActiveOn(calls, k, eventId, day);
      }
      FirstIsActive(calls, n, eventId);
      assert !ActiveOn(calls, k, eventId, DayOf(calls[k - 1]));
    }
  }

  lemma ActiveNext(calls: seq<Call>, k: nat, eventId: string, day: int)
    requires 0 < k <= |calls|
    ensures ActiveOn(calls, k, eventId, day) <==>
              ActiveOn(calls, k - 1, eventId, day)
              || (DayOf(calls[k - 1]) == day && (Counted(calls[k - 1], eventId) || Recomputes(calls, k - 1, eventId)))
  {
  }

  // ----- the records ---------------------------------------------------------------------

  ghost predicate HasRecord(stats: seq<StatsRow>, eventId: string, day: int) {
    exists i :: 0 <= i < |stats| && stats[i].eventId == eventId && stats[i].stamp / DAY == day
  }

  /** One record per active day of the event, with that day's counts. */
  ghost predicate Daily(stats: seq<StatsRow>, calls: seq<Call>, k: nat, eventId: string)
    requires k <= |calls|
  {
    && (forall i, j :: 0 <= i < j < |stats| && stats[i].eventId == stats[j].eventId == eventId ==>
          stats[i].stamp / DAY != stats[j].stamp / DAY)
    && (forall i, m :: 0 <= i < |stats| && stats[i].eventId == eventId ==>
          Get(stats[i].counters, m) == OnDay(calls, k, eventId, stats[i].stamp / DAY, m))
    && (forall i :: 0 <= i < |stats| && stats[i].eventId == eventId ==>
          ActiveOn(calls, k, eventId, stats[i].stamp / DAY))
    && (forall day :: ActiveOn(calls, k, eventId, day) ==> HasRecord(stats, eventId, day))
  }

  /** A call that leaves the event's records and counts alone. */
  lemma NothingCounted(stats: seq<StatsRow>, calls: seq<Call>, k: nat, eventId: string)
    requires k < |calls| && Daily(stats, calls, k, eventId)
    requires !Counted(calls[k], eventId) && !Recomputes(calls, k, eventId)
    ensures Daily(stats, calls, k + 1, eventId)
  {
    forall day ensures ActiveOn(calls, k + 1, eventId, day) <==> ActiveOn(calls, k, eventId, day) {
      ActiveNext(calls, k + 1, eventId, day);
    }
  }

  lemma OtherRowAppended(stats: seq<StatsRow>, row: StatsRow, calls: seq<Call>, k: nat, eventId: string)
    requires k <= |calls| && Daily(stats, calls, k, eventId) && row.eventId != eventId
    ensures Daily(stats + [row], calls, k, eventId)
  {
    forall day | ActiveOn(calls, k, eventId, day)
      ensures HasRecord(stats + [row], eventId, day)
    {
      assert HasRecord(stats, eventId, day);
      var i :| 0 <= i < |stats| && stats[i].eventId == eventId && stats[i].stamp / DAY == day;
      assert (stats + [row])[i] == stats[i];
    }
  }

  lemma OtherRowChanged(stats: seq<StatsRow>, i: nat, row: StatsRow, calls: seq<Call>, k: nat, eventId: string)
    requires k <= |calls| && Daily(stats, calls, k, eventId)
    requires i < |stats| && stats[i].eventId != eventId && row.eventId != eventId
    ensures Daily(stats[i := row], calls, k, eventId)
  {
    forall day | ActiveOn(calls, k, eventId, day)
      ensures HasRecord(stats[i := row], eventId, day)
    {
      assert HasRecord(stats, eventId, day);
      var j :| 0 <= j < |stats| && stats[j].eventId == eventId && stats[j].stamp / DAY == day;
      assert stats[i := row][j] == stats[j];
    }
  }

  /** A record for a day the event had none on yet. */
  lemma NewDay(stats: seq<StatsRow>, row: StatsRow, calls: seq<Call>, k: nat, eventId: string)
    requires k < |calls| && Daily(stats, calls, k, eventId) && row.eventId == eventId
    requires Counted(calls[k], eventId) || Recomputes(calls, k, eventId)
    requires row.stamp / DAY == DayOf(calls[k]) && !ActiveOn(calls, k, eventId, DayOf(calls[k]))
    requires forall m :: Get(row.counters, m) == OnDay(calls, k + 1, eventId, DayOf(calls[k]), m)
    ensures Daily(stats + [row], calls, k + 1, eventId)
  {
    var stats' := stats + [row];
    forall day ensures ActiveOn(calls, k + 1, eventId, day) <==> ActiveOn(calls, k, eventId, day) || day == DayOf(calls[k]) {
      ActiveNext(calls, k + 1, eventId, day);
    }
    forall day | ActiveOn(calls, k + 1, eventId, day)
      ensures HasRecord(stats', eventId, day)
    {
      if day == DayOf(calls[k]) {
        assert stats'[|stats|] == row;
      } else {
        assert HasRecord(stats, eventId, day);
        var i :| 0 <= i < |stats| && stats[i].eventId == eventId && stats[i].stamp / DAY == day;
        assert stats'[i] == stats[i];
      }
    }
  }

  /** One more entry in the record of its day. */
  lemma SameDay(stats: seq<StatsRow>, i: nat, row: StatsRow, calls: seq<Call>, k: nat, eventId: string)
    requires k < |calls| && Daily(stats, calls, k, eventId) && Counted(calls[k], eventId)
    requires i < |stats| && stats[i].eventId == row.eventId == eventId
    requires row.stamp == stats[i].stamp && row.stamp / DAY == DayOf(calls[k])
    requires forall m :: Get(row.counters, m) == Get(stats[i].counters, m) + if Moves(calls[k].entry, m) then 1 else 0
    ensures Daily(stats[i := row], calls, k + 1, eventId)
  {
    var stats' := stats[i := row];
    forall day ensures ActiveOn(calls, k + 1, eventId, day) <==> ActiveOn(calls, k, eventId, day) {
      ActiveNext(calls, k + 1, eventId, day);
    }
    forall day | ActiveOn(calls, k + 1, eventId, day)
      ensures HasRecord(stats', eventId, day)
    {
      assert HasRecord(stats, eventId, day);
      var j :| 0 <= j < |stats| && stats[j].eventId == eventId && stats[j].stamp / DAY == day;
      assert stats'[j].stamp == stats[j].stamp && stats'[j].eventId == eventId;
    }
  }

  /** Records lie on days of calls, so none is later than the next call. */
  lemma NoLaterRecord(stats: seq<StatsRow>, calls: seq<Call>, k: nat, eventId: string, i: nat)
    requires k < |calls| && Clocked(calls) && Daily(stats, calls, k, eventId)
    requires i < |stats| && stats[i].eventId == eventId
    ensures stats[i].stamp / DAY <= DayOf(calls[k])
  {
    assert ActiveOn(calls, k, eventId, stats[i].stamp / DAY);
  }

  lemma StampsAndDays(a: int, b: int)
    ensures a <= b ==> a / DAY <= b / DAY
  {
  }

  lemma CountedStep(t: Tables, t': Tables, calls: seq<Call>, k: nat, eventId: string)
    requires k < |calls| && Clocked(calls) && Step(t, t', calls[k]) && Daily(t.stats, calls, k, eventId)
    requires Counted(calls[k], eventId)
    ensures Daily(t'.stats, calls, k + 1, eventId)
  {
    var entry, now, stamp := calls[k].entry, calls[k].now, calls[k].stamp;
    forall m ensures Get(Increment(entry), m) == if Moves(entry, m) then 1 else 0 { IncrementIs(entry, m); }
    assert Updated(t.stats, t'.stats, eventId, entry, now, stamp);
    if i :| IsLatest(t.stats, eventId, i) && t.stats[i].stamp / DAY == now / DAY
              && t'.stats == t.stats[i := t.stats[i].(counters := t.stats[i].counters.Plus(Increment(entry)))] {
      var row := t.stats[i].(counters := t.stats[i].counters.Plus(Increment(entry)));
      forall m ensures Get(row.counters, m) == Get(t.stats[i].counters, m) + if Moves(entry, m) then 1 else 0 {
        GetPlus(t.stats[i].counters, Increment(entry), m);
      }
      SameDay(t.stats, i, row, calls, k, eventId);
    } else {
      var row := StatsRow(eventId, stamp, Increment(entry));
      NoRecordToday(t.stats, calls, k, eventId);
      forall m ensures Get(row.counters, m) == OnDay(calls, k + 1, eventId, DayOf(calls[k]), m) {
        QuietDay(calls, k, eventId, DayOf(calls[k]), m);
      }
      NewDay(t.stats, row, calls, k, eventId);
    }
  }

  /** Without a record of the event, or with a latest one of another day, there is
      none of today. */
  lemma NoRecordToday(stats: seq<StatsRow>, calls: seq<Call>, k: nat, eventId: string)
    requires k < |calls| && Clocked(calls) && Daily(stats, calls, k, eventId)
    requires NoStats(stats, eventId) || exists i :: IsLatest(stats, eventId, i) && stats[i].stamp / DAY != DayOf(calls[k])
    ensures !ActiveOn(calls, k, eventId, DayOf(calls[k]))
  {
    var today := DayOf(calls[k]);
    if ActiveOn(calls, k, eventId, today) {
      assert HasRecord(stats, eventId, today);
      var j :| 0 <= j < |stats| && stats[j].eventId == eventId && stats[j].stamp / DAY == today;
      var i :| IsLatest(stats, eventId, i) && stats[i].stamp / DAY != today;
      StampsAndDays(stats[j].stamp, stats[i].stamp);
      NoLaterRecord(stats, calls, k, eventId, i);
      assert false;
    }
  }

  lemma ActiveExcludesRecompute(calls: seq<Call>, k: nat, eventId: string, day: int)
    requires k < |calls| && ActiveOn(calls, k, eventId, day)
    ensures !Recomputes(calls, k, eventId)
  {
  }

  /** Without a record nothing was counted. */
  lemma NoRecordNoDay(stats: seq<StatsRow>, calls: seq<Call>, k: nat, eventId: string)
    requires k <= |calls| && Daily(stats, calls, k, eventId) && NoStats(stats, eventId)
    ensures forall day :: !ActiveOn(calls, k, eventId, day)
  {
    forall day ensures !ActiveOn(calls, k, eventId, day) {
      assert !HasRecord(stats, eventId, day);
    }
  }

  lemma ReadStep(states: seq<Tables>, calls: seq<Call>, k: nat, eventId: string)
    requires IsRun(states, calls) && k < |calls| && Clocked(calls) && Daily(states[k].stats, calls, k, eventId)
    requires Reads(calls[k], eventId)
    ensures Daily(states[k + 1].stats, calls, k + 1, eventId)
  {
    var t := states[k];
    if NoStats(t.stats, eventId) {
      NoRecordNoDay(t.stats, calls, k, eventId);
      FirstIsActive(calls, k, eventId);
      assert Recomputes(calls, k, eventId);
      var row := StatsRow(eventId, calls[k].stamp', Raw(t, eventId));
      forall m ensures Get(row.counters, m) == OnDay(calls, k + 1, eventId, DayOf(calls[k]), m) {
        QuietDay(calls, k, eventId, DayOf(calls[k]), m);
        RawBeforeIsRaw(states, calls, k, eventId, m);
      }
      NewDay(t.stats, row, calls, k, eventId);
    } else {
      var i :| 0 <= i < |t.stats| && t.stats[i].eventId == eventId;
      assert ActiveOn(calls, k, eventId, t.stats[i].stamp / DAY);
      ActiveExcludesRecompute(calls, k, eventId, t.stats[i].stamp / DAY);
      NothingCounted(t.stats, calls, k, eventId);
    }
  }

  lemma OtherStep(t: Tables, t': Tables, calls: seq<Call>, k: nat, eventId: string)
    requires k < |calls| && Step(t, t', calls[k]) && Daily(t.stats, calls, k, eventId)
    requires !Counted(calls[k], eventId) && !Reads(calls[k], eventId)
    ensures Daily(t'.stats, calls, k + 1, eventId)
  {
    NothingCounted(t.stats, calls, k, eventId);
    match calls[k]
    case LogCall(id, entry, rawOk, updateOk, now, stamp) =>
      if t'.stats != t.stats {
        assert Updated(t.stats, t'.stats, id.value, entry, now, stamp) && id.value != eventId;
        if t'.stats == t.stats + [StatsRow(id.value, stamp, Increment(entry))] {
          OtherRowAppended(t.stats, StatsRow(id.value, stamp, Increment(entry)), calls, k + 1, eventId);
        } else {
          var i :| IsLatest(t.stats, id.value, i)
            && t'.stats == t.stats[i := t.stats[i].(counters := t.stats[i].counters.Plus(Increment(entry)))];
          OtherRowChanged(t.stats, i, t.stats[i].(counters := t.stats[i].counters.Plus(Increment(entry))), calls, k + 1, eventId);
        }
      }
    case GetCall(id, commitOk, stamp) =>
      if t'.stats != t.stats {
        OtherRowAppended(t.stats, StatsRow(id, stamp, Raw(t, id)), calls, k + 1, eventId);
      }
  }

  lemma StartIsDaily(calls: seq<Call>, eventId: string)
    ensures Daily([], calls, 0, eventId)
  {
  }

  lemma OneStep(states: seq<Tables>, calls: seq<Call>, k: nat, eventId: string)
    requires IsRun(states, calls) && Clocked(calls) && k < |calls| && Daily(states[k].stats, calls, k, eventId)
    ensures Daily(states[k + 1].stats, calls, k + 1, eventId)
  {
    if Counted(calls[k], eventId) {
      CountedStep(states[k], states[k + 1], calls, k, eventId);
    } else if Reads(calls[k], eventId) {
      ReadStep(states, calls, k, eventId);
    } else {
      OtherStep(states[k], states[k + 1], calls, k, eventId);
    }
  }

  lemma {:induction false} RunIsDaily(states: seq<Tables>, calls: seq<Call>, k: nat, eventId: string)
    requires IsRun(states, calls) && Clocked(calls) && k <= |calls|
    ensures Daily(states[k].stats, calls, k, eventId)
  {
    if k == 0 {
      StartIsDaily(calls, eventId);
    } else {
      var n := k - 1;
      RunIsDaily(states, calls, n, eventId);
      OneStep(states, calls, n, eventId);
    }
  }

  /** In every state of every sequential run an event has exactly one record for
      each day on which something was counted, and no other. The record holds the
      event's successful updates of that day, and, if a read recomputed the counters
      on that day, all raw rows the event had until then. */
  lemma OneRecordPerDay(states: seq<Tables>, calls: seq<Call>, k: nat, eventId: string)
    requires IsRun(states, calls) && Clocked(calls) && k <= |calls|
    ensures var stats := states[k].stats;
            && (forall i, j :: 0 <= i < j < |stats| && stats[i].eventId == stats[j].eventId == eventId ==>
                  stats[i].stamp / DAY != stats[j].stamp / DAY)
            && (forall i, m :: 0 <= i < |stats| && stats[i].eventId == eventId ==>
                  Get(stats[i].counters, m) == OnDay(calls, k, eventId, stats[i].stamp / DAY, m))
            && (forall day :: ActiveOn(calls, k, eventId, day) <==> HasRecord(stats, eventId, day))
  {
    RunIsDaily(states, calls, k, eventId);
  }

  /** So what `get_stats_for_event` returns from a record are the counts of the
      last day on which the event had any. */
  lemma LatestRecordIsLastDay(states: seq<Tables>, calls: seq<Call>, k: nat, eventId: string, i: nat, m: Metric)
    requires IsRun(states, calls) && Clocked(calls) && k <= |calls| && IsLatest(states[k].stats, eventId, i)
    ensures var day := states[k].stats[i].stamp / DAY;
            && Get(states[k].stats[i].counters, m) == OnDay(calls, k, eventId, day, m)
            && ActiveOn(calls, k, eventId, day)
            && forall later :: ActiveOn(calls, k, eventId, later) ==> later <= day
  {
    RunIsDaily(states, calls, k, eventId);
    var stats := states[k].stats;
    forall later | ActiveOn(calls, k, eventId, later) ensures later <= stats[i].stamp / DAY {
      assert HasRecord(stats, eventId, later);
      var j :| 0 <= j < |stats| && stats[j].eventId == eventId && stats[j].stamp / DAY == later;
      StampsAndDays(stats[j].stamp, stats[i].stamp);
    }
  }
}

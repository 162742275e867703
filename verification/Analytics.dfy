/** Raw analytics logs and the per-day counters that summarise them
    (src/analytics/service.py). */
module Analytics {
  import opened Wrappers
  import opened Counting
  import opened Durations

  // ----- tables ------------------------------------------------------------------

  datatype ScanRow = ScanRow(eventId: string, valid: bool)
  datatype TransferRow = TransferRow(eventId: string, successful: bool)
  datatype AttemptRow = AttemptRow(eventId: Option<string>)

  datatype Counters = Counters(
    scans: int,
    transfers: int,
    attempts: int,
    validScans: int,
    invalidScans: int,
    successfulTransfers: int,
    failedTransfers: int)
  {
    function Plus(o: Counters): Counters {
      Counters(scans + o.scans, transfers + o.transfers, attempts + o.attempts, validScans + o.validScans,
               invalidScans + o.invalidScans, successfulTransfers + o.successfulTransfers,
               failedTransfers + o.failedTransfers)
    }

    /** The totals are the sums of their parts, and nothing is negative. */
    predicate Balanced() {
      && scans == validScans + invalidScans && transfers == successfulTransfers + failedTransfers
      && validScans >= 0 && invalidScans >= 0 && successfulTransfers >= 0 && failedTransfers >= 0 && attempts >= 0
    }
  }

  /** One of the seven counters. */
  datatype Metric = Scans | Transfers | Attempts | ValidScans | InvalidScans | SuccessfulTransfers | FailedTransfers

  function Get(c: Counters, m: Metric): int {
    match m
    case Scans => c.scans
    case Transfers => c.transfers
    case Attempts => c.attempts
    case ValidScans => c.validScans
    case InvalidScans => c.invalidScans
    case SuccessfulTransfers => c.successfulTransfers
    case FailedTransfers => c.failedTransfers
  }

  /** `stamp` is `stat_date`, set when the record is inserted (microseconds). */
  datatype StatsRow = StatsRow(eventId: string, stamp: int, counters: Counters)

  datatype Tables = Tables(
    scans: seq<ScanRow>,
    transfers: seq<TransferRow>,
    attempts: seq<AttemptRow>,
    stats: seq<StatsRow>)

  // ----- what is logged ------------------------------------------------------------

  datatype Entry = ScanEntry(valid: bool) | TransferEntry(successful: bool) | AttemptEntry

  /** What one entry adds to the counters. */
  function Increment(entry: Entry): Counters {
    match entry
    case ScanEntry(valid) => if valid then Counters(1, 0, 0, 1, 0, 0, 0) else Counters(1, 0, 0, 0, 1, 0, 0)
    case TransferEntry(ok) => if ok then Counters(0, 1, 0, 0, 0, 1, 0) else Counters(0, 1, 0, 0, 0, 0, 1)
    case AttemptEntry => Counters(0, 0, 1, 0, 0, 0, 0)
  }

  function ScanFor(eventId: string): ScanRow -> bool { (r: ScanRow) => r.eventId == eventId }
  function ValidScanFor(eventId: string): ScanRow -> bool { (r: ScanRow) => r.eventId == eventId && r.valid }
  function TransferFor(eventId: string): TransferRow -> bool { (r: TransferRow) => r.eventId == eventId }
  function SuccessFor(eventId: string): TransferRow -> bool { (r: TransferRow) => r.eventId == eventId && r.successful }
  function AttemptFor(eventId: string): AttemptRow -> bool { (r: AttemptRow) => r.eventId == Some(eventId) }

  /** The counters recomputed from the raw logs of an event. */
  function Raw(t: Tables, eventId: string): Counters {
    var scans, valid := Count(t.scans, ScanFor(eventId)), Count(t.scans, ValidScanFor(eventId));
    var transfers, successful := Count(t.transfers, TransferFor(eventId)), Count(t.transfers, SuccessFor(eventId));
    Counters(scans, transfers, Count(t.attempts, AttemptFor(eventId)), valid, scans - valid, successful, transfers - successful)
  }

  function Insert(t: Tables, eventId: Option<string>, entry: Entry): Tables
    requires eventId.None? ==> entry.AttemptEntry?
  {
    match entry
    case ScanEntry(valid) => t.(scans := t.scans + [ScanRow(eventId.value, valid)])
    case TransferEntry(ok) => t.(transfers := t.transfers + [TransferRow(eventId.value, ok)])
    case AttemptEntry => t.(attempts := t.attempts + [AttemptRow(eventId)])
  }

  /** The sum of one counter over the day records of an event. */
  function Summed(stats: seq<StatsRow>, eventId: string, m: Metric): int {
    if stats == [] then 0
    else
      var last := stats[|stats| - 1];
      Summed(stats[..|stats| - 1], eventId, m) + if last.eventId == eventId then Get(last.counters, m) else 0
  }

  ghost predicate NoStats(stats: seq<StatsRow>, eventId: string) {
    forall i :: 0 <= i < |stats| ==> stats[i].eventId != eventId
  }

  /** `ORDER BY stat_date DESC ... first()`; of equal stamps any may come first. */
  ghost predicate IsLatest(stats: seq<StatsRow>, eventId: string, i: int) {
    && 0 <= i < |stats| && stats[i].eventId == eventId
    && forall j :: 0 <= j < |stats| && stats[j].eventId == eventId ==> stats[j].stamp <= stats[i].stamp
  }

  /** `_update_analytics_stats` when its commit succeeds: today's record is
      incremented, or a new one starts with the increment. */
  ghost predicate Updated(stats: seq<StatsRow>, stats': seq<StatsRow>, eventId: string, entry: Entry,
                          now: int, stamp: int)
  {
    || (exists i :: IsLatest(stats, eventId, i) && stats[i].stamp / DAY == now / DAY
          && stats' == stats[i := stats[i].(counters := stats[i].counters.Plus(Increment(entry)))])
    || ((NoStats(stats, eventId) || exists i :: IsLatest(stats, eventId, i) && stats[i].stamp / DAY != now / DAY)
          && stats' == stats + [StatsRow(eventId, stamp, Increment(entry))])
  }

  // ----- the service -----------------------------------------------------------------

  class AnalyticsService {
    var ticketScans: seq<ScanRow>
    var ticketTransfers: seq<TransferRow>
    var invalidAttempts: seq<AttemptRow>
    var analyticsStats: seq<StatsRow>

    constructor ()
      ensures Db() == Tables([], [], [], [])
    {
      ticketScans, ticketTransfers, invalidAttempts, analyticsStats := [], [], [], [];
    }

    function Db(): Tables
      reads this
    {
      Tables(ticketScans, ticketTransfers, invalidAttempts, analyticsStats)
    }

    /** `log_ticket_scan`, `log_ticket_transfer` and `log_invalid_attempt`: commit
        the raw row, then update the counters; a failure of the update is
        swallowed, one of the raw insert is raised. */
    method Log(eventId: Option<string>, entry: Entry, rawOk: bool, updateOk: bool, now: int, stamp: int)
      returns (raised: bool)
      modifies this
      ensures LogStep(old(Db()), Db(), eventId, entry, rawOk, updateOk, now, stamp)
      ensures raised <==> !Accepted(eventId, entry, rawOk)
      ensures raised <==> !rawOk || (eventId.None? && (entry.ScanEntry? || entry.TransferEntry?))
      ensures raised ==> Db() == old(Db())
      ensures !raised && entry.ScanEntry? ==>
                ticketScans == old(ticketScans) + [ScanRow(eventId.value, entry.valid)]
                && ticketTransfers == old(ticketTransfers) && invalidAttempts == old(invalidAttempts)
      ensures !raised && entry.TransferEntry? ==>
                ticketTransfers == old(ticketTransfers) + [TransferRow(eventId.value, entry.successful)]
                && ticketScans == old(ticketScans) && invalidAttempts == old(invalidAttempts)
      ensures !raised && entry.AttemptEntry? ==>
                invalidAttempts == old(invalidAttempts) + [AttemptRow(eventId)]
                && ticketScans == old(ticketScans) && ticketTransfers == old(ticketTransfers)
      ensures !raised && !(eventId.Some? && updateOk) ==> analyticsStats == old(analyticsStats)
    {
      if !Accepted(eventId, entry, rawOk) {
        return true;
      }
      match entry {
        case ScanEntry(valid) => ticketScans := ticketScans + [ScanRow(eventId.value, valid)];
        case TransferEntry(ok) => ticketTransfers := ticketTransfers + [TransferRow(eventId.value, ok)];
        case AttemptEntry => invalidAttempts := invalidAttempts + [AttemptRow(eventId)];
      }
      if eventId.Some? && updateOk {
        UpdateAnalyticsStats(eventId.value, entry, now, stamp);
      }
      return false;
    }

    method UpdateAnalyticsStats(eventId: string, entry: Entry, now: int, stamp: int)
      modifies this`analyticsStats
      ensures Updated(old(analyticsStats), analyticsStats, eventId, entry, now, stamp)
    {
      var latest := FindLatest(eventId);
      if latest.None? || analyticsStats[latest.value].stamp / DAY != now / DAY {
        analyticsStats := analyticsStats + [StatsRow(eventId, stamp, Increment(entry))];
      } else {
        var row := analyticsStats[latest.value];
        analyticsStats := analyticsStats[latest.value := row.(counters := row.counters.Plus(Increment(entry)))];
      }
    }

    method FindLatest(eventId: string) returns (latest: Option<nat>)
      ensures latest.None? ==> NoStats(analyticsStats, eventId)
      ensures latest.Some? ==> IsLatest(analyticsStats, eventId, latest.value)
    {
      latest := None;
      for i := 0 to |analyticsStats|
        invariant latest.None? ==> NoStats(analyticsStats[..i], eventId)
        invariant latest.Some? ==> latest.value < i && IsLatest(analyticsStats[..i], eventId, latest.value)
      {
        assert forall j :: 0 <= j < i ==> analyticsStats[..i + 1][j] == analyticsStats[..i][j];
        if analyticsStats[i].eventId == eventId {
          if latest.None? || analyticsStats[i].stamp > analyticsStats[latest.value].stamp { latest := Some(i); }
        }
      }
      assert analyticsStats[..|analyticsStats|] == analyticsStats;
    }

    /** `get_stats_for_event`: the latest day record, or, when there is none, the
        counters recomputed from the raw logs and kept as a record. */
    method GetStatsForEvent(eventId: string, commitOk: bool, stamp: int) returns (r: Option<Counters>)
      modifies this`analyticsStats
      ensures Db() == Fetched(old(Db()), eventId, commitOk, stamp)
      ensures !NoStats(old(analyticsStats), eventId) ==>
                exists i :: IsLatest(old(analyticsStats), eventId, i) && r == Some(old(analyticsStats)[i].counters)
      ensures NoStats(old(analyticsStats), eventId) ==> r == if commitOk then Some(Raw(old(Db()), eventId)) else None
    {
      var latest := FindLatest(eventId);
      if latest.Some? {
        return Some(analyticsStats[latest.value].counters);
      }
      var counters := Raw(Db(), eventId);
      if !commitOk { return None; }
      analyticsStats := analyticsStats + [StatsRow(eventId, stamp, counters)];
      return Some(counters);
    }
  }

  /** The raw row can be inserted: scans and transfers need an event id. */
  predicate Accepted(eventId: Option<string>, entry: Entry, rawOk: bool) {
    rawOk && (eventId.None? ==> entry.AttemptEntry?)
  }

  ghost predicate LogStep(t: Tables, t': Tables, eventId: Option<string>, entry: Entry,
                          rawOk: bool, updateOk: bool, now: int, stamp: int)
  {
    if !Accepted(eventId, entry, rawOk) then t' == t
    else
      && t'.(stats := t.stats) == Insert(t, eventId, entry)
      && (if eventId.Some? && updateOk then Updated(t.stats, t'.stats, eventId.value, entry, now, stamp)
          else t'.stats == t.stats)
  }

  /** The state after `get_stats_for_event`. */
  ghost function Fetched(t: Tables, eventId: string, commitOk: bool, stamp: int): Tables {
    if NoStats(t.stats, eventId) && commitOk
    then t.(stats := t.stats + [StatsRow(eventId, stamp, Raw(t, eventId))])
    else t
  }

  // ----- runs -----------------------------------------------------------------------------

  datatype Call =
    | LogCall(eventId: Option<string>, entry: Entry, rawOk: bool, updateOk: bool, now: int, stamp: int)
    | GetCall(eventId': string, commitOk: bool, stamp': int)

  ghost predicate Step(t: Tables, t': Tables, c: Call) {
    match c
    case LogCall(eventId, entry, rawOk, updateOk, now, stamp) =>
      LogStep(t, t', eventId, entry, rawOk, updateOk, now, stamp)
    case GetCall(eventId, commitOk, stamp) => t' == Fetched(t, eventId, commitOk, stamp)
  }

  /** A sequential run of log and get calls from empty tables. */
  ghost predicate IsRun(states: seq<Tables>, calls: seq<Call>) {
    && |states| == |calls| + 1 && states[0] == Tables([], [], [], [])
    && forall i :: 0 <= i < |calls| ==> Step(states[i], states[i + 1], calls[i])
  }

  /** How much of a counter an event has lost after one more call: a swallowed
      failure adds its increment, recomputing the counters makes good for all. */
  ghost function LostNext(t: Tables, c: Call, eventId: string, m: Metric, before: int): int {
    match c
    case LogCall(id, entry, rawOk, updateOk, _, _) =>
      if id == Some(eventId) && Accepted(id, entry, rawOk) && !updateOk then before + Get(Increment(entry), m) else before
    case GetCall(id, commitOk, _) =>
      if id == eventId && commitOk && NoStats(t.stats, eventId) then 0 else before
  }

  ghost function Lost(states: seq<Tables>, calls: seq<Call>, k: nat, eventId: string, m: Metric): int
    requires k <= |calls| && |states| > k
  {
    if k == 0 then 0
    else LostNext(states[k - 1], calls[k - 1], eventId, m, Lost(states, calls, k - 1, eventId, m))
  }

  lemma GetPlus(a: Counters, b: Counters, m: Metric)
    ensures Get(a.Plus(b), m) == Get(a, m) + Get(b, m)
  {
  }

  lemma {:induction false} SummedNone(stats: seq<StatsRow>, eventId: string, m: Metric)
    requires NoStats(stats, eventId)
    ensures Summed(stats, eventId, m) == 0
  {
    if stats != [] { SummedNone(stats[..|stats| - 1], eventId, m); }
  }

  lemma SummedAppend(stats: seq<StatsRow>, row: StatsRow, eventId: string, m: Metric)
    ensures Summed(stats + [row], eventId, m)
         == Summed(stats, eventId, m) + if row.eventId == eventId then Get(row.counters, m) else 0
  {
    assert (stats + [row])[..|stats|] == stats;
  }

  lemma {:induction false} SummedIncrement(stats: seq<StatsRow>, i: nat, more: Counters, eventId: string, m: Metric)
    requires i < |stats|
    ensures Summed(stats[i := stats[i].(counters := stats[i].counters.Plus(more))], eventId, m)
         == Summed(stats, eventId, m) + if stats[i].eventId == eventId then Get(more, m) else 0
  {
    var n := |stats| - 1;
    var stats' := stats[i := stats[i].(counters := stats[i].counters.Plus(more))];
    if i < n {
      SummedIncrement(stats[..n], i, more, eventId, m);
      assert stats'[..n] == stats[..n][i := stats'[i]];
    } else {
      GetPlus(stats[i].counters, more, m);
      assert stats'[..n] == stats[..n];
    }
  }

  lemma UpdatedSum(stats: seq<StatsRow>, stats': seq<StatsRow>, id: string, entry: Entry, now: int, stamp: int,
                   eventId: string, m: Metric)
    requires Updated(stats, stats', id, entry, now, stamp)
    ensures Summed(stats', eventId, m)
         == Summed(stats, eventId, m) + if id == eventId then Get(Increment(entry), m) else 0
  {
    if stats' == stats + [StatsRow(id, stamp, Increment(entry))] {
      SummedAppend(stats, StatsRow(id, stamp, Increment(entry)), eventId, m);
    } else {
      var i :| IsLatest(stats, id, i) && stats' == stats[i := stats[i].(counters := stats[i].counters.Plus(Increment(entry)))];
      SummedIncrement(stats, i, Increment(entry), eventId, m);
    }
  }

  lemma RawInsert(t: Tables, id: Option<string>, entry: Entry, eventId: string, m: Metric)
    requires id.None? ==> entry.AttemptEntry?
    ensures Get(Raw(Insert(t, id, entry), eventId), m)
         == Get(Raw(t, eventId), m) + if id == Some(eventId) then Get(Increment(entry), m) else 0
  {
    match entry
    case ScanEntry(valid) =>
      CountSnoc(t.scans, ScanRow(id.value, valid), ScanFor(eventId));
      CountSnoc(t.scans, ScanRow(id.value, valid), ValidScanFor(eventId));
    case TransferEntry(ok) =>
      CountSnoc(t.transfers, TransferRow(id.value, ok), TransferFor(eventId));
      CountSnoc(t.transfers, TransferRow(id.value, ok), SuccessFor(eventId));
    case AttemptEntry =>
      CountSnoc(t.attempts, AttemptRow(id), AttemptFor(eventId));
  }

  lemma StepKeepsBooks(t: Tables, t': Tables, c: Call, eventId: string, m: Metric, lost: int)
    requires Step(t, t', c) && Summed(t.stats, eventId, m) + lost == Get(Raw(t, eventId), m)
    ensures Summed(t'.stats, eventId, m) + LostNext(t, c, eventId, m, lost) == Get(Raw(t', eventId), m)
  {
    match c
    case LogCall(id, entry, rawOk, updateOk, now, stamp) =>
      if Accepted(id, entry, rawOk) {
        RawInsert(t, id, entry, eventId, m);
        assert Raw(t', eventId) == Raw(Insert(t, id, entry), eventId);
        if id.Some? && updateOk { UpdatedSum(t.stats, t'.stats, id.value, entry, now, stamp, eventId, m); }
      }
    case GetCall(id, commitOk, stamp) =>
      assert Raw(t', eventId) == Raw(t, eventId);
      if NoStats(t.stats, id) && commitOk {
        SummedAppend(t.stats, StatsRow(id, stamp, Raw(t, id)), eventId, m);
        if id == eventId { SummedNone(t.stats, id, m); }
      }
  }

  /** The books balance after every call: the day records of an event plus the
      updates it lost make up its raw rows, counter by counter. */
  lemma {:induction false} CountersPlusLostAreRaw(states: seq<Tables>, calls: seq<Call>, k: nat, eventId: string, m: Metric)
    requires IsRun(states, calls) && k <= |calls|
    ensures Summed(states[k].stats, eventId, m) + Lost(states, calls, k, eventId, m) == Get(Raw(states[k], eventId), m)
  {
    if k > 0 {
      CountersPlusLostAreRaw(states, calls, k - 1, eventId, m);
      StepKeepsBooks(states[k - 1], states[k], calls[k - 1], eventId, m, Lost(states, calls, k - 1, eventId, m));
    }
  }

  /** The call does not lose an update of the event. */
  predicate UpdateOk(c: Call, eventId: string) {
    c.LogCall? && c.eventId == Some(eventId) ==> c.updateOk
  }

  lemma {:induction false} LostIsBounded(states: seq<Tables>, calls: seq<Call>, k: nat, eventId: string, m: Metric)
    requires k <= |calls| < |states|
    ensures Lost(states, calls, k, eventId, m) >= 0
    ensures (forall i :: 0 <= i < k ==> UpdateOk(calls[i], eventId)) ==> Lost(states, calls, k, eventId, m) == 0
  {
    if k > 0 {
      LostIsBounded(states, calls, k - 1, eventId, m);
      if calls[k - 1].LogCall? { assert Get(Increment(calls[k - 1].entry), m) >= 0; }
    }
  }

  /** The day records never count more than the raw logs hold, and exactly as much
      when no counter update of the event failed - also after a recomputation. */
  lemma CountersAgreeWithRawLogs(states: seq<Tables>, calls: seq<Call>, k: nat, eventId: string, m: Metric)
    requires IsRun(states, calls) && k <= |calls|
    ensures Summed(states[k].stats, eventId, m) <= Get(Raw(states[k], eventId), m)
    ensures (forall i :: 0 <= i < k ==> UpdateOk(calls[i], eventId)) ==>
              Summed(states[k].stats, eventId, m) == Get(Raw(states[k], eventId), m)
  {
    CountersPlusLostAreRaw(states, calls, k, eventId, m);
    LostIsBounded(states, calls, k, eventId, m);
  }

  lemma RawIsBalanced(t: Tables, eventId: string)
    ensures Raw(t, eventId).Balanced()
  {
    CountWeaker(t.scans, ValidScanFor(eventId), ScanFor(eventId));
    CountWeaker(t.transfers, SuccessFor(eventId), TransferFor(eventId));
  }

  ghost predicate AllBalanced(stats: seq<StatsRow>) {
    forall i :: 0 <= i < |stats| ==> stats[i].counters.Balanced()
  }

  lemma StepKeepsBalance(t: Tables, t': Tables, c: Call)
    requires Step(t, t', c) && AllBalanced(t.stats)
    ensures AllBalanced(t'.stats)
  {
    if c.GetCall? { RawIsBalanced(t, c.eventId'); }
  }

  /** Every day record in every reachable state splits its scans into valid and
      invalid and its transfers into successful and failed. */
  lemma {:induction false} RecordsAreBalanced(states: seq<Tables>, calls: seq<Call>, k: nat)
    requires IsRun(states, calls) && k <= |calls|
    ensures AllBalanced(states[k].stats)
  {
    if k > 0 {
      RecordsAreBalanced(states, calls, k - 1);
      StepKeepsBalance(states[k - 1], states[k], calls[k - 1]);
    }
  }

  /** What an interleaved call of `get_stats_for_event` does to the books: between
      the raw commit of an entry and its counter update it does harm exactly when
      the event has no record yet and the read stores one. The entry is then
      counted twice; otherwise the difference to the raw logs stays what it was. */
  lemma ReadInBetween(t: Tables, eventId: string, entry: Entry, stats: seq<StatsRow>, commitOk: bool, readStamp: int,
                      now: int, stamp: int, m: Metric)
    requires Updated(Fetched(Insert(t, Some(eventId), entry), eventId, commitOk, readStamp).stats, stats, eventId, entry,
                     now, stamp)
    ensures var raw := Get(Raw(Insert(t, Some(eventId), entry), eventId), m);
            && Summed(stats, eventId, m) - raw
               == (if NoStats(t.stats, eventId) && commitOk then Get(Increment(entry), m)
                   else Summed(t.stats, eventId, m) - Get(Raw(t, eventId), m))
            && (Summed(t.stats, eventId, m) == Get(Raw(t, eventId), m) && Get(Increment(entry), m) != 0 ==>
                 (Summed(stats, eventId, m) == raw <==> !(NoStats(t.stats, eventId) && commitOk)))
  {
    if NoStats(t.stats, eventId) && commitOk {
      ReadInBetweenCountsTwice(t, eventId, entry, stats, readStamp, now, stamp, m);
    } else {
      UpdatedSum(t.stats, stats, eventId, entry, now, stamp, eventId, m);
      RawInsert(t, Some(eventId), entry, eventId, m);
    }
  }

  /** The agreement needs sequential calls: a read that recomputes between the raw
      commit and the counter update counts that entry twice. */
  lemma ReadInBetweenCountsTwice(t: Tables, eventId: string, entry: Entry, stats: seq<StatsRow>, readStamp: int,
                                 now: int, stamp: int, m: Metric)
    requires NoStats(t.stats, eventId)
    requires Updated(Fetched(Insert(t, Some(eventId), entry), eventId, true, readStamp).stats, stats, eventId, entry, now, stamp)
    ensures Summed(stats, eventId, m) == Get(Raw(Insert(t, Some(eventId), entry), eventId), m) + Get(Increment(entry), m)
  {
    var inserted := Insert(t, Some(eventId), entry);
    SummedNone(t.stats, eventId, m);
    SummedAppend(t.stats, StatsRow(eventId, readStamp, Raw(inserted, eventId)), eventId, m);
    UpdatedSum(Fetched(inserted, eventId, true, readStamp).stats, stats, eventId, entry, now, stamp, eventId, m);
  }
}

/** Ticket events as the fraud rules see them, and the grouping both rule files use. */
module FraudEvents {
  import opened Wrappers
  import opened Sorting
  import opened Counting

  datatype Kind = Purchase | Transfer | Scan | OtherKind

  /** `time` is in microseconds. */
  datatype Event = Event(
    kind: Kind,
    ip: string,
    user: string,
    ticketId: string,
    time: int,
    location: Option<string>,
    qty: real,
    capacity: real)

  const BY_TIME: Event -> real := (e: Event) => e.time as real

  function ScanOf(ticketId: string): Event -> bool {
    (e: Event) => e.kind == Scan && e.ticketId == ticketId
  }

  /** The scans of one ticket in time order, ties in input order. */
  function ScansInOrder(events: seq<Event>, ticketId: string): seq<Event> {
    StableSort(Select(events, ScanOf(ticketId)), BY_TIME)
  }

  /** `scans_by_ticket`: the scans of each ticket in input order. */
  method GroupScans(events: seq<Event>) returns (groups: map<string, seq<Event>>)
    ensures forall t :: t in groups <==> Select(events, ScanOf(t)) != []
    ensures forall t :: t in groups ==> groups[t] == Select(events, ScanOf(t))
  {
    groups := map[];
    for i := 0 to |events|
      invariant forall t :: t in groups <==> Select(events[..i], ScanOf(t)) != []
      invariant forall t :: t in groups ==> groups[t] == Select(events[..i], ScanOf(t))
    {
      var event := events[i];
      assert events[..i + 1] == events[..i] + [event];
      forall t ensures Select(events[..i + 1], ScanOf(t))
                    == Select(events[..i], ScanOf(t)) + if ScanOf(t)(event) then [event] else []
      {
        SelectSnoc(events[..i], event, ScanOf(t));
      }
      if event.kind == Scan {
        var tid := event.ticketId;
        groups := groups[tid := (if tid in groups then groups[tid] else []) + [event]];
      }
    }
    assert events[..|events|] == events;
  }

  lemma ScansInOrderSpec(events: seq<Event>, ticketId: string)
    ensures Ascending(ScansInOrder(events, ticketId), BY_TIME)
    ensures forall e :: e in ScansInOrder(events, ticketId) <==> e in events && ScanOf(ticketId)(e)
  {
    var scans := Select(events, ScanOf(ticketId));
    StableSortSpec(scans, BY_TIME);
    SameElements(ScansInOrder(events, ticketId), scans);
    SelectIs(events, ScanOf(ticketId));
  }
}

/** Paginated extraction with retries (src/etl/extract.py). */
module Extract {
  import opened Wrappers

  // ----- one request with retries ------------------------------------------------

  const MAX_RETRIES := 3

  datatype Outcome = Response(status: int) | RequestError

  datatype Verdict =
    | Returned(status: int)
    | StatusRaised(status: int)   // raise_for_status
    | ErrorRaised                 // the request error itself
    | UnreachableRaised           // the RuntimeError behind the loop

  predicate Retryable(o: Outcome) { o.RequestError? || 500 <= o.status < 600 }

  /** What a last attempt with this outcome makes of the call. */
  function Conclude(o: Outcome): Verdict {
    match o
    case RequestError => ErrorRaised
    case Response(status) => if 200 <= status < 300 then Returned(status) else StatusRaised(status)
  }

  function Pow2(n: nat): nat { if n == 0 then 1 else 2 * Pow2(n - 1) }

  /** `_request_with_retry`: `outcomes(a)` is what attempt `a` (from 1) meets.
      It stops at the first outcome not worth retrying or at the last attempt,
      and after k attempts has slept exactly 2^(k-1) - 1 seconds. */
  method RequestWithRetry(outcomes: nat -> Outcome) returns (verdict: Verdict, attempts: nat, slept: nat)
    ensures 1 <= attempts <= MAX_RETRIES
    ensures forall a :: 1 <= a < attempts ==> Retryable(outcomes(a))
    ensures attempts < MAX_RETRIES ==> !Retryable(outcomes(attempts))
    ensures verdict == Conclude(outcomes(attempts)) && !verdict.UnreachableRaised?
    ensures slept == Pow2(attempts - 1) - 1 && slept <= Pow2(MAX_RETRIES - 1) - 1
    ensures attempts <= 3 && slept == (if attempts == 1 then 0 else if attempts == 2 then 1 else 3)
    ensures forall a :: 1 <= a < attempts ==> outcomes(a).RequestError? || 500 <= outcomes(a).status < 600
    ensures attempts < 3 ==> outcomes(attempts).Response? && !(500 <= outcomes(attempts).status < 600)
    ensures verdict ==
            if outcomes(attempts).RequestError? then ErrorRaised
            else if 200 <= outcomes(attempts).status < 300 then Returned(outcomes(attempts).status)
            else StatusRaised(outcomes(attempts).status)
  {
    slept := 0;
    for attempt := 1 to MAX_RETRIES + 1
      invariant forall a :: 1 <= a < attempt ==> Retryable(outcomes(a))
      invariant slept == Pow2(attempt - 1) - 1
      invariant attempt <= MAX_RETRIES
    {
      attempts := attempt;
      match outcomes(attempt) {
        case Response(status) =>
          if 500 <= status < 600 && attempt < MAX_RETRIES {
            slept := slept + Pow2(attempt - 1);
            continue;
          }
          Pow2Monotone(attempt - 1, MAX_RETRIES - 1);
          return Conclude(Response(status)), attempt, slept;
        case RequestError =>
          if attempt >= MAX_RETRIES {
            return ErrorRaised, attempt, slept;
          }
          slept := slept + Pow2(attempt - 1);
      }
    }
    verdict := UnreachableRaised;
  }

  lemma Pow2Monotone(a: nat, b: nat)
    requires a <= b
    ensures Pow2(a) <= Pow2(b)
  {
    if a < b { Pow2Monotone(a, b - 1); }
  }

  // ----- which page comes next -------------------------------------------------------

  /** A JSON field that is present and not null: its truth value and what
      `int(v)` gives, `None` where that raises. */
  datatype Value = Value(truthy: bool, asInt: Option<int>)
  type Field = Option<Value>

  function ToInt(v: Field, default: int): int {
    if v.Some? && v.value.asInt.Some? then v.value.asInt.value else default
  }

  function Or(a: Field, b: Field): Field {
    if a.Some? && a.value.truthy then a else b
  }

  datatype Pagination = Pagination(
    next_page: Field,
    nextPage: Field,
    page: Field,
    total_pages: Field,
    totalPages: Field,
    hasMore: bool)

  /** `hasMore`: `has_more` or `hasMore` is literally true. `items` are the
      records the payload carries, normalised. */
  datatype Payload<T> =
    | Listing(items: seq<T>)
    | Document(items: seq<T>, pagination: Option<Pagination>, next_page: Field, nextPage: Field, hasMore: bool)

  function NextPage<T>(payload: Payload<T>, current: int): Option<int> {
    if payload.Listing? then None
    else
      var inner := if payload.pagination.Some? then NextByPagination(payload.pagination.value, current) else None;
      if inner.Some? then inner
      else if payload.next_page.Some? then Some(ToInt(payload.next_page, current + 1))
      else if payload.nextPage.Some? then Some(ToInt(payload.nextPage, current + 1))
      else if payload.hasMore then Some(current + 1)
      else None
  }

  function NextByPagination(p: Pagination, current: int): Option<int> {
    if p.next_page.Some? then Some(ToInt(p.next_page, current + 1))
    else if p.nextPage.Some? then Some(ToInt(p.nextPage, current + 1))
    else
      var page := ToInt(p.page, current);
      var total := ToInt(Or(p.total_pages, p.totalPages), 0);
      if total != 0 && page < total then Some(page + 1)
      else if p.hasMore then Some(current + 1)
      else None
  }

  // ----- the page loop -----------------------------------------------------------------

  /** What the upstream answers for each page; `None` when the request raised. */
  type Upstream<T> = int -> Option<Payload<T>>

  /** The page the loop turns to after page `p`, if it goes on. */
  function Following<T>(up: Upstream<T>, p: int): Option<int> {
    match up(p)
    case None => None
    case Some(payload) =>
      var next := NextPage(payload, p);
      if next == Some(0) then None else next
  }

  /** The page requested in round `k`, counting from 0. */
  function Requested<T>(up: Upstream<T>, k: nat): Option<int> {
    if k == 0 then Some(1)
    else
      match Requested(up, k - 1)
      case None => None
      case Some(p) => Following(up, p)
  }

  ghost predicate Ends<T>(up: Upstream<T>) {
    exists k :: Requested(up, k).None?
  }

  function Collected<T>(up: Upstream<T>, pages: seq<int>): seq<T> {
    if pages == [] then []
    else
      var last := up(pages[|pages| - 1]);
      Collected(up, pages[..|pages| - 1]) + if last.Some? then last.value.items else []
  }

  /** The page loop, for an upstream whose chain of pages ends. The items of all
      requested pages are returned in order unless a request raised. */
  method ExtractEvents<T>(up: Upstream<T>) returns (r: Option<seq<T>>, pages: seq<int>)
    requires Ends(up)
    ensures pages != [] && Requested(up, |pages|).None?
    ensures forall i :: 0 <= i < |pages| ==> Requested(up, i) == Some(pages[i])
    ensures r == if up(pages[|pages| - 1]).Some? then Some(Collected(up, pages)) else None
  {
    ghost var rounds: nat :| Requested(up, rounds).None?;
    var page := 1;
    var events: seq<T> := [];
    pages := [];
    while true
      invariant |pages| < rounds
      invariant Requested(up, |pages|) == Some(page)
      invariant forall i :: 0 <= i < |pages| ==> Requested(up, i) == Some(pages[i])
      invariant events == Collected(up, pages)
      decreases rounds - |pages|
    {
      var response := up(page);
      assert (pages + [page])[..|pages|] == pages;
      OneMorePage(up, pages, page);
      pages := pages + [page];
      if response.None? {
        return None, pages;
      }
      events := events + response.value.items;
      var next := NextPage(response.value, page);
      if next.None? || next.value == 0 {
        return Some(events), pages;
      }
      page := next.value;
      if |pages| >= rounds { StaysEnded(up, rounds, |pages|); }
    }
  }

  lemma OneMorePage<T>(up: Upstream<T>, pages: seq<int>, page: int)
    requires forall i :: 0 <= i < |pages| ==> Requested(up, i) == Some(pages[i])
    requires Requested(up, |pages|) == Some(page)
    ensures forall i :: 0 <= i < |pages + [page]| ==> Requested(up, i) == Some((pages + [page])[i])
  {
  }

  lemma StaysEnded<T>(up: Upstream<T>, k: nat, later: nat)
    requires Requested(up, k).None? && k <= later
    ensures Requested(up, later).None?
  {
    if k < later { StaysEnded(up, k, later - 1); }
  }

  // ----- completeness ---------------------------------------------------------------------

  /** The answer names `n` pages in all and, but for the page it says it is, uses
      no other paging field. */
  predicate OnlyTotal<T>(payload: Payload<T>, n: int) {
    && payload.Document? && payload.pagination.Some?
    && payload.next_page.None? && payload.nextPage.None? && !payload.hasMore
    && var paging := payload.pagination.value;
       paging.next_page.None? && paging.nextPage.None? && !paging.hasMore
       && ToInt(Or(paging.total_pages, paging.totalPages), 0) == n
  }

  /** The page the answer to a request for page `p` says it is. */
  function Echo<T>(payload: Payload<T>, p: int): int {
    if payload.Document? && payload.pagination.Some? then ToInt(payload.pagination.value.page, p) else p
  }

  predicate Reports<T>(payload: Payload<T>, p: int, n: int) {
    OnlyTotal(payload, n) && Echo(payload, p) == p
  }

  ghost predicate FixedPages<T>(up: Upstream<T>, n: int) {
    n >= 1 && forall p :: 1 <= p <= n ==> up(p).Some? && Reports(up(p).value, p, n)
  }

  /** Against such an upstream the loop ends and requests pages 1 to n, each once
      and in order. */
  lemma {:induction false} FixedPagesAreAllRequested<T>(up: Upstream<T>, n: int, k: nat)
    requires FixedPages(up, n)
    ensures Requested(up, k) == if k < n then Some(k + 1) else None
    ensures Ends(up)
  {
    if k > 0 { FixedPagesAreAllRequested(up, n, k - 1); }
    if k == n {
    } else if k < n {
      FixedEnds(up, n, k);
    }
  }

  lemma {:induction false} FixedEnds<T>(up: Upstream<T>, n: int, k: nat)
    requires FixedPages(up, n) && k < n && Requested(up, k) == Some(k + 1)
    ensures Requested(up, n).None?
    decreases n - k
  {
    assert Requested(up, k + 1) == Following(up, k + 1);
    if k + 1 < n { FixedEnds(up, n, k + 1); }
  }

  /** Extraction from such an upstream succeeds and returns every page's items. */
  method ExtractAllPages<T>(up: Upstream<T>, n: int) returns (r: Option<seq<T>>)
    requires FixedPages(up, n)
    ensures r == Some(Collected(up, seq(n, i => i + 1)))
  {
    FixedPagesAreAllRequested(up, n, 0);
    var pages;
    r, pages := ExtractEvents(up);
    FixedPagesAreAllRequested(up, n, |pages|);
    FixedPagesAreAllRequested(up, n, |pages| - 1);
    assert pages == seq(n, i => i + 1) by {
      forall i | 0 <= i < |pages| ensures pages[i] == i + 1 { FixedPagesAreAllRequested(up, n, i); }
    }
  }
}

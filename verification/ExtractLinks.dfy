/** Every way an answer can send the page loop on, in the order in which they are
    tried, and completeness of the extraction for each. */
module ExtractLinks {
  import opened Wrappers
  import opened Extract

  /** A field that cannot be read as a number stands for the page after this one. */
  function ReadOr(v: Value, default: int): int { match v.asInt case Some(n) => n case None => default }

  /** A next page of 0 ends the loop. */
  function Turn(page: int): Option<int> { if page == 0 then None else Some(page) }

  function TotalPages(p: Pagination): int {
    if p.total_pages.Some? && p.total_pages.value.truthy then ReadOr(p.total_pages.value, 0)
    else if p.totalPages.Some? then ReadOr(p.totalPages.value, 0)
    else 0
  }

  function PageOf(p: Pagination, current: int): int {
    if p.page.Some? then ReadOr(p.page.value, current) else current
  }

  /** The answer names no next page under `pagination`, and the total reported there
      is reached, missing or zero. */
  predicate NoPaginationLink(payload: Payload, current: int) {
    payload.Document? && (payload.pagination.Some? ==>
      var p := payload.pagination.value;
      p.next_page.None? && p.nextPage.None? && (TotalPages(p) == 0 || PageOf(p, current) >= TotalPages(p)))
  }

  /** Nor does it say there that there is more. */
  predicate PaginationIsDone(payload: Payload, current: int) {
    NoPaginationLink(payload, current) && (payload.pagination.Some? ==> !payload.pagination.value.hasMore)
  }

  /** Which field wins: `pagination.next_page`, `pagination.nextPage`, the total under
      `pagination`, its `has_more`, then the same at the top level without a total. */
  lemma WhichFieldWins<T>(up: Upstream<T>, k: nat, current: int, payload: Payload<T>)
    requires Requested(up, k) == Some(current) && up(current) == Some(payload)
    ensures payload.Listing? ==> Requested(up, k + 1) == None
    ensures payload.Document? && payload.pagination.Some? ==>
              var p := payload.pagination.value;
              && (p.next_page.Some? ==> Requested(up, k + 1) == Turn(ReadOr(p.next_page.value, current + 1)))
              && (p.next_page.None? && p.nextPage.Some? ==>
                    Requested(up, k + 1) == Turn(ReadOr(p.nextPage.value, current + 1)))
              && (p.next_page.None? && p.nextPage.None? && TotalPages(p) != 0 && PageOf(p, current) < TotalPages(p) ==>
                    Requested(up, k + 1) == Turn(PageOf(p, current) + 1))
              && (NoPaginationLink(payload, current) && p.hasMore ==> Requested(up, k + 1) == Turn(current + 1))
    ensures PaginationIsDone(payload, current) && payload.next_page.Some? ==>
              Requested(up, k + 1) == Turn(ReadOr(payload.next_page.value, current + 1))
    ensures PaginationIsDone(payload, current) && payload.next_page.None? && payload.nextPage.Some? ==>
              Requested(up, k + 1) == Turn(ReadOr(payload.nextPage.value, current + 1))
    ensures PaginationIsDone(payload, current) && payload.next_page.None? && payload.nextPage.None? ==>
              Requested(up, k + 1) == if payload.hasMore then Turn(current + 1) else None
  {
    assert Requested(up, k + 1) == Following(up, current);
    if payload.Document? && payload.pagination.Some? {
      PaginationReads(payload.pagination.value, current);
    }
  }

  lemma PaginationReads(p: Pagination, current: int)
    ensures ToInt(p.page, current) == PageOf(p, current)
    ensures ToInt(Or(p.total_pages, p.totalPages), 0) == TotalPages(p)
  {
  }

  // ----- "there is more" --------------------------------------------------------------

  /** The answer carries no page number to go to, and says at the top or under
      `pagination` whether there is more. */
  predicate SaysMore(payload: Payload, current: int, more: bool) {
    && NoPaginationLink(payload, current) && payload.next_page.None? && payload.nextPage.None?
    && more == (payload.hasMore || (payload.pagination.Some? && payload.pagination.value.hasMore))
  }

  ghost predicate MorePages<T>(up: Upstream<T>, n: int) {
    n >= 1 && forall p :: 1 <= p <= n ==> up(p).Some? && SaysMore(up(p).value, p, p < n)
  }

  /** If pages 1 to n - 1 say there is more and page n does not, exactly pages 1 to n
      are requested, in order. */
  lemma {:induction false} MorePagesAreAllRequested<T>(up: Upstream<T>, n: int, k: nat)
    requires MorePages(up, n)
    ensures k < n ==> Requested(up, k) == Some(k + 1)
    ensures k >= n ==> Requested(up, k).None?
  {
    if k > 0 {
      MorePagesAreAllRequested(up, n, k - 1);
      if k <= n { WhichFieldWins(up, k - 1, k, up(k).value); }
    }
  }

  // ----- links ----------------------------------------------------------------------------

  predicate Reads(f: Field, page: int) { f.Some? && f.value.asInt == Some(page) }

  /** The answer names its successor, in any of the four places. */
  predicate LinksTo(payload: Payload, current: int, next: int) {
    && payload.Document? && next != 0
    && (|| (payload.pagination.Some? && Reads(payload.pagination.value.next_page, next))
        || (payload.pagination.Some? && payload.pagination.value.next_page.None?
            && Reads(payload.pagination.value.nextPage, next))
        || (PaginationIsDone(payload, current) && Reads(payload.next_page, next))
        || (PaginationIsDone(payload, current) && payload.next_page.None? && Reads(payload.nextPage, next)))
  }

  predicate LinksNowhere(payload: Payload, current: int) {
    payload.Listing? || SaysMore(payload, current, false)
  }

  ghost predicate LinkedPages<T>(up: Upstream<T>, links: seq<int>) {
    && links != [] && links[0] == 1
    && (forall i :: 0 <= i < |links| ==> up(links[i]).Some?)
    && (forall i :: 0 <= i < |links| - 1 ==> LinksTo(up(links[i]).value, links[i], links[i + 1]))
    && LinksNowhere(up(links[|links| - 1]).value, links[|links| - 1])
  }

  /** If each page names its successor and the last names none, exactly the linked
      pages are requested, in order. */
  lemma {:induction false} LinkedPagesAreAllRequested<T>(up: Upstream<T>, links: seq<int>, k: nat)
    requires LinkedPages(up, links)
    ensures k < |links| ==> Requested(up, k) == Some(links[k])
    ensures k >= |links| ==> Requested(up, k).None?
  {
    if k > 0 {
      var j := k - 1;
      LinkedPagesAreAllRequested(up, links, j);
      if k <= |links| { WhichFieldWins(up, j, links[j], up(links[j]).value); }
    }
  }

  // ----- what comes out --------------------------------------------------------------------

  function ItemsOf<T>(answer: Option<Payload<T>>): seq<T> {
    match answer case Some(payload) => payload.items case None => []
  }

  /** The collected items are those of each page, one after the other. */
  lemma {:induction false} CollectedIsConcatenated<T>(up: Upstream<T>, pages: seq<int>, p: int, more: seq<int>)
    ensures Collected(up, []) == [] && Collected(up, [p]) == ItemsOf(up(p))
    ensures Collected(up, pages + more) == Collected(up, pages) + Collected(up, more)
  {
    assert [p][..0] == [];
    if more == [] {
      assert pages + more == pages;
    } else {
      var n := |more| - 1;
      CollectedIsConcatenated(up, pages, p, more[..n]);
      assert (pages + more)[..|pages + more| - 1] == pages + more[..n];
    }
  }

  /** The loop against an upstream whose pages are known. */
  method ExtractChain<T>(up: Upstream<T>, links: seq<int>) returns (r: Option<seq<T>>)
    requires links != [] && forall i :: 0 <= i < |links| ==> up(links[i]).Some?
    requires forall k: nat :: Requested(up, k) == if k < |links| then Some(links[k]) else None
    ensures r == Some(Collected(up, links))
  {
    assert Requested(up, |links|).None?;
    var pages;
    r, pages := ExtractEvents(up);
    assert |pages| <= |links|;
    assert Requested(up, |pages|).None?;
    assert pages == links by {
      forall i | 0 <= i < |pages| ensures pages[i] == links[i] { assert Requested(up, i) == Some(pages[i]); }
    }
  }

  method ExtractMorePages<T>(up: Upstream<T>, n: int) returns (r: Option<seq<T>>)
    requires MorePages(up, n)
    ensures r == Some(Collected(up, seq(n, i => i + 1)))
  {
    ghost var pages := seq(n, i => i + 1);
    forall k: nat ensures Requested(up, k) == if k < |pages| then Some(pages[k]) else None {
      MorePagesAreAllRequested(up, n, k);
    }
    r := ExtractChain(up, seq(n, i => i + 1));
  }

  method ExtractLinkedPages<T>(up: Upstream<T>, links: seq<int>) returns (r: Option<seq<T>>)
    requires LinkedPages(up, links)
    ensures r == Some(Collected(up, links))
  {
    forall k: nat ensures Requested(up, k) == if k < |links| then Some(links[k]) else None {
      LinkedPagesAreAllRequested(up, links, k);
    }
    r := ExtractChain(up, links);
  }
}

/**
 * Pagination shared by the search results and the ranking: the page count,
 * the slice a page shows, the clamped previous/next moves and the state of the
 * two buttons. SearchResultsView is the search's paginated view.
 */
module Paging {

  function Min(a: int, b: int): int {
    if a <= b then a else b
  }

  function Max(a: int, b: int): int {
    if a >= b then a else b
  }

  /** math.ceil(count / page_size) on non-negative counts. */
  function CeilDiv(count: nat, pageSize: nat): nat
    requires pageSize > 0
  {
    (count + pageSize - 1) / pageSize
  }

  /** _total_pages: max(1, ceil(count / page_size)): the fewest pages that hold
      every item, and always at least one, even for no items. */
  function TotalPages(count: nat, pageSize: nat): (pages: nat)
    requires pageSize > 0
    ensures pages >= 1
    ensures count == 0 ==> pages == 1
    ensures count <= pages * pageSize
    ensures count == 0 || (pages - 1) * pageSize < count
  {
    var c := CeilDiv(count, pageSize);
    assert count + pageSize - 1 == c * pageSize + (count + pageSize - 1) % pageSize;
    Max(1, c)
  }

  /** The page the previous button moves to: one back, but never below 0. */
  function PrevPage(page: nat): nat {
    Max(0, page - 1)
  }

  /** The page the next button moves to: one on, but never past the last page. */
  function NextPage(page: nat, pages: nat): nat
    requires pages >= 1
  {
    Min(pages - 1, page + 1)
  }

  /** Both moves keep the page in range, stop at the ends, and undo each other
      away from the ends. */
  lemma NavigationClamps(page: nat, pages: nat)
    requires page < pages
    ensures PrevPage(page) < pages && NextPage(page, pages) < pages
    ensures page == 0 ==> PrevPage(page) == 0
    ensures page == pages - 1 ==> NextPage(page, pages) == page
    ensures page > 0 ==> NextPage(PrevPage(page), pages) == page
    ensures page < pages - 1 ==> PrevPage(NextPage(page, pages)) == page
  {
  }

  /** _page_slice: the items of a page with its start offset and the end offset
      start + page_size, which is not clamped; the slice itself stops at the
      end of the items as a Python slice does. */
  function PageSlice<T>(items: seq<T>, page: nat, pageSize: nat): (r: (seq<T>, nat, nat))
    requires pageSize > 0
    ensures r.1 == page * pageSize && r.2 == r.1 + pageSize
    ensures forall i :: 0 <= i < |r.0| ==> r.1 + i < |items| && r.0[i] == items[r.1 + i]
    ensures r.1 < |items| ==> |r.0| == Min(pageSize, |items| - r.1)
    ensures r.1 >= |items| ==> r.0 == []
  {
    var start := page * pageSize;
    var end := start + pageSize;
    (items[Min(start, |items|)..Min(end, |items|)], start, end)
  }

  lemma MulMono(a: int, b: int, k: nat)
    requires a <= b
    ensures a * k <= b * k
  {
    assert b * k - a * k == (b - a) * k;
  }

  /** A page in range starts inside the items (or at 0 when there are none) and
      shows at least one item when there are any. */
  lemma ValidPageSlice<T>(items: seq<T>, page: nat, pageSize: nat)
    requires pageSize > 0 && page < TotalPages(|items|, pageSize)
    ensures var (slice, start, _) := PageSlice(items, page, pageSize);
            start <= |items| && (|items| > 0 ==> 0 < |slice| <= pageSize)
  {
    var pages := TotalPages(|items|, pageSize);
    MulMono(page, pages - 1, pageSize);
  }

  /** Every item lies on exactly one page in range: item i is entry
      i - (i / k) * k of page i / k. */
  lemma {:induction false} ItemOnItsPage<T>(items: seq<T>, pageSize: nat, i: nat)
    requires pageSize > 0 && i < |items|
    ensures var page := i / pageSize;
            var (slice, start, _) := PageSlice(items, page, pageSize);
            page < TotalPages(|items|, pageSize) && start <= i < start + |slice| && slice[i - start] == items[i]
  {
    var page := i / pageSize;
    PageOfItemInRange(|items|, pageSize, i);
    var start := page * pageSize;
    assert start <= i < start + pageSize by {
      assert i == start + i % pageSize;
    }
    var (slice, s, _) := PageSlice(items, page, pageSize);
    assert s == start && |slice| == Min(pageSize, |items| - start);
  }

  /** The page i / k of item i is one of the pages. */
  lemma PageOfItemInRange(count: nat, pageSize: nat, i: nat)
    requires pageSize > 0 && i < count
    ensures i / pageSize < TotalPages(count, pageSize)
  {
    var page := i / pageSize;
    var pages := TotalPages(count, pageSize);
    assert page * pageSize <= i by {
      assert i == page * pageSize + i % pageSize;
    }
    if page >= pages {
      MulMono(pages, page, pageSize);
      assert false;
    }
  }

  /** The search command's paginated view of its (id, name) results. */
  class SearchResultsView {
    const userId: int
    const results: seq<(int, string)>
    const query: string
    const pageSize: nat
    var page: nat
    var prevDisabled: bool
    var nextDisabled: bool

    /** The page is in range and each button is disabled exactly at its end. */
    ghost predicate Valid()
      reads this
    {
      && pageSize > 0
      && page < TotalPages(|results|, pageSize)
      && prevDisabled == (page == 0)
      && nextDisabled == (page == TotalPages(|results|, pageSize) - 1)
    }

    constructor (userId: int, results: seq<(int, string)>, query: string, pageSize: nat)
      requires pageSize > 0
      ensures this.userId == userId && this.results == results
      ensures this.query == query && this.pageSize == pageSize
      ensures page == 0 && Valid()
    {
      this.userId := userId;
      this.results := results;
      this.query := query;
      this.pageSize := pageSize;
      page := 0;
      new;
      UpdateButtons();
    }

    /** _update_buttons: previous is disabled on the first page, next on the
        last. */
    method UpdateButtons()
      requires pageSize > 0
      modifies this
      ensures page == old(page)
      ensures prevDisabled == (page <= 0)
      ensures nextDisabled == (page >= TotalPages(|results|, pageSize) - 1)
    {
      var totalPages := TotalPages(|results|, pageSize);
      prevDisabled := page <= 0;
      nextDisabled := page >= totalPages - 1;
    }

    /** prev_button. */
    method Prev()
      requires Valid()
      modifies this
      ensures Valid()
      ensures page == PrevPage(old(page))
      ensures prevDisabled <==> page == 0
      ensures nextDisabled <==> page == TotalPages(|results|, pageSize) - 1
    {
      page := Max(0, page - 1);
      UpdateButtons();
    }

    /** next_button. */
    method Next()
      requires Valid()
      modifies this
      ensures Valid()
      ensures page == NextPage(old(page), TotalPages(|results|, pageSize))
      ensures prevDisabled <==> page == 0
      ensures nextDisabled <==> page == TotalPages(|results|, pageSize) - 1
    {
      page := Min(TotalPages(|results|, pageSize) - 1, page + 1);
      UpdateButtons();
    }

    /** The results the current page shows, with its start and end offsets. */
    function CurrentPage(): (r: (seq<(int, string)>, nat, nat))
      reads this
      requires Valid()
      ensures r.1 == page * pageSize <= |results| && r.2 == r.1 + pageSize
      ensures |r.0| == Min(pageSize, |results| - r.1)
      ensures |results| > 0 ==> 0 < |r.0| <= pageSize
      ensures forall i :: 0 <= i < |r.0| ==> r.1 + i < |results| && r.0[i] == results[r.1 + i]
    {
      var r := PageSlice(results, page, pageSize);
      ValidPageSlice(results, page, pageSize);
      assert r.1 <= |results|;
      r
    }
  }
}

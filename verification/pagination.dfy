/** The pagination of the My Gives page: the page count derived from the
    API's `count`, and the bar of at most five page links around the current
    page, with ellipses and the Prev/Next buttons. */
module Pagination {
  import opened Wrappers

  /** `pageSize` of the page's requests. */
  const PageSize: nat := 10

  /** The most page links the bar shows (`maxPageLinks`). */
  const MaxPageLinks: nat := 5

  /** `res.data.count ? Math.ceil(res.data.count / pageSize) : 1`: a missing or
      zero count gives one page; otherwise the fewest pages of `PageSize`
      that hold `count` items. */
  function TotalPages(count: Option<nat>): (n: nat)
    ensures n >= 1
    ensures count.Some? && count.value > 0 ==> (n - 1) * PageSize < count.value <= n * PageSize
    ensures count.None? || count.value == 0 ==> n == 1
  {
    if count.Some? && count.value > 0 then (count.value + PageSize - 1) / PageSize else 1
  }

  function Max(a: int, b: int): int { if a >= b then a else b }
  function Min(a: int, b: int): int { if a <= b then a else b }

  /** What `renderPagination` draws: the linked pages in order, whether an
      ellipsis stands before or after them, and whether Prev and Next are
      disabled. */
  datatype Bar = Bar(
    links: seq<int>,
    leadingEllipsis: bool,
    trailingEllipsis: bool,
    prevDisabled: bool,
    nextDisabled: bool)

  /** The window `[start, end]` of page links: two pages either side of the
      current one, slid back from the end so that five links show when there
      are five pages. */
  function Window(page: int, totalPages: int): (w: (int, int))
    requires totalPages > 1
    ensures 1 <= w.0 <= w.1 <= totalPages
    ensures w.1 - w.0 + 1 == Min(MaxPageLinks, totalPages)
    ensures 1 <= page <= totalPages ==> w.0 <= page <= w.1
    ensures 3 <= page <= totalPages - 2 ==> w == (page - 2, page + 2)
  {
    var start := Max(1, page - 2);
    var end := Min(totalPages, start + MaxPageLinks - 1);
    if end - start < MaxPageLinks - 1 then (Max(1, end - MaxPageLinks + 1), end) else (start, end)
  }

  /** `renderPagination`: nothing when there is at most one page; otherwise
      `min(5, totalPages)` consecutive links containing the current page, an
      ellipsis on a side exactly when the first or last page is not linked,
      Prev disabled exactly on the first page and Next exactly on the last. */
  function RenderPagination(page: int, totalPages: int): (r: Option<Bar>)
    ensures r.None? <==> totalPages <= 1
    ensures r.Some? ==>
              && |r.value.links| == Min(MaxPageLinks, totalPages)
              && (forall i :: 0 < i < |r.value.links| ==> r.value.links[i] == r.value.links[i - 1] + 1)
              && (forall i :: 0 <= i < |r.value.links| ==> 1 <= r.value.links[i] <= totalPages)
              && (1 <= page <= totalPages ==> page in r.value.links)
              && (r.value.leadingEllipsis <==> 1 !in r.value.links)
              && (r.value.trailingEllipsis <==> totalPages !in r.value.links)
              && (r.value.prevDisabled <==> page == 1)
              && (r.value.nextDisabled <==> page == totalPages)
  {
    if totalPages <= 1 then None
    else
      var (start, end) := Window(page, totalPages);
      var links := seq(end - start + 1, i => start + i);
      assert links[0] == start && links[|links| - 1] == end;
      assert 1 <= page <= totalPages ==> links[page - start] == page;
      Some(Bar(links, start > 1, end < totalPages, page == 1, page == totalPages))
  }
}

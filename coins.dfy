/** The listing decisions of components/Coins.tsx: which page is requested,
    whether more pages are assumed to exist, and the estimated page count the
    pagination control is given. The market-data fetch is an abstract outcome:
    the fetched list, or None when it failed. */
module Coins {
  import opened Wrappers
  import Pagination

  const PAGE_SIZE: nat := 20

  /** `page || 1`: the requested page, or 1 when it is absent or zero. */
  function CurrentPage(page: Option<int>): (cp: int)
    ensures cp != 0
    ensures page.Some? && page.value != 0 ==> cp == page.value
    ensures page.None? || page.value == 0 ==> cp == 1
  {
    if page.Some? && page.value != 0 then page.value else 1
  }

  /** `Math.ceil(a / b)` for a positive divisor: the least `q` with `q * b >= a`. */
  function CeilDiv(a: int, b: int): (q: int)
    requires b > 0
    ensures q * b >= a > (q - 1) * b
  {
    (a + b - 1) / b
  }

  /** `hasMorePages`: a full page came back. */
  function HasMorePages(fetchedCount: nat): (more: bool)
    ensures fetchedCount < PAGE_SIZE ==> !more
    ensures fetchedCount > PAGE_SIZE ==> !more
    ensures fetchedCount == PAGE_SIZE ==> more
  {
    fetchedCount == PAGE_SIZE
  }

  /** `estimatedTotalPages`: 100 up to page 100; beyond it, the current page
      rounded up to a multiple of 100, plus 100. The estimate is a multiple of
      100, never below the current page, and equal to it only on page 100. */
  function EstimatedTotalPages(currentPage: int): (t: int)
    ensures t >= 100 && t % 100 == 0
    ensures currentPage <= 100 ==> t == 100
    ensures currentPage > 100 ==> currentPage + 100 <= t < currentPage + 200
    ensures t >= currentPage
    ensures t == currentPage <==> currentPage == 100
  {
    if currentPage > 100 then CeilDiv(currentPage, 100) * 100 + 100 else 100
  }

  /** The query of the `coins/markets` request. */
  datatype MarketsQuery = MarketsQuery(vsCurrency: string, order: string, perPage: nat, page: int, sparkline: bool)

  /** The request for a listing page: one page of PAGE_SIZE coins by market
      capitalisation, in US dollars, without sparklines. */
  function ListingQuery(page: Option<int>): (q: MarketsQuery)
    ensures q.perPage == PAGE_SIZE && q.page == CurrentPage(page)
    ensures q.vsCurrency == "usd" && q.order == "market_cap_desc" && !q.sparkline
  {
    MarketsQuery("usd", "market_cap_desc", PAGE_SIZE, CurrentPage(page), false)
  }

  /** What the listing hands to the pagination control once the fetch has
      returned; None when the fetch failed (the component renders nothing). */
  function PaginationProps<C>(page: Option<int>, fetched: Option<seq<C>>): (r: Option<Pagination.Props>)
    ensures r.None? <==> fetched.None?
    ensures r.Some? ==>
      && r.value.currentPage == CurrentPage(page)
      && r.value.totalPages == EstimatedTotalPages(CurrentPage(page))
      && (r.value.hasMorePages <==> |fetched.value| == PAGE_SIZE)
  {
    match fetched
    case None => None
    case Some(coins) =>
      var cp := CurrentPage(page);
      Some(Pagination.Props(cp, EstimatedTotalPages(cp), HasMorePages(|coins|)))
  }

  /** With a full page fetched, the next control stays usable on every page
      except page 100, where the estimate equals the current page. */
  lemma NextDisabledOnlyOnPage100<C>(page: Option<int>, coins: seq<C>)
    requires |coins| == PAGE_SIZE
    ensures var p := PaginationProps(page, Some(coins)).value;
      Pagination.IsLastPage(p) <==> CurrentPage(page) == 100
  {
  }

  /** With a short page fetched, the next control is inert whatever the estimate. */
  lemma ShortPageIsLast<C>(page: Option<int>, coins: seq<C>)
    requires |coins| < PAGE_SIZE
    ensures Pagination.Render(PaginationProps(page, Some(coins)).value).next.target.None?
  {
  }

  /** Worked examples: page 1 and page 150. */
  lemma EstimateExamples()
    ensures EstimatedTotalPages(CurrentPage(None)) == 100
    ensures EstimatedTotalPages(CurrentPage(Some(1))) == 100
    ensures EstimatedTotalPages(CurrentPage(Some(150))) == 300
  {
  }
}

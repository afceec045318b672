/** The pagination control of components/Pagination.tsx: which page each
    control navigates to, how it is styled, and how the planned page list is
    rendered. Navigation itself (`router.push`) is the caller's business: a
    click is modelled as the page it would navigate to. */
module Pagination {
  import opened Wrappers
  import opened Utils

  /** The properties the control is rendered with. */
  datatype Props = Props(currentPage: int, totalPages: int, hasMorePages: bool)

  /** The previous or next control: the page a click navigates to (None: the
      click does nothing) and whether it carries the disabled style. */
  datatype Control = Control(target: Option<int>, styledDisabled: bool)

  /** One rendered entry of the page list. */
  datatype Item = EllipsisItem | PageLink(page: int, active: bool)

  datatype View = View(previous: Control, items: seq<Item>, next: Control)

  /** `isLastPage`: no further page is known to exist, or the current page is
      the last estimated one. */
  function IsLastPage(p: Props): (last: bool)
    ensures !p.hasMorePages ==> last
    ensures p.currentPage == p.totalPages ==> last
    ensures p.hasMorePages && p.currentPage != p.totalPages ==> !last
  {
    !p.hasMorePages || p.currentPage == p.totalPages
  }

  /** The previous control: navigates to the page before only when there is
      one; styled disabled on page 1. */
  function PreviousControl(p: Props): (c: Control)
    ensures c.target.Some? <==> p.currentPage > 1
    ensures c.target.Some? ==> c.target.value == p.currentPage - 1
    ensures c.styledDisabled <==> p.currentPage == 1
  {
    Control(if p.currentPage > 1 then Some(p.currentPage - 1) else None, p.currentPage == 1)
  }

  /** The next control: navigates to the page after unless this is the last
      page; styled disabled exactly then. */
  function NextControl(p: Props): (c: Control)
    ensures c.target.Some? <==> !IsLastPage(p)
    ensures c.target.Some? ==> c.target.value == p.currentPage + 1
    ensures c.styledDisabled <==> IsLastPage(p)
  {
    var last := IsLastPage(p);
    Control(if last then None else Some(p.currentPage + 1), last)
  }

  /** A planned entry as rendered: an ellipsis, or a link marked active when it
      is the current page. */
  function RenderEntry(currentPage: int, e: PageEntry): (item: Item)
    ensures item.EllipsisItem? <==> e.Ellipsis?
    ensures e.Page? ==> item.page == e.n && (item.active <==> e.n == currentPage)
  {
    match e
    case Ellipsis => EllipsisItem
    case Page(n) => PageLink(n, n == currentPage)
  }

  /** The page list, rendered in plan order. */
  function Items(p: Props): (items: seq<Item>)
    ensures |items| == |PagePlan(p.currentPage, p.totalPages)|
    ensures forall i :: 0 <= i < |items| ==> items[i] == RenderEntry(p.currentPage, PagePlan(p.currentPage, p.totalPages)[i])
  {
    var plan := PagePlan(p.currentPage, p.totalPages);
    seq(|plan|, i requires 0 <= i < |plan| => RenderEntry(p.currentPage, plan[i]))
  }

  /** Where a click on a rendered entry navigates: nowhere for an ellipsis,
      exactly the linked page otherwise. */
  function ClickTarget(item: Item): (target: Option<int>)
    ensures target.None? <==> item.EllipsisItem?
    ensures item.PageLink? ==> target == Some(item.page)
  {
    match item
    case EllipsisItem => None
    case PageLink(page, _) => Some(page)
  }

  /** The whole control: previous, the planned list, next. */
  function Render(p: Props): (v: View)
    ensures v.previous.target.Some? <==> p.currentPage > 1
    ensures v.next.target.Some? <==> !IsLastPage(p)
    ensures |v.items| == |PagePlan(p.currentPage, p.totalPages)|
    ensures forall i :: 0 <= i < |v.items| ==>
      (v.items[i].EllipsisItem? <==> PagePlan(p.currentPage, p.totalPages)[i].Ellipsis?)
  {
    View(PreviousControl(p), Items(p), NextControl(p))
  }

  /** Without a full page of results the next control is inert and styled
      disabled; the same on the last estimated page. */
  lemma NextInertOnLastPage(p: Props)
    requires !p.hasMorePages || p.currentPage == p.totalPages
    ensures Render(p).next == Control(None, true)
  {
  }

  /** For a page number of at least 1 the styling of the previous control
      agrees with its behaviour; below 1 it is neither styled disabled nor
      clickable. */
  lemma PreviousStyleMatchesGuard(p: Props)
    ensures p.currentPage >= 1 ==> (Render(p).previous.styledDisabled <==> Render(p).previous.target.None?)
    ensures p.currentPage < 1 ==> !Render(p).previous.styledDisabled && Render(p).previous.target.None?
  {
  }

  /** Every link navigates to a page in [1, totalPages]; at most one link is
      active, and when the current page is within the listing exactly one is:
      the link to the current page. */
  lemma {:induction false} LinksWellFormed(p: Props)
    ensures var items := Render(p).items;
      forall i :: 0 <= i < |items| && items[i].PageLink? ==> 1 <= items[i].page <= p.totalPages
    ensures var items := Render(p).items;
      forall i, j :: 0 <= i < j < |items| && items[i].PageLink? && items[j].PageLink? ==> !(items[i].active && items[j].active)
    ensures 1 <= p.currentPage <= p.totalPages ==> PageLink(p.currentPage, true) in Render(p).items
  {
    var plan := PagePlan(p.currentPage, p.totalPages);
    var items := Render(p).items;
    PlanNumbersIncrease(p.currentPage, p.totalPages);
    forall i, j | 0 <= i < j < |items| && items[i].PageLink? && items[j].PageLink?
      ensures !(items[i].active && items[j].active)
    {
      assert plan[i].n < plan[j].n;
    }
    if 1 <= p.currentPage <= p.totalPages {
      if p.totalPages > MAX_VISIBLE_PAGES {
        PlanWindow(p.currentPage, p.totalPages);
      } else {
        assert plan[p.currentPage - 1] == Page(p.currentPage);
      }
      var k :| 0 <= k < |plan| && plan[k] == Page(p.currentPage);
      assert items[k] == PageLink(p.currentPage, true);
    }
  }
}

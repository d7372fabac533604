/**
 * The message pager: hidden for a single page, otherwise a Prev button, the indicator
 * "Page <page> of <pages>" and a Next button. A click asks the page for `page - 1` or `page + 1`.
 */
module Pagination {
  import opened ChatTypes

  datatype Button = Prev | Next

  /** What the pager renders: nothing, or the indicator's two numbers and each button's disabled flag. */
  datatype Pager = Hidden | Shown(page: int, pages: int, prevDisabled: bool, nextDisabled: bool)

  /** The pager as written: Prev is disabled only on page 1, Next only on page `pages` exactly. */
  function Render(page: int, pages: int): (r: Pager)
    ensures r.Hidden? <==> pages <= 1
    ensures r.Shown? ==> r.page == page && r.pages == pages
    ensures r.Shown? ==> (r.prevDisabled <==> page == 1) && (r.nextDisabled <==> page == pages)
  {
    if pages <= 1 then Hidden else Shown(page, pages, page == 1, page == pages)
  }

  /** The page a click on `b` requests: none when the pager is hidden or the button disabled. */
  function Click(view: Pager, b: Button): (r: Option<int>)
    ensures r.Some? ==> view.Shown?
    ensures r.Some? && b == Prev ==> !view.prevDisabled && r.value == view.page - 1
    ensures r.Some? && b == Next ==> !view.nextDisabled && r.value == view.page + 1
    ensures view.Shown? && (b == Prev ==> !view.prevDisabled) && (b == Next ==> !view.nextDisabled) ==> r.Some?
  {
    match view
    case Hidden => None
    case Shown(page, _, prevDisabled, nextDisabled) =>
      match b
      case Prev => if prevDisabled then None else Some(page - 1)
      case Next => if nextDisabled then None else Some(page + 1)
  }

  /** From a page within range, an enabled button requests a page within range. */
  lemma ClickStaysInRange(page: int, pages: int, b: Button)
    requires 1 <= page <= pages
    ensures Click(Render(page, pages), b).Some? ==> 1 <= Click(Render(page, pages), b).value <= pages
  {
  }

  /** From a page within range, Next then Prev comes back to the page. */
  lemma NextThenPrev(page: int, pages: int)
    requires 1 <= page
    requires Click(Render(page, pages), Next).Some?
    ensures Click(Render(page + 1, pages), Prev) == Some(page)
  {
  }

  /** From a page within range, Prev then Next comes back to the page. */
  lemma PrevThenNext(page: int, pages: int)
    requires page <= pages
    requires Click(Render(page, pages), Prev).Some?
    ensures Click(Render(page - 1, pages), Next) == Some(page)
  {
  }

  /**
   * The message page is not reset when another conversation is opened, so `page` can exceed the
   * new conversation's `pages`. Next is then enabled and requests a page past the last one.
   */
  lemma NextPastLastPage()
    ensures Render(5, 2).Shown? && !Render(5, 2).nextDisabled
    ensures Click(Render(5, 2), Next) == Some(6)
  {
  }

  // ----- the pager as evidently intended: disable at or beyond either end -----

  /** Prev disabled from page 1 down, Next disabled from page `pages` up. */
  function RenderClamped(page: int, pages: int): (r: Pager)
    ensures r.Hidden? <==> pages <= 1
    ensures r.Shown? ==> r.page == page && r.pages == pages
    ensures r.Shown? ==> (r.prevDisabled <==> page <= 1) && (r.nextDisabled <==> page >= pages)
  {
    if pages <= 1 then Hidden else Shown(page, pages, page <= 1, page >= pages)
  }

  /** Whatever the current page, Next never requests a page past the last and Prev never one before the first. */
  lemma ClampedNeverLeavesRange(page: int, pages: int)
    ensures Click(RenderClamped(page, pages), Next).Some? ==> Click(RenderClamped(page, pages), Next).value <= pages
    ensures Click(RenderClamped(page, pages), Prev).Some? ==> Click(RenderClamped(page, pages), Prev).value >= 1
  {
  }

  /** Within range the corrected pager behaves exactly as the written one. */
  lemma ClampedAgreesInRange(page: int, pages: int)
    requires 1 <= page <= pages
    ensures RenderClamped(page, pages) == Render(page, pages)
  {
  }
}

/**
 * The Prev/Next controls under the sidebar's user and group lists: Prev disabled at or below
 * page 1, Next disabled at or beyond the last page, and the updaters `Math.max(1, p - 1)` and
 * `Math.min(pages, p + 1)`.
 */
module SidebarPaging {
  import opened ChatTypes
  import Pagination

  predicate PrevDisabled(page: int) {
    page <= 1
  }

  predicate NextDisabled(page: int, pages: int) {
    page >= pages
  }

  /** `p => Math.max(1, p - 1)`. */
  function StepBack(page: int): (r: int)
    ensures r >= 1
    ensures page > 1 ==> r == page - 1
  {
    if page - 1 >= 1 then page - 1 else 1
  }

  /** `p => Math.min(pages, p + 1)`. */
  function StepForward(page: int, pages: int): (r: int)
    ensures r <= pages
    ensures page < pages ==> r == page + 1
  {
    if page + 1 <= pages then page + 1 else pages
  }

  /** The page a click on `b` moves to, or none when the button is disabled. */
  function Click(page: int, pages: int, b: Pagination.Button): (r: Option<int>)
    ensures b == Pagination.Prev ==> (r.Some? <==> page > 1) && (r.Some? ==> r.value == page - 1)
    ensures b == Pagination.Next ==> (r.Some? <==> page < pages) && (r.Some? ==> r.value == page + 1)
  {
    match b
    case Prev => if PrevDisabled(page) then None else Some(StepBack(page))
    case Next => if NextDisabled(page, pages) then None else Some(StepForward(page, pages))
  }

  /**
   * The page counter starts at 1 and only these clicks change it: it never drops below 1, Next
   * never moves it past the last page, and a click from within range stays within range.
   */
  lemma ClickBounds(page: int, pages: int, b: Pagination.Button)
    requires page >= 1
    ensures Click(page, pages, b).Some? ==> Click(page, pages, b).value >= 1
    ensures b == Pagination.Next && Click(page, pages, b).Some? ==> Click(page, pages, b).value <= pages
    ensures page <= pages && Click(page, pages, b).Some? ==> Click(page, pages, b).value <= pages
  {
  }

  /** Past the last page (after the page count shrank), Prev moves one page back towards the range. */
  lemma PrevApproachesRange(page: int, pages: int)
    requires page > pages >= 1
    ensures Click(page, pages, Pagination.Prev) == Some(page - 1)
    ensures Click(page, pages, Pagination.Next).None?
  {
  }

  /** Next then Prev comes back, from any page at or above 1. */
  lemma NextThenPrev(page: int, pages: int)
    requires page >= 1
    requires Click(page, pages, Pagination.Next).Some?
    ensures Click(Click(page, pages, Pagination.Next).value, pages, Pagination.Prev) == Some(page)
  {
  }

  /** Whenever the message pager is shown, the sidebar controls are the corrected message pager. */
  lemma AgreesWithClampedPager(page: int, pages: int, b: Pagination.Button)
    requires pages > 1
    ensures Click(page, pages, b) == Pagination.Click(Pagination.RenderClamped(page, pages), b)
  {
  }
}

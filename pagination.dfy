/**
  The page control of the listing (src/components/Pagination.tsx): how many
  pages there are, which window of at most five page numbers is shown around
  the current page, whether an ellipsis and a last-page button follow it, and
  which page each button asks the listing to show.
*/
module Pagination {
  import opened Wrappers

  /** Math.ceil(totalItems / itemsPerPage): the least page count whose pages hold every item. */
  function TotalPages(totalItems: nat, itemsPerPage: int): (r: nat)
    requires itemsPerPage > 0
    ensures totalItems <= r * itemsPerPage
    ensures (r - 1) * itemsPerPage < totalItems
  {
    var q := (totalItems + itemsPerPage - 1) / itemsPerPage;
    var m := (totalItems + itemsPerPage - 1) % itemsPerPage;
    assert totalItems + itemsPerPage - 1 == q * itemsPerPage + m;
    assert (q - 1) * itemsPerPage == q * itemsPerPage - itemsPerPage;
    q
  }

  /**
    First page of the window, stated independently of the pull-back
    adjustment: currentPage - 2 clamped into [1, max(1, totalPages - 4)].
  */
  function WindowStart(totalPages: nat, currentPage: int): (r: int)
    ensures 1 <= r
    ensures totalPages >= 1 ==> r <= totalPages
    ensures 1 <= currentPage ==> r <= currentPage
    ensures totalPages == 0 ==> r == 1
  {
    Min(Max(1, currentPage - 2), Max(1, totalPages - 4))
  }

  /** Last page of the window: at most four pages after its start, never beyond the last page. */
  function WindowEnd(totalPages: nat, currentPage: int): (r: int)
    ensures r <= totalPages
    ensures r - WindowStart(totalPages, currentPage) <= 4
    ensures totalPages >= 1 ==>
      && WindowStart(totalPages, currentPage) <= r
      && r - WindowStart(totalPages, currentPage) + 1 == Min(5, totalPages)
    ensures 1 <= currentPage <= totalPages ==> currentPage <= r
    ensures totalPages == 0 ==> r == 0
  {
    Min(totalPages, WindowStart(totalPages, currentPage) + 4)
  }

  /** What the control renders. */
  datatype Control = Control(
    currentPage: int,
    totalPages: nat,
    startPage: int,
    endPage: int,
    pageNumbers: seq<int>,
    showEllipsis: bool,
    showLastPage: bool,
    previousDisabled: bool,
    nextDisabled: bool)

  /** The buttons of the control; PageNumber(n) is the button labelled n. */
  datatype Button = Previous | PageNumber(number: int) | LastPage | Next

  /** Reference rendering: the window from WindowStart/WindowEnd, its pages in order. */
  function View(itemsPerPage: int, totalItems: nat, currentPage: int): Control
    requires itemsPerPage > 0
  {
    var totalPages := TotalPages(totalItems, itemsPerPage);
    var startPage := WindowStart(totalPages, currentPage);
    var endPage := WindowEnd(totalPages, currentPage);
    Control(currentPage, totalPages, startPage, endPage,
            seq(Max(0, endPage - startPage + 1), k => startPage + k),
            endPage < totalPages, endPage < totalPages,
            currentPage == 1, currentPage == totalPages)
  }

  /**
    The component as written: start two pages before the current one, cut
    the window at the last page, pull its start back when it came out
    shorter than five pages, then push the page numbers one by one.
  */
  method Render(itemsPerPage: int, totalItems: nat, currentPage: int) returns (c: Control)
    requires itemsPerPage > 0
    ensures c == View(itemsPerPage, totalItems, currentPage)
  {
    var pageNumbers: seq<int> := [];
    var totalPages := TotalPages(totalItems, itemsPerPage);

    var startPage := Max(1, currentPage - 2);
    var endPage := Min(totalPages, startPage + 4);

    if endPage - startPage < 4 {
      startPage := Max(1, endPage - 4);
    }

    var i := startPage;
    while i <= endPage
      invariant startPage <= i <= Max(startPage, endPage + 1)
      invariant |pageNumbers| == i - startPage
      invariant forall k :: 0 <= k < |pageNumbers| ==> pageNumbers[k] == startPage + k
    {
      pageNumbers := pageNumbers + [i];
      i := i + 1;
    }

    c := Control(currentPage, totalPages, startPage, endPage, pageNumbers,
                 endPage < totalPages, endPage < totalPages,
                 currentPage == 1, currentPage == totalPages);
  }

  /**
    The page a click hands to paginate, or None when the click calls
    nothing: Previous and Next check the range before calling, and a page
    button or the last-page button only exists when it is rendered.
  */
  function Click(c: Control, b: Button): (r: Option<int>)
    ensures b.Previous? ==> (r.Some? <==> c.currentPage > 1) && (r.Some? ==> r.value == c.currentPage - 1)
    ensures b.Next? ==> (r.Some? <==> c.currentPage < c.totalPages) && (r.Some? ==> r.value == c.currentPage + 1)
    ensures b.PageNumber? ==> (r.Some? <==> b.number in c.pageNumbers) && (r.Some? ==> r.value == b.number)
    ensures b.LastPage? ==> (r.Some? <==> c.showLastPage) && (r.Some? ==> r.value == c.totalPages)
  {
    match b
    case Previous => if c.currentPage > 1 then Some(c.currentPage - 1) else None
    case PageNumber(n) => if n in c.pageNumbers then Some(n) else None
    case LastPage => if c.showLastPage then Some(c.totalPages) else None
    case Next => if c.currentPage < c.totalPages then Some(c.currentPage + 1) else None
  }

  /**
    The rendered page numbers are the consecutive pages startPage..endPage,
    all of them real pages; there are min(5, totalPages) of them, and none
    when there are no items.
  */
  lemma PageNumbersAreTheWindow(itemsPerPage: int, totalItems: nat, currentPage: int)
    requires itemsPerPage > 0
    ensures var c := View(itemsPerPage, totalItems, currentPage);
      && (forall k :: 0 <= k < |c.pageNumbers| ==> c.pageNumbers[k] == c.startPage + k)
      && (forall k :: 0 <= k < |c.pageNumbers| ==> 1 <= c.pageNumbers[k] <= c.totalPages)
      && (c.totalPages >= 1 ==> |c.pageNumbers| == Min(5, c.totalPages))
      && (c.pageNumbers == [] <==> totalItems == 0)
  {
    var c := View(itemsPerPage, totalItems, currentPage);
    if totalItems > 0 {
      assert c.totalPages >= 1;
    }
  }

  /**
    Whenever the current page is a real page, it is among the rendered page
    numbers.
  */
  lemma CurrentPageIsShown(itemsPerPage: int, totalItems: nat, currentPage: int)
    requires itemsPerPage > 0
    requires 1 <= currentPage <= TotalPages(totalItems, itemsPerPage)
    ensures currentPage in View(itemsPerPage, totalItems, currentPage).pageNumbers
  {
    var c := View(itemsPerPage, totalItems, currentPage);
    assert c.pageNumbers[currentPage - c.startPage] == currentPage;
  }

  /**
    The ellipsis and the last-page button appear exactly when the last page
    is not already one of the rendered page numbers.
  */
  lemma LastPageButtonIffNotInWindow(itemsPerPage: int, totalItems: nat, currentPage: int)
    requires itemsPerPage > 0
    requires totalItems > 0
    ensures var c := View(itemsPerPage, totalItems, currentPage);
      && c.showEllipsis == c.showLastPage
      && (c.showLastPage <==> c.totalPages !in c.pageNumbers)
  {
    var c := View(itemsPerPage, totalItems, currentPage);
    if !c.showLastPage {
      assert c.pageNumbers[c.endPage - c.startPage] == c.totalPages;
    }
  }

  /**
    From a real current page, every click that calls paginate asks for a
    real page: Previous only below, Next only above, page buttons inside
    the window, the last-page button for the last page.
  */
  lemma ClicksStayInRange(itemsPerPage: int, totalItems: nat, currentPage: int, b: Button)
    requires itemsPerPage > 0
    requires 1 <= currentPage <= TotalPages(totalItems, itemsPerPage)
    ensures var c := View(itemsPerPage, totalItems, currentPage);
      Click(c, b).Some? ==> 1 <= Click(c, b).value <= c.totalPages
  {
    var c := View(itemsPerPage, totalItems, currentPage);
    match b
    case PageNumber(n) =>
      if n in c.pageNumbers {
        PageNumbersAreTheWindow(itemsPerPage, totalItems, currentPage);
      }
    case _ =>
  }

  /**
    For a page inside [1, totalPages], the disabled flags and the guards in
    the click handlers agree: a button that is not disabled calls paginate,
    and a disabled one does not.
  */
  lemma GuardsMatchDisabled(itemsPerPage: int, totalItems: nat, currentPage: int)
    requires itemsPerPage > 0
    requires 1 <= currentPage <= TotalPages(totalItems, itemsPerPage)
    ensures var c := View(itemsPerPage, totalItems, currentPage);
      && (Click(c, Previous).Some? <==> !c.previousDisabled)
      && (Click(c, Next).Some? <==> !c.nextDisabled)
  {
  }
}

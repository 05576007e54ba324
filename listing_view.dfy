/**
  The listing page's view state (src/app/page.tsx, lines 29-37 and 74-108):
  the fetched sailings, the sort field and order, and the current page,
  with the three handlers that change them and what is derived from them
  on each render.
*/
module ListingView {
  import opened Wrappers
  import opened Sailings
  import Paging
  import Pagination
  import SortOption

  /** The three values the handlers change. */
  datatype ViewState = ViewState(sortBy: string, sortOrder: string, currentPage: int)

  /** The initial state, which reset filters returns to: price, ascending, page 1. */
  const Default: ViewState := ViewState("price", "asc", 1)

  /** paginate: the page is taken as given, without any clamping. */
  function Paginated(st: ViewState, pageNumber: int): ViewState {
    st.(currentPage := pageNumber)
  }

  /** handleSortChange: field and order from the option; the page is left alone. */
  function SortChanged(st: ViewState, option: string): ViewState {
    var (field, order) := SortOption.ParseOption(option);
    st.(sortBy := field, sortOrder := order)
  }

  /** handleResetFilters. */
  function ResetFilters(st: ViewState): ViewState {
    Default
  }

  /** The page index of a state points at a page the control can show. */
  predicate PageInRange(st: ViewState, totalItems: nat) {
    1 <= st.currentPage <= Max(1, Pagination.TotalPages(totalItems, Paging.ItemsPerPage))
  }

  class Home {
    var sailings: seq<Sailing>
    var sortBy: string
    var sortOrder: string
    var currentPage: int

    function State(): ViewState
      reads this
    {
      ViewState(sortBy, sortOrder, currentPage)
    }

    /** Mount: no sailings yet, sorted by price ascending, page 1. */
    constructor ()
      ensures sailings == [] && State() == Default
    {
      sailings := [];
      sortBy, sortOrder, currentPage := "price", "asc", 1;
    }

    /** The fetch succeeded with a results array: the list is replaced, nothing else changes. */
    method ReceiveResults(results: seq<Sailing>)
      modifies this
      ensures sailings == results && State() == old(State())
    {
      sailings := results;
    }

    method Paginate(pageNumber: int)
      modifies this
      ensures State() == Paginated(old(State()), pageNumber)
      ensures sailings == old(sailings)
    {
      currentPage := pageNumber;
    }

    method HandleSortChange(option: string)
      modifies this
      ensures State() == SortChanged(old(State()), option)
      ensures sailings == old(sailings)
    {
      var (field, order) := SortOption.ParseOption(option);
      sortBy := field;
      sortOrder := order;
    }

    method HandleResetFilters()
      modifies this
      ensures State() == ResetFilters(old(State()))
      ensures sailings == old(sailings)
    {
      sortBy := "price";
      sortOrder := "asc";
      currentPage := 1;
    }

    /** The sort criteria of the current state, given the date parser. */
    function SortCriteria(timestamp: string -> int): Sailings.Criteria
      reads this
    {
      Sailings.Criteria(sortBy, sortOrder, timestamp)
    }

    /**
      The sorted copy of the sailings: a permutation of them, ordered by the
      current comparator, with every group of ties in the order of the
      fetched list; the sailings themselves are not touched.
    */
    function SortedSailings(timestamp: string -> int): (r: seq<Sailing>)
      reads this
      ensures multiset(r) == multiset(sailings)
      ensures Sorted(SortCriteria(timestamp), r)
      ensures KeepsTies(SortCriteria(timestamp), sailings, r)
    {
      SortSailings(SortCriteria(timestamp), sailings)
    }

    /**
      The cards shown: at most ten sailings, all of them fetched ones; from
      page 1 on, the page's run of the sorted copy.
    */
    function CurrentItems(timestamp: string -> int): (r: seq<Sailing>)
      reads this
      ensures |r| <= Paging.ItemsPerPage
      ensures forall x :: x in r ==> x in sailings
      ensures currentPage >= 1 ==>
        r == SortedSailings(timestamp)[Min((currentPage - 1) * Paging.ItemsPerPage, |sailings|)
                                       ..Min(currentPage * Paging.ItemsPerPage, |sailings|)]
    {
      var sorted := SortedSailings(timestamp);
      var r := Paging.CurrentItems(sorted, currentPage);
      assert |sorted| == |multiset(sorted)|;
      assert forall x :: x in sorted ==> x in multiset(sailings);
      r
    }

    /** The page control is rendered only when there is more than one page of sailings. */
    function ShowsPagination(): (r: bool)
      reads this
      ensures r <==> Pagination.TotalPages(|sailings|, Paging.ItemsPerPage) >= 2
    {
      |sailings| > Paging.ItemsPerPage
    }
  }

  /** Resetting gives price, ascending, page 1 from any state, and a second reset changes nothing. */
  lemma ResetIsIdempotent(st: ViewState)
    ensures ResetFilters(st) == ViewState("price", "asc", 1)
    ensures ResetFilters(ResetFilters(st)) == ResetFilters(st)
  {
  }

  /**
    Changing the sort keeps the page index, and re-selecting the option the
    selector shows (a field and an order without '-') leaves the state as
    it was.
  */
  lemma SortChangeKeepsPage(st: ViewState, option: string)
    ensures SortChanged(st, option).currentPage == st.currentPage
    ensures '-' !in st.sortBy && '-' !in st.sortOrder ==>
      SortChanged(st, SortOption.SelectValue(st.sortBy, st.sortOrder)) == st
  {
    if '-' !in st.sortBy && '-' !in st.sortOrder {
      SortOption.ParseSelectValue(st.sortBy, st.sortOrder);
    }
  }

  /**
    Choosing any of the six options sets one of the three fields and "asc"
    or "desc", and the selector then shows that option.
  */
  lemma ChosenOptionIsShown(st: ViewState, option: string)
    requires option in SortOption.Options
    ensures IsSortField(SortChanged(st, option).sortBy)
    ensures SortChanged(st, option).sortOrder in {"asc", "desc"}
    ensures SortOption.SelectValue(SortChanged(st, option).sortBy, SortChanged(st, option).sortOrder) == option
  {
    SortOption.OptionsRoundTrip(option);
  }

  /**
    The page stays a real page under everything the user can do: the
    initial state and a reset are on page 1, a sort change keeps the page,
    and every click on the page control that calls paginate asks for a page
    in [1, totalPages].
  */
  lemma UserActionsKeepPageInRange(st: ViewState, totalItems: nat, option: string, b: Pagination.Button)
    requires PageInRange(st, totalItems)
    ensures PageInRange(Default, totalItems)
    ensures PageInRange(ResetFilters(st), totalItems)
    ensures PageInRange(SortChanged(st, option), totalItems)
    ensures var c := Pagination.View(Paging.ItemsPerPage, totalItems, st.currentPage);
      totalItems > Paging.ItemsPerPage && Pagination.Click(c, b).Some? ==>
        PageInRange(Paginated(st, Pagination.Click(c, b).value), totalItems)
  {
    var tp := Pagination.TotalPages(totalItems, Paging.ItemsPerPage);
    if totalItems > Paging.ItemsPerPage {
      assert tp >= 2;
      Pagination.ClicksStayInRange(Paging.ItemsPerPage, totalItems, st.currentPage, b);
    }
  }

  /**
    On a page in range the shown cards are the page's run of the sorted
    list, between one and ten of them.
  */
  lemma InRangePageIsFilled(h: Home, timestamp: string -> int)
    requires 1 <= h.currentPage <= Pagination.TotalPages(|h.sailings|, Paging.ItemsPerPage)
    ensures 1 <= |h.CurrentItems(timestamp)| <= Paging.ItemsPerPage
    ensures h.CurrentItems(timestamp) ==
      h.SortedSailings(timestamp)[(h.currentPage - 1) * Paging.ItemsPerPage
                                 ..Min(h.currentPage * Paging.ItemsPerPage, |h.sailings|)]
  {
    var sorted := h.SortedSailings(timestamp);
    assert |sorted| == |h.sailings| by {
      assert |sorted| == |multiset(sorted)|;
    }
    Paging.PagesInRangeAreFilled(sorted, h.currentPage);
  }
}

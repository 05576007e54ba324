/**
  The page of the sorted list that is shown (src/app/page.tsx, lines 37 and
  88-91): `sortedSailings.slice((page - 1) * 10, page * 10)`.
*/
module Paging {
  import opened Wrappers
  import Pagination

  const ItemsPerPage: int := 10

  /**
    `Array.prototype.slice(start, end)`: a negative bound counts back from
    the end of the list, every bound is clamped to [0, |s|], and a start at
    or after the end gives an empty list.
  */
  function Slice<T>(s: seq<T>, start: int, end: int): (r: seq<T>)
    ensures 0 <= start <= end ==> r == s[Min(start, |s|)..Min(end, |s|)]
    ensures -|s| <= start <= end < 0 ==> r == s[|s| + start..|s| + end]
    ensures start < -|s| && 0 <= end ==> r == s[..Min(end, |s|)]
    ensures start < -|s| && end < 0 ==> r == s[..Max(|s| + end, 0)]
    ensures end == 0 ==> r == []
  {
    var from := if start < 0 then Max(|s| + start, 0) else Min(start, |s|);
    var to := if end < 0 then Max(|s| + end, 0) else Min(end, |s|);
    if from < to then s[from..to] else []
  }

  /**
    The items of page currentPage. Any page number is accepted: the result
    has at most ten items, all taken from the list, and for a page from 1 on
    it is the run of items (currentPage - 1) * 10 up to currentPage * 10,
    empty once that run starts at or after the end of the list.
  */
  function CurrentItems<T>(sorted: seq<T>, currentPage: int): (r: seq<T>)
    ensures |r| <= ItemsPerPage
    ensures forall x :: x in r ==> x in sorted
    ensures currentPage >= 1 ==>
      r == sorted[Min((currentPage - 1) * ItemsPerPage, |sorted|)..Min(currentPage * ItemsPerPage, |sorted|)]
    ensures currentPage >= 1 ==> (r == [] <==> (currentPage - 1) * ItemsPerPage >= |sorted|)
    ensures currentPage == 0 ==> r == []
  {
    var indexOfLastItem := currentPage * ItemsPerPage;
    var indexOfFirstItem := indexOfLastItem - ItemsPerPage;
    Slice(sorted, indexOfFirstItem, indexOfLastItem)
  }

  /**
    A page past the last one shows nothing; it is not an error.
  */
  lemma PagePastTheEndIsEmpty<T>(sorted: seq<T>, currentPage: int)
    requires currentPage > Pagination.TotalPages(|sorted|, ItemsPerPage)
    ensures CurrentItems(sorted, currentPage) == []
  {
  }

  /**
    A negative page follows slice's negative indices and counts back from
    the end: page -1 of 25 items shows items 5 to 14.
  */
  lemma NegativePageCountsFromTheEnd(sorted: seq<int>)
    requires |sorted| == 25
    ensures CurrentItems(sorted, -1) == sorted[5..15]
  {
  }

  /** Pages 1 to n, one after another. */
  function PagesUpTo<T>(sorted: seq<T>, n: nat): seq<T> {
    if n == 0 then [] else PagesUpTo(sorted, n - 1) + CurrentItems(sorted, n)
  }

  lemma {:induction false} PagesUpToIsPrefix<T>(sorted: seq<T>, n: nat)
    ensures PagesUpTo(sorted, n) == sorted[..Min(n * ItemsPerPage, |sorted|)]
  {
    if n > 0 {
      PagesUpToIsPrefix(sorted, n - 1);
      var a, b := Min((n - 1) * ItemsPerPage, |sorted|), Min(n * ItemsPerPage, |sorted|);
      assert sorted[..a] + sorted[a..b] == sorted[..b];
    }
  }

  /**
    Reading pages 1 to totalPages one after another gives back exactly the
    sorted list: no item is left out or shown twice.
  */
  lemma AllPagesGiveTheList<T>(sorted: seq<T>)
    ensures PagesUpTo(sorted, Pagination.TotalPages(|sorted|, ItemsPerPage)) == sorted
  {
    PagesUpToIsPrefix(sorted, Pagination.TotalPages(|sorted|, ItemsPerPage));
  }

  /**
    Every page from 1 to totalPages shows between one and ten items, so the
    last page is never empty.
  */
  lemma PagesInRangeAreFilled<T>(sorted: seq<T>, currentPage: int)
    requires 1 <= currentPage <= Pagination.TotalPages(|sorted|, ItemsPerPage)
    ensures 1 <= |CurrentItems(sorted, currentPage)| <= ItemsPerPage
  {
  }
}

/**
  The sailing record and the sort applied to the fetched list before it is
  paged (src/app/page.tsx, lines 9-27 and 75-86).
*/
module Sailings {

  datatype Line = Line(logo: string, name: string)

  datatype Ship = Ship(name: string, rating: real, reviews: int, image: string, line: Line)

  /** One sailing as the upstream service delivers it; price and duration are whole numbers here. */
  datatype Sailing = Sailing(
    price: int,
    name: string,
    ship: Ship,
    itinerary: seq<string>,
    region: string,
    departureDate: string,
    returnDate: string,
    duration: int)

  /**
    The sort inputs: the view's sortBy and sortOrder, and timestamp, which
    stands for `new Date(s).getTime()` on a date string.
  */
  datatype Criteria = Criteria(sortBy: string, sortOrder: string, timestamp: string -> int)

  /** The three fields the comparator knows. */
  predicate IsSortField(f: string) {
    f == "price" || f == "departureDate" || f == "duration"
  }

  /** The value the comparator subtracts for a known sortBy. */
  function Key(c: Criteria, a: Sailing): int
    requires IsSortField(c.sortBy)
  {
    if c.sortBy == "price" then a.price
    else if c.sortBy == "departureDate" then c.timestamp(a.departureDate)
    else a.duration
  }

  /**
    The position of a sailing in the intended order: its key for "asc", the
    negated key for any other order, and 0 for all sailings when sortBy is
    not a known field.
  */
  function Rank(c: Criteria, a: Sailing): int {
    if !IsSortField(c.sortBy) then 0
    else if c.sortOrder == "asc" then Key(c, a)
    else -Key(c, a)
  }

  /**
    The comparator handed to sort, branch for branch. It is consistent: its
    result is always the difference of the two ranks, so it orders sailings
    by rank and calls sailings of equal rank equal.
  */
  function Compare(c: Criteria, a: Sailing, b: Sailing): (r: int)
    ensures r == Rank(c, a) - Rank(c, b)
  {
    if c.sortBy == "price" then
      (if c.sortOrder == "asc" then a.price - b.price else b.price - a.price)
    else if c.sortBy == "departureDate" then
      (if c.sortOrder == "asc"
       then c.timestamp(a.departureDate) - c.timestamp(b.departureDate)
       else c.timestamp(b.departureDate) - c.timestamp(a.departureDate))
    else if c.sortBy == "duration" then
      (if c.sortOrder == "asc" then a.duration - b.duration else b.duration - a.duration)
    else 0
  }

  /** Every earlier sailing ranks at most as high as every later one. */
  ghost predicate Sorted(c: Criteria, s: seq<Sailing>) {
    forall i, j :: 0 <= i < j < |s| ==> Rank(c, s[i]) <= Rank(c, s[j])
  }

  /** The sailings of rank k, in the order they have in s. */
  function Ties(c: Criteria, s: seq<Sailing>, k: int): seq<Sailing> {
    if s == [] then []
    else (if Rank(c, s[0]) == k then [s[0]] else []) + Ties(c, s[1..], k)
  }

  /** A stable result: for every rank, the sailings of that rank keep their relative order. */
  ghost predicate KeepsTies(c: Criteria, s: seq<Sailing>, r: seq<Sailing>) {
    forall k :: Ties(c, r, k) == Ties(c, s, k)
  }

  lemma {:induction false} TiesAppend(c: Criteria, a: seq<Sailing>, b: seq<Sailing>, k: int)
    ensures Ties(c, a + b, k) == Ties(c, a, k) + Ties(c, b, k)
  {
    if a == [] {
      assert a + b == b;
    } else {
      assert (a + b)[0] == a[0];
      assert (a + b)[1..] == a[1..] + b;
      TiesAppend(c, a[1..], b, k);
    }
  }

  lemma {:induction false} TiesMembers(c: Criteria, s: seq<Sailing>, k: int, x: Sailing)
    ensures x in Ties(c, s, k) <==> x in s && Rank(c, x) == k
  {
    if s != [] {
      TiesMembers(c, s[1..], k, x);
      assert s == [s[0]] + s[1..];
    }
  }

  /** No sailing of a list ranks k, so none is kept for k. */
  lemma TiesNone(c: Criteria, s: seq<Sailing>, k: int)
    requires forall y :: y in s ==> Rank(c, y) != k
    ensures Ties(c, s, k) == []
  {
    if Ties(c, s, k) != [] {
      TiesMembers(c, s, k, Ties(c, s, k)[0]);
    }
  }

  /**
    Inserts x into a sorted list after every sailing that does not compare
    greater than it, so that x lands behind the sailings it ties with.
  */
  function Insert(c: Criteria, x: Sailing, r: seq<Sailing>): seq<Sailing> {
    if r == [] then [x]
    else if Compare(c, x, r[0]) < 0 then [x] + r
    else [r[0]] + Insert(c, x, r[1..])
  }

  lemma {:induction false} InsertPermutes(c: Criteria, x: Sailing, r: seq<Sailing>)
    ensures multiset(Insert(c, x, r)) == multiset(r) + multiset{x}
  {
    if r != [] && Compare(c, x, r[0]) >= 0 {
      InsertPermutes(c, x, r[1..]);
      assert r == [r[0]] + r[1..];
    }
  }

  lemma {:induction false} InsertSorted(c: Criteria, x: Sailing, r: seq<Sailing>)
    requires Sorted(c, r)
    ensures Sorted(c, Insert(c, x, r))
  {
    if r != [] && Compare(c, x, r[0]) >= 0 {
      var t := Insert(c, x, r[1..]);
      InsertSorted(c, x, r[1..]);
      InsertPermutes(c, x, r[1..]);
      forall j | 0 <= j < |t| ensures Rank(c, r[0]) <= Rank(c, t[j]) {
        assert t[j] in multiset(t);
        if t[j] != x {
          assert t[j] in multiset(r[1..]);
          var i :| 0 <= i < |r[1..]| && r[1..][i] == t[j];
          assert r[i + 1] == t[j];
        }
      }
      assert Insert(c, x, r) == [r[0]] + t;
    }
  }

  /** Ties of a one-element list. */
  lemma TiesSingle(c: Criteria, x: Sailing, k: int)
    ensures Ties(c, [x], k) == if Rank(c, x) == k then [x] else []
  {
    assert [x][1..] == [];
  }

  /** In a sorted list nothing ranks below its head. */
  lemma HeadIsLeast(c: Criteria, r: seq<Sailing>, y: Sailing)
    requires Sorted(c, r) && r != [] && y in r
    ensures Rank(c, r[0]) <= Rank(c, y)
  {
    var j :| 0 <= j < |r| && r[j] == y;
    assert j == 0 || Rank(c, r[0]) <= Rank(c, r[j]);
  }

  lemma {:induction false} InsertTies(c: Criteria, x: Sailing, r: seq<Sailing>, k: int)
    requires Sorted(c, r)
    ensures Ties(c, Insert(c, x, r), k) == Ties(c, r, k) + (if Rank(c, x) == k then [x] else [])
  {
    TiesSingle(c, x, k);
    if r == [] {
      assert Insert(c, x, r) == [x];
    } else if Compare(c, x, r[0]) < 0 {
      assert Insert(c, x, r) == [x] + r;
      TiesAppend(c, [x], r, k);
      if Rank(c, x) == k {
        forall y | y in r ensures Rank(c, y) != k {
          HeadIsLeast(c, r, y);
        }
        TiesNone(c, r, k);
      }
    } else {
      var t := Insert(c, x, r[1..]);
      assert Insert(c, x, r) == [r[0]] + t;
      assert r == [r[0]] + r[1..];
      InsertTies(c, x, r[1..], k);
      TiesAppend(c, [r[0]], t, k);
      TiesAppend(c, [r[0]], r[1..], k);
    }
  }

  /**
    The sorted copy of the list (`[...sailings].sort(comparator)`): a
    permutation of the input, ordered by the comparator, and stable, as the
    engine's sort is. The list itself is a value and is left as it was.
  */
  function SortSailings(c: Criteria, s: seq<Sailing>): (r: seq<Sailing>)
    ensures |r| == |s|
    ensures multiset(r) == multiset(s)
    ensures Sorted(c, r)
    ensures KeepsTies(c, s, r)
  {
    if s == [] then []
    else
      var sortedInit := SortSailings(c, s[..|s| - 1]);
      SortStep(c, s, sortedInit);
      Insert(c, s[|s| - 1], sortedInit)
  }

  /** Inserting the last sailing into the sorted rest sorts the whole list. */
  lemma SortStep(c: Criteria, s: seq<Sailing>, sortedInit: seq<Sailing>)
    requires s != []
    requires multiset(sortedInit) == multiset(s[..|s| - 1])
    requires Sorted(c, sortedInit)
    requires KeepsTies(c, s[..|s| - 1], sortedInit)
    ensures multiset(Insert(c, s[|s| - 1], sortedInit)) == multiset(s)
    ensures |Insert(c, s[|s| - 1], sortedInit)| == |s|
    ensures Sorted(c, Insert(c, s[|s| - 1], sortedInit))
    ensures KeepsTies(c, s, Insert(c, s[|s| - 1], sortedInit))
  {
    var init, last := s[..|s| - 1], s[|s| - 1];
    assert s == init + [last];
    InsertPermutes(c, last, sortedInit);
    assert |Insert(c, last, sortedInit)| == |multiset(Insert(c, last, sortedInit))|;
    InsertSorted(c, last, sortedInit);
    forall k ensures Ties(c, Insert(c, last, sortedInit), k) == Ties(c, s, k) {
      InsertTies(c, last, sortedInit, k);
      TiesAppend(c, init, [last], k);
      TiesSingle(c, last, k);
    }
  }

  /** Dropping the head of a list removes it from the ties of its own rank only. */
  lemma TiesTail(c: Criteria, r: seq<Sailing>, k: int)
    requires r != []
    ensures Ties(c, r, k) == (if Rank(c, r[0]) == k then [r[0]] + Ties(c, r[1..], k) else Ties(c, r[1..], k))
  {
  }

  /** Two sorted lists with the same ties start with sailings of the same, least, rank. */
  lemma SameLeastRank(c: Criteria, r1: seq<Sailing>, r2: seq<Sailing>)
    requires r1 != [] && r2 != []
    requires Sorted(c, r1) && Sorted(c, r2)
    requires forall k :: Ties(c, r1, k) == Ties(c, r2, k)
    ensures Rank(c, r1[0]) == Rank(c, r2[0])
  {
    var m1, m2 := Rank(c, r1[0]), Rank(c, r2[0]);
    TiesMembers(c, r1, m1, r1[0]);
    TiesMembers(c, r2, m1, r1[0]);
    HeadIsLeast(c, r2, r1[0]);
    TiesMembers(c, r2, m2, r2[0]);
    TiesMembers(c, r1, m2, r2[0]);
    HeadIsLeast(c, r1, r2[0]);
  }

  /** ... and then the same sailing heads both, and the rests have the same ties. */
  lemma SameHeadSameTails(c: Criteria, r1: seq<Sailing>, r2: seq<Sailing>)
    requires r1 != [] && r2 != []
    requires Rank(c, r1[0]) == Rank(c, r2[0])
    requires forall k :: Ties(c, r1, k) == Ties(c, r2, k)
    ensures r1[0] == r2[0]
    ensures forall k :: Ties(c, r1[1..], k) == Ties(c, r2[1..], k)
  {
    var m := Rank(c, r1[0]);
    TiesTail(c, r1, m);
    TiesTail(c, r2, m);
    assert Ties(c, r1, m)[0] == Ties(c, r2, m)[0];
    forall k ensures Ties(c, r1[1..], k) == Ties(c, r2[1..], k) {
      TiesTail(c, r1, k);
      TiesTail(c, r2, k);
      if k == m {
        assert Ties(c, r1, k)[1..] == Ties(c, r1[1..], k);
        assert Ties(c, r2, k)[1..] == Ties(c, r2[1..], k);
      }
    }
  }

  /**
    Sortedness and stability determine the result: two lists of the same
    length that are both sorted and hold the same ties for every rank are
    equal.
  */
  lemma {:induction false} SortedTiesDetermine(c: Criteria, r1: seq<Sailing>, r2: seq<Sailing>)
    requires |r1| == |r2|
    requires Sorted(c, r1) && Sorted(c, r2)
    requires forall k :: Ties(c, r1, k) == Ties(c, r2, k)
    ensures r1 == r2
  {
    if r1 != [] {
      SameLeastRank(c, r1, r2);
      SameHeadSameTails(c, r1, r2);
      SortedTiesDetermine(c, r1[1..], r2[1..]);
      assert r1 == [r1[0]] + r1[1..] && r2 == [r2[0]] + r2[1..];
    }
  }

  /**
    Any stable sort with this comparator gives SortSailings's result: a
    permutation of the list that is ordered by the comparator and keeps the
    relative order of every group of ties is exactly the sorted copy,
    whatever algorithm produced it.
  */
  lemma StableSortIsUnique(c: Criteria, s: seq<Sailing>, r: seq<Sailing>)
    requires multiset(r) == multiset(s)
    requires Sorted(c, r)
    requires KeepsTies(c, s, r)
    ensures r == SortSailings(c, s)
  {
    assert |r| == |multiset(r)| == |multiset(s)| == |s|;
    SortedTiesDetermine(c, r, SortSailings(c, s));
  }

  /**
    An unrecognised sortBy makes the comparator return 0 everywhere, and
    the stable sort then returns the list unchanged.
  */
  lemma UnrecognisedSortByKeepsOrder(c: Criteria, s: seq<Sailing>)
    requires !IsSortField(c.sortBy)
    ensures SortSailings(c, s) == s
  {
    StableSortIsUnique(c, s, s);
  }

  /**
    For a known field, the sorted copy is non-decreasing in that field for
    "asc" and non-increasing for every other order: price, duration, or the
    departure timestamp.
  */
  lemma SortedByKey(c: Criteria, s: seq<Sailing>, i: int, j: int)
    requires IsSortField(c.sortBy)
    requires 0 <= i < j < |s|
    ensures var r := SortSailings(c, s);
      if c.sortOrder == "asc" then Key(c, r[i]) <= Key(c, r[j]) else Key(c, r[i]) >= Key(c, r[j])
  {
  }

  /** The sailings of s whose key is v, in the order they have in s. */
  function KeyTies(c: Criteria, s: seq<Sailing>, v: int): seq<Sailing>
    requires IsSortField(c.sortBy)
  {
    if s == [] then []
    else (if Key(c, s[0]) == v then [s[0]] else []) + KeyTies(c, s[1..], v)
  }

  /** For a known field, the sailings with key v are those of rank v ("asc") or -v (otherwise). */
  lemma {:induction false} KeyTiesAreRankTies(c: Criteria, s: seq<Sailing>, v: int)
    requires IsSortField(c.sortBy)
    ensures KeyTies(c, s, v) == Ties(c, s, if c.sortOrder == "asc" then v else -v)
  {
    if s != [] { KeyTiesAreRankTies(c, s[1..], v); }
  }

  /**
    Sailings with the same key keep their original relative order in both
    directions: for every key value v, the sailings of the sorted copy with
    key v are those of the input with key v, in the input's order, for
    "asc" and for "desc" alike.
  */
  lemma EqualKeysKeepInputOrder(c: Criteria, s: seq<Sailing>, v: int)
    requires IsSortField(c.sortBy)
    ensures KeyTies(c, SortSailings(c, s), v) == KeyTies(c, s, v)
  {
    KeyTiesAreRankTies(c, s, v);
    KeyTiesAreRankTies(c, SortSailings(c, s), v);
  }

  /** For example, two sailings with equal keys come out in input order for "asc" and for "desc" alike. */
  lemma {:induction false} EqualKeyPairStaysInOrder(c: Criteria, a: Sailing, b: Sailing)
    requires IsSortField(c.sortBy)
    requires Key(c, a) == Key(c, b)
    ensures SortSailings(c, [a, b]) == [a, b]
  {
    assert SortSailings(c, [a]) == [a] by {
      assert [a][..0] == [];
      assert SortSailings(c, []) == [];
    }
    assert Insert(c, b, [a]) == [a, b] by {
      assert Compare(c, b, a) == 0;
      assert Insert(c, b, []) == [b];
    }
    assert [a, b][..1] == [a];
  }

  /**
    So with ties, "desc" is not "asc" reversed: for two distinct sailings of
    equal price both directions give [a, b], and the reverse of [a, b] is
    [b, a].
  */
  lemma DescendingIsNotReversedAscending(ts: string -> int, a: Sailing, b: Sailing)
    requires a.price == b.price && a != b
    ensures SortSailings(Criteria("price", "asc", ts), [a, b]) == [a, b]
    ensures SortSailings(Criteria("price", "desc", ts), [a, b]) == [a, b]
    ensures [a, b] != [b, a]
  {
    EqualKeyPairStaysInOrder(Criteria("price", "asc", ts), a, b);
    EqualKeyPairStaysInOrder(Criteria("price", "desc", ts), a, b);
  }
}

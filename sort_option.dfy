/**
  The value of the sort selector (src/app/page.tsx, lines 97-101 and
  146-156): the view writes `${sortBy}-${sortOrder}` into the select, and a
  chosen option is split at '-' back into a field and an order.
*/
module SortOption {

  /**
    `String.prototype.split(sep)` for a one-character separator: the pieces
    between separators, in order, none containing the separator; the empty
    string gives one empty piece.
  */
  function Split(s: string, sep: char): (parts: seq<string>)
    ensures |parts| >= 1
    ensures forall i :: 0 <= i < |parts| ==> sep !in parts[i]
  {
    if s == [] then [""]
    else
      var rest := Split(s[1..], sep);
      if s[0] == sep then [""] + rest
      else [[s[0]] + rest[0]] + rest[1..]
  }

  /** `Array.prototype.join(sep)`. */
  function Join(parts: seq<string>, sep: char): string
    requires |parts| >= 1
  {
    if |parts| == 1 then parts[0] else parts[0] + [sep] + Join(parts[1..], sep)
  }

  /** Splitting and joining again gives back the string. */
  lemma {:induction false} JoinSplit(s: string, sep: char)
    ensures Join(Split(s, sep), sep) == s
  {
    if s != [] {
      var rest := Split(s[1..], sep);
      JoinSplit(s[1..], sep);
      if s[0] == sep {
        assert ([""] + rest)[1..] == rest;
      } else {
        var parts := [[s[0]] + rest[0]] + rest[1..];
        if |rest| == 1 {
          assert parts == [[s[0]] + rest[0]];
        } else {
          assert parts[1..] == rest[1..];
          assert Join(rest, sep) == rest[0] + [sep] + Join(rest[1..], sep);
        }
        assert s == [s[0]] + s[1..];
      }
    }
  }

  /** A string without the separator is one piece. */
  lemma {:induction false} SplitNoSeparator(s: string, sep: char)
    ensures sep !in s ==> Split(s, sep) == [s]
  {
    if s != [] && sep !in s {
      SplitNoSeparator(s[1..], sep);
      assert s == [s[0]] + s[1..];
    }
  }

  /** A separator after a piece without one ends that piece. */
  lemma {:induction false} SplitAfterPiece(a: string, sep: char, b: string)
    requires sep !in a
    ensures Split(a + [sep] + b, sep) == [a] + Split(b, sep)
  {
    if a == [] {
      assert a + [sep] + b == [sep] + b;
      assert ([sep] + b)[1..] == b;
    } else {
      assert (a + [sep] + b)[1..] == a[1..] + [sep] + b;
      SplitAfterPiece(a[1..], sep, b);
      assert a == [a[0]] + a[1..];
    }
  }

  /** The select's value for the view's sortBy and sortOrder. */
  function SelectValue(sortBy: string, sortOrder: string): (v: string)
    ensures |v| == |sortBy| + 1 + |sortOrder|
    ensures v[..|sortBy|] == sortBy && v[|sortBy|] == '-' && v[|sortBy| + 1..] == sortOrder
  {
    sortBy + "-" + sortOrder
  }

  /**
    handleSortChange's `const [field, order] = option.split('-')`: the first
    two pieces. When there is no '-' the order is JavaScript's undefined,
    written here as the string "undefined": that is what the select value
    then shows, and like it, it is not "asc". With two or more '-' the
    order is the second piece and the rest is dropped; no option of the
    selector has more than one '-' (ParseSelectValue, OptionsRoundTrip).
  */
  function ParseOption(option: string): (fieldAndOrder: (string, string))
    ensures '-' !in fieldAndOrder.0
    ensures '-' !in option ==> fieldAndOrder == (option, "undefined")
  {
    var parts := Split(option, '-');
    SplitNoSeparator(option, '-');
    (parts[0], if |parts| >= 2 then parts[1] else "undefined")
  }

  /**
    For a field and an order without '-', parsing the select value gives
    them back.
  */
  lemma ParseSelectValue(sortBy: string, sortOrder: string)
    requires '-' !in sortBy && '-' !in sortOrder
    ensures ParseOption(SelectValue(sortBy, sortOrder)) == (sortBy, sortOrder)
  {
    SplitAfterPiece(sortBy, '-', sortOrder);
    SplitNoSeparator(sortOrder, '-');
    assert SelectValue(sortBy, sortOrder) == sortBy + ['-'] + sortOrder;
  }

  /** The six options of the selector. */
  const Options: seq<string> := [
    "price-asc", "price-desc",
    "departureDate-asc", "departureDate-desc",
    "duration-asc", "duration-desc"]

  /**
    Each option splits into one of the three fields and "asc" or "desc",
    and writing that pair back gives the option again, so the selector
    always shows the option last chosen.
  */
  lemma OptionsRoundTrip(option: string)
    requires option in Options
    ensures var (field, order) := ParseOption(option);
      && (field == "price" || field == "departureDate" || field == "duration")
      && (order == "asc" || order == "desc")
      && SelectValue(field, order) == option
  {
    var i :| 0 <= i < |Options| && Options[i] == option;
    var field := ["price", "price", "departureDate", "departureDate", "duration", "duration"][i];
    var order := ["asc", "desc"][i % 2];
    assert option == SelectValue(field, order);
    ParseSelectValue(field, order);
  }
}

/**
 What the two search bars share: the case-insensitive substring filter that
 keeps input order, and the clamped result cursor.
 */
module SearchCommon {
  import opened Text

  /** `xs.filter((x) => name(x).toLowerCase().includes(query.toLowerCase()))` */
  function MatchFilter<T(!new)>(xs: seq<T>, nameOf: T -> string, query: string): (r: seq<T>)
    ensures forall x :: x in r <==> x in xs && MatchesQuery(nameOf(x), query)
    ensures |r| <= |xs|
  {
    if |xs| == 0 then []
    else (if MatchesQuery(nameOf(xs[0]), query) then [xs[0]] else []) + MatchFilter(xs[1..], nameOf, query)
  }

  /** The filter keeps input order: filtering a concatenation concatenates the filtered parts. */
  lemma {:induction false} MatchFilterAppend<T(!new)>(a: seq<T>, b: seq<T>, nameOf: T -> string, query: string)
    ensures MatchFilter(a + b, nameOf, query) == MatchFilter(a, nameOf, query) + MatchFilter(b, nameOf, query)
  {
    if |a| == 0 {
      assert a + b == b;
    } else {
      assert (a + b)[1..] == a[1..] + b;
      MatchFilterAppend(a[1..], b, nameOf, query);
    }
  }

  /** ArrowDown: `Math.min(prev + 1, len - 1)` */
  function CursorDown(prev: int, len: nat): (r: int)
    ensures r <= len - 1
    ensures 0 <= prev < len ==> 0 <= r < len && (r == prev + 1 || r == len - 1 == prev)
  {
    if prev + 1 < len - 1 then prev + 1 else len - 1
  }

  /** ArrowUp: `Math.max(prev - 1, 0)` */
  function CursorUp(prev: int): (r: int)
    ensures r >= 0
    ensures prev > 0 ==> r == prev - 1
    ensures prev <= 1 ==> r == 0
  {
    if prev - 1 > 0 then prev - 1 else 0
  }

  /** From a position inside a non-empty list the cursor never leaves it. */
  lemma CursorStaysInRange(prev: int, len: nat)
    requires 0 <= prev < len
    ensures 0 <= CursorDown(prev, len) < len
    ensures 0 <= CursorUp(prev) < len
  {
  }

  /** With no results, ArrowDown moves the cursor to -1, outside any list. */
  lemma CursorDownOnEmpty(prev: int)
    requires prev >= -1
    ensures CursorDown(prev, 0) == -1
  {
  }
}

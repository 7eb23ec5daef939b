/**
 The selected-tag set of a pending upload, a JavaScript `Set<string>`: a list
 without repeats in insertion order. Deleting and re-adding a tag moves it to
 the end, as a `Set` does.
 */
module TagSelection {
  import opened Text

  /** `s.delete(t)` */
  function Remove(s: seq<string>, t: string): (r: seq<string>)
    ensures forall x :: x in r <==> x in s && x != t
    ensures NoDuplicates(s) ==> NoDuplicates(r)
    ensures t !in s ==> r == s
  {
    if |s| == 0 then []
    else if s[0] == t then Remove(s[1..], t)
    else
      var rest := Remove(s[1..], t);
      assert NoDuplicates(s) ==> s[0] !in s[1..] && NoDuplicates(s[1..]);
      var r := [s[0]] + rest;
      assert forall k :: 1 <= k < |r| ==> r[k] == rest[k - 1];
      r
  }

  /** `s.add(t)` */
  function Add(s: seq<string>, t: string): (r: seq<string>)
    ensures forall x :: x in r <==> x in s || x == t
    ensures NoDuplicates(s) ==> NoDuplicates(r)
    ensures t in s ==> r == s
  {
    if t in s then s else s + [t]
  }

  /** The body of `toggleTag`: delete when present, add otherwise. */
  function Toggle(s: seq<string>, t: string): (r: seq<string>)
    ensures forall x :: x in r <==> (if x == t then t !in s else x in s)
    ensures NoDuplicates(s) ==> NoDuplicates(r)
  {
    if t in s then Remove(s, t) else Add(s, t)
  }

  /** Toggling twice restores the membership of every tag, and the exact list
      when the tag was absent at first. */
  lemma ToggleTwice(s: seq<string>, t: string)
    requires NoDuplicates(s)
    ensures forall x :: x in Toggle(Toggle(s, t), t) <==> x in s
    ensures t !in s ==> Toggle(Toggle(s, t), t) == s
  {
    if t !in s {
      RemoveLast(s, t);
    }
  }

  lemma {:induction false} RemoveLast(s: seq<string>, t: string)
    requires t !in s
    ensures Remove(s + [t], t) == s
  {
    if |s| > 0 {
      assert (s + [t])[1..] == s[1..] + [t];
      RemoveLast(s[1..], t);
    } else {
      assert s + [t] == [t];
    }
  }

  /** `new Set(xs)`: the first occurrence of each value, in order. */
  function FromList(xs: seq<string>): (r: seq<string>)
    ensures forall x :: x in r <==> x in xs
    ensures NoDuplicates(r)
    ensures |r| <= |xs|
  {
    if |xs| == 0 then []
    else
      var init := FromList(xs[..|xs| - 1]);
      assert xs == xs[..|xs| - 1] + [xs[|xs| - 1]];
      Add(init, xs[|xs| - 1])
  }

  /** A list without repeats becomes a set unchanged. */
  lemma {:induction false} FromListOfDistinct(xs: seq<string>)
    requires NoDuplicates(xs)
    ensures FromList(xs) == xs
  {
    if |xs| > 0 {
      var init := xs[..|xs| - 1];
      assert NoDuplicates(init);
      FromListOfDistinct(init);
      assert xs[|xs| - 1] !in init;
      assert xs == init + [xs[|xs| - 1]];
    }
  }
}

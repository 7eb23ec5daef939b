/**
 Post-processing of the model's reply to an analysis request: locating the
 JSON in the reply, normalising the proposed tags, splitting them into
 existing and new ones, and the fixed fallback. The model call itself and
 `JSON.parse` are outside the model: the parser is a parameter whose result
 is the parsed value, with every array element already turned into text by
 `String(t)`.
 */
module Analyze {
  import opened Text

  datatype AnalysisResult = AnalysisResult(existingTags: seq<string>, newTags: seq<string>, suggestedName: Option<string>)

  /** What a property of the parsed object holds: nothing (absent or null), an
      array, or something else, on which `.map` throws. */
  datatype Field = Missing | List(items: seq<string>) | NotList

  datatype Json =
    | JObject(existingTags: Field, newTags: Field, suggestedName: Option<string>)
    | JArray(items: seq<string>)
    | JNull
    | JScalar

  datatype ParseOutcome = Parsed(value: Json) | SyntaxError

  const Untagged: string := "untagged"

  /** The answer whenever the reply cannot be used. */
  const Fallback: AnalysisResult := AnalysisResult([], [Untagged], None)

  /** The text a regular expression `\{[\s\S]*\}` (or its bracket twin) matches:
      from the first `open` to the last `close` after it. */
  function Span(s: string, open: char, close: char): (r: Option<string>)
    ensures r.Some? ==> exists i, j :: SpanAt(s, open, close, i, j) && r.value == s[i..j + 1]
  {
    if open !in s then None
    else
      var i := IndexOf(s, open);
      var rest := s[i + 1..];
      if close !in rest then None
      else
        var j := i + 1 + LastIndexOf(rest, close);
        assert s[j + 1..] == rest[j - i..];
        assert SpanAt(s, open, close, i, j);
        Some(s[i..j + 1])
  }

  /** Positions `i < j` hold the first `open` and the last `close` of `s`. */
  predicate SpanAt(s: string, open: char, close: char, i: int, j: int) {
    0 <= i < j < |s| && s[i] == open && open !in s[..i] && s[j] == close && close !in s[j + 1..]
  }

  /** The expression matches exactly when some `open` has a `close` after it. */
  lemma SpanFound(s: string, open: char, close: char)
    ensures Span(s, open, close).Some? <==> exists i, j :: 0 <= i < j < |s| && s[i] == open && s[j] == close
  {
    if a, b :| 0 <= a < b < |s| && s[a] == open && s[b] == close {
      assert open in s;
      var i := IndexOf(s, open);
      assert i <= a;
      assert s[i + 1..][b - i - 1] == close;
    }
  }

  /** `.map((t) => String(t).toLowerCase().trim()).filter(Boolean)` */
  function NormalizeTags(xs: seq<string>): (r: seq<string>)
    ensures forall t :: t in r ==> t != "" && IsNormal(t)
    ensures |r| <= |xs|
  {
    if |xs| == 0 then []
    else
      var n := Normalize(xs[0]);
      NormalizeIsNormal(xs[0]);
      if n == "" then NormalizeTags(xs[1..]) else [n] + NormalizeTags(xs[1..])
  }

  /** Normalising keeps input order: the tags from earlier inputs come first. */
  lemma {:induction false} NormalizeTagsAppend(a: seq<string>, b: seq<string>)
    ensures NormalizeTags(a + b) == NormalizeTags(a) + NormalizeTags(b)
  {
    if |a| == 0 {
      assert a + b == b;
    } else {
      assert (a + b)[1..] == a[1..] + b;
      NormalizeTagsAppend(a[1..], b);
    }
  }

  /** Some input normalises to `t`. */
  predicate SomeNormalizesTo(xs: seq<string>, t: string) {
    SomeMapsTo(xs, Normalize, t)
  }

  /** Some element of `xs` is sent to `t` by `f`. */
  predicate SomeMapsTo<T, U(==)>(xs: seq<T>, f: T -> U, t: U) {
    exists k :: 0 <= k < |xs| && f(xs[k]) == t
  }

  lemma SomeMapsToCons<T, U>(xs: seq<T>, f: T -> U, t: U)
    requires |xs| > 0
    ensures SomeMapsTo(xs, f, t) <==> f(xs[0]) == t || SomeMapsTo(xs[1..], f, t)
  {
    if SomeMapsTo(xs, f, t) {
      var k :| 0 <= k < |xs| && f(xs[k]) == t;
      if k > 0 {
        assert xs[1..][k - 1] == xs[k];
      }
    }
    if SomeMapsTo(xs[1..], f, t) {
      var k :| 0 <= k < |xs[1..]| && f(xs[1..][k]) == t;
      assert xs[k + 1] == xs[1..][k];
    }
  }

  /** The normalised list holds exactly the non-empty normal forms of the inputs. */
  lemma {:induction false} NormalizeTagsMembers(xs: seq<string>, t: string)
    ensures t in NormalizeTags(xs) <==> t != "" && SomeNormalizesTo(xs, t)
  {
    if |xs| > 0 {
      NormalizeTagsMembers(xs[1..], t);
      SomeMapsToCons(xs, Normalize, t);
    }
  }

  /** The tags that are (`keep`) or are not (`!keep`) in `existing`, in order. */
  function SplitBy(tags: seq<string>, existing: set<string>, keep: bool): (r: seq<string>)
    ensures forall t :: t in r <==> t in tags && (t in existing <==> keep)
    ensures |r| <= |tags|
  {
    if |tags| == 0 then []
    else (if (tags[0] in existing) == keep then [tags[0]] else []) + SplitBy(tags[1..], existing, keep)
  }

  /** Each half keeps the order of the tags: splitting two lists one after the
      other gives the first list's part, then the second's. */
  lemma {:induction false} SplitByAppend(a: seq<string>, b: seq<string>, existing: set<string>, keep: bool)
    ensures SplitBy(a + b, existing, keep) == SplitBy(a, existing, keep) + SplitBy(b, existing, keep)
  {
    if |a| == 0 {
      assert a + b == b;
    } else {
      assert (a + b)[1..] == a[1..] + b;
      SplitByAppend(a[1..], b, existing, keep);
    }
  }

  /** The two halves of a split add up to the whole, with multiplicities. */
  lemma {:induction false} SplitByPartitions(tags: seq<string>, existing: set<string>)
    ensures multiset(SplitBy(tags, existing, true)) + multiset(SplitBy(tags, existing, false)) == multiset(tags)
  {
    if |tags| > 0 {
      var t := tags[1..];
      SplitByPartitions(t, existing);
      assert tags == [tags[0]] + t;
      PartitionStep(tags[0], t, SplitBy(t, existing, true), SplitBy(t, existing, false),
        SplitBy(tags, existing, true), SplitBy(tags, existing, false));
    }
  }

  /** Putting one more element on the front of either half keeps the halves a
      partition of the longer list. */
  lemma PartitionStep<T>(x: T, rest: seq<T>, yes: seq<T>, no: seq<T>, yes1: seq<T>, no1: seq<T>)
    requires multiset(yes) + multiset(no) == multiset(rest)
    requires (yes1 == [x] + yes && no1 == no) || (yes1 == yes && no1 == [x] + no)
    ensures multiset(yes1) + multiset(no1) == multiset([x] + rest)
  {
  }

  /** The old reply format, a bare array: each normalised tag is existing when
      the caller listed it and new otherwise; no name is suggested. */
  function FromArray(items: seq<string>, existing: seq<string>): (r: AnalysisResult)
    ensures var tags := NormalizeTags(items);
      && (forall t :: t in r.existingTags <==> t in tags && t in existing)
      && (forall t :: t in r.newTags <==> t in tags && t !in existing)
      && multiset(r.existingTags) + multiset(r.newTags) == multiset(tags)
    ensures r.suggestedName == None
  {
    var tags := NormalizeTags(items);
    var set_ := set t | t in existing;
    SplitByPartitions(tags, set_);
    AnalysisResult(SplitBy(tags, set_, true), SplitBy(tags, set_, false), None)
  }

  /** Both lists of an array reply keep the order of the items: the tags from
      earlier items come first in each. */
  lemma FromArrayInOrder(a: seq<string>, b: seq<string>, existing: seq<string>)
    ensures FromArray(a + b, existing).existingTags == FromArray(a, existing).existingTags + FromArray(b, existing).existingTags
    ensures FromArray(a + b, existing).newTags == FromArray(a, existing).newTags + FromArray(b, existing).newTags
  {
    var set_ := set t | t in existing;
    NormalizeTagsAppend(a, b);
    SplitByAppend(NormalizeTags(a), NormalizeTags(b), set_, true);
    SplitByAppend(NormalizeTags(a), NormalizeTags(b), set_, false);
  }

  /** The current reply format, an object. A property that is neither absent nor
      an array makes `.map` throw, and the exception yields the fallback. */
  function FromObject(v: Json): (r: AnalysisResult)
    ensures v.JNull? ==> r == Fallback
    ensures v.JObject? && (v.existingTags.NotList? || v.newTags.NotList?) ==> r == Fallback
    ensures v.JObject? && !v.existingTags.NotList? && !v.newTags.NotList? ==>
      r == AnalysisResult(NormalizeTags(ListOrEmpty(v.existingTags)), NormalizeTags(ListOrEmpty(v.newTags)), v.suggestedName)
    ensures v.JArray? || v.JScalar? ==> r == AnalysisResult([], [], None)
  {
    match v
    case JObject(e, n, name) =>
      if e.NotList? || n.NotList? then Fallback
      else AnalysisResult(NormalizeTags(ListOrEmpty(e)), NormalizeTags(ListOrEmpty(n)), name)
    case JNull => Fallback
    case _ => AnalysisResult([], [], None)
  }

  /** `(field ?? [])` */
  function ListOrEmpty(f: Field): (r: seq<string>)
    requires !f.NotList?
    ensures f.Missing? ==> r == []
  {
    if f.Missing? then [] else f.items
  }

  /** The post-processing of `analyzeFile`, from the reply text to the result. */
  function Analyze(content: Option<string>, existing: seq<string>, parse: string -> ParseOutcome): (r: AnalysisResult)
    ensures content.None? || content == Some("") ==> r == Fallback
    ensures r == Fallback || forall t :: t in r.existingTags + r.newTags ==> t != "" && IsNormal(t)
    ensures content.Some? && Span(content.value, '{', '}').None? && Span(content.value, '[', ']').None? ==> r == Fallback
    ensures content.Some? && content.value != "" && Span(content.value, '{', '}').Some? ==>
      r == (match parse(Span(content.value, '{', '}').value)
            case SyntaxError => Fallback
            case Parsed(v) => FromObject(v))
    ensures content.Some? && content.value != "" && Span(content.value, '{', '}').None? && Span(content.value, '[', ']').Some? ==>
      r == (match parse(Span(content.value, '[', ']').value)
            case Parsed(JArray(items)) => FromArray(items, existing)
            case _ => Fallback)
  {
    if content.None? || content.value == "" then Fallback
    else
      var c := content.value;
      match Span(c, '{', '}')
      case Some(o) =>
        (match parse(o)
         case SyntaxError => Fallback
         case Parsed(v) => FromObject(v))
      case None =>
        match Span(c, '[', ']')
        case None => Fallback
        case Some(a) =>
          match parse(a)
          case Parsed(JArray(items)) => FromArray(items, existing)
          case _ => Fallback
  }

  /** When the reply holds an object match, the result depends on the parse of that
      text alone: the array branch is never consulted. */
  lemma ObjectMatchWins(content: string, existing: seq<string>, p1: string -> ParseOutcome, p2: string -> ParseOutcome)
    requires Span(content, '{', '}').Some?
    requires p1(Span(content, '{', '}').value) == p2(Span(content, '{', '}').value)
    requires content != ""
    ensures Analyze(Some(content), existing, p1) == Analyze(Some(content), existing, p2)
  {
  }

  /** A bare-array reply splits the normalised tags into the listed ones and the
      others, keeping each one exactly once, and suggests no name. */
  lemma ArrayReply(content: string, existing: seq<string>, parse: string -> ParseOutcome)
    requires content != ""
    requires Span(content, '{', '}').None? && Span(content, '[', ']').Some?
    requires parse(Span(content, '[', ']').value).Parsed?
    requires parse(Span(content, '[', ']').value).value.JArray?
    ensures var items := parse(Span(content, '[', ']').value).value.items;
      var r := Analyze(Some(content), existing, parse);
      && r.suggestedName == None
      && (forall t :: t in r.existingTags ==> t in existing)
      && (forall t :: t in r.newTags ==> t !in existing)
      && multiset(r.existingTags) + multiset(r.newTags) == multiset(NormalizeTags(items))
  {
  }

  /** The existing-tags paragraph of `buildPrompt`: empty when there are no
      tags, otherwise a line listing them in quotes. */
  function TagListLine(existing: seq<string>): (r: string)
    ensures r == [] <==> |existing| == 0
  {
    if |existing| == 0 then []
    else TagListHead + Join(Quoted(existing), ", ") + TagListTail
  }

  const TagListHead: string := "\nExisting tags in the system: ["
  const TagListTail: string := "]\nPrefer reusing existing tags when relevant, but you can propose new ones if needed.\n"

  /** Each tag wrapped in double quotes. */
  function Quoted(tags: seq<string>): (r: seq<string>)
    ensures |r| == |tags|
    ensures forall k :: 0 <= k < |tags| ==> r[k] == "\"" + tags[k] + "\""
  {
    seq(|tags|, k requires 0 <= k < |tags| => "\"" + tags[k] + "\"")
  }

  /** Every existing tag appears, quoted, in the paragraph. */
  lemma TagListMentionsEveryTag(existing: seq<string>, k: nat)
    requires k < |existing|
    ensures Contains(TagListLine(existing), "\"" + existing[k] + "\"")
  {
    var q := Quoted(existing);
    JoinContains(q, ", ", k);
    ContainsShift(TagListHead, Join(q, ", "), TagListTail, q[k]);
  }
}

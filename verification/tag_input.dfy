/**
 The tag entry field: normalisation and guards on submission, the
 suggestion list drawn from the stored tags, and when the dropdown and the
 add button are live.
 */
module TagInput {
  import opened Text

  datatype TagEntry = TagEntry(id: string, name: string)

  datatype InputState = InputState(value: string, showSuggestions: bool)

  const InitialInput: InputState := InputState("", false)

  /** At most this many suggestions are offered. */
  const MaxSuggestions: nat := 5

  /** A stored tag is suggested when its name contains the lower-cased input
      and it is not already on the file. The tag name itself is not lower-cased. */
  predicate Suggestible(t: TagEntry, value: string, existing: seq<string>) {
    Contains(t.name, Lower(value)) && t.name !in existing
  }

  /** Every suggestible tag, in `listTags` order. */
  function AllSuggestions(all: seq<TagEntry>, value: string, existing: seq<string>): (r: seq<TagEntry>)
    ensures forall t :: t in r <==> t in all && Suggestible(t, value, existing)
  {
    if |all| == 0 then []
    else (if Suggestible(all[0], value, existing) then [all[0]] else []) + AllSuggestions(all[1..], value, existing)
  }

  /** The suggestions keep `listTags` order: suggesting from two lists one
      after the other lists the first list's suggestions first. */
  lemma {:induction false} AllSuggestionsAppend(a: seq<TagEntry>, b: seq<TagEntry>, value: string, existing: seq<string>)
    ensures AllSuggestions(a + b, value, existing) == AllSuggestions(a, value, existing) + AllSuggestions(b, value, existing)
  {
    if |a| == 0 {
      assert a + b == b;
    } else {
      assert (a + b)[1..] == a[1..] + b;
      AllSuggestionsAppend(a[1..], b, value, existing);
    }
  }

  /** `filteredSuggestions`: the first five suggestible tags. */
  function FilteredSuggestions(all: seq<TagEntry>, value: string, existing: seq<string>): (r: seq<TagEntry>)
    ensures |r| == if |AllSuggestions(all, value, existing)| < MaxSuggestions
      then |AllSuggestions(all, value, existing)| else MaxSuggestions
    ensures forall i :: 0 <= i < |r| ==> r[i] == AllSuggestions(all, value, existing)[i]
    ensures forall t :: t in r ==> t in all && Suggestible(t, value, existing)
    ensures |AllSuggestions(all, value, existing)| <= MaxSuggestions ==>
      forall t :: t in all && Suggestible(t, value, existing) ==> t in r
  {
    var s := AllSuggestions(all, value, existing);
    var r := Prefix(s, MaxSuggestions);
    assert forall t :: t in r ==> t in s;
    r
  }

  /** `handleSubmit`: the normalised name is passed on and the field cleared,
      unless it is empty or already on the file, when nothing happens. */
  function Submit(s: InputState, tagName: string, existing: seq<string>): (r: (InputState, Option<string>))
    ensures r.1.Some? <==> Normalize(tagName) != "" && Normalize(tagName) !in existing
    ensures r.1.Some? ==> r.1.value == Normalize(tagName) && r.0 == InputState("", false)
    ensures r.1.None? ==> r.0 == s
  {
    var normalized := Normalize(tagName);
    if normalized != "" && normalized !in existing then (InputState("", false), Some(normalized))
    else (s, None)
  }

  /** Enter submits the current value; other keys do nothing. */
  function KeyDown(s: InputState, isEnter: bool, existing: seq<string>): (r: (InputState, Option<string>))
    ensures isEnter ==> r == Submit(s, s.value, existing)
    ensures !isEnter ==> r == (s, None)
  {
    if isEnter then Submit(s, s.value, existing) else (s, None)
  }

  /** Typing replaces the value and opens the suggestions. */
  function Change(s: InputState, value: string): (r: InputState)
    ensures r.value == value && r.showSuggestions
  {
    InputState(value, true)
  }

  /** The dropdown is drawn when it is open, has entries and the value is not empty. */
  function ShowDropdown(s: InputState, all: seq<TagEntry>, existing: seq<string>): (r: bool)
    ensures r ==> s.value != "" && s.showSuggestions
    ensures r <==> s.showSuggestions && s.value != "" && |FilteredSuggestions(all, s.value, existing)| > 0
  {
    s.showSuggestions && |FilteredSuggestions(all, s.value, existing)| > 0 && s.value != ""
  }

  /** The add button is disabled while the value is only white space. */
  function AddDisabled(value: string): (r: bool)
    ensures r <==> forall i :: 0 <= i < |value| ==> IsSpace(value[i])
  {
    BlankIffAllSpace(value);
    IsBlank(value)
  }

  /** Lower-casing keeps white space and everything else apart, so a value
      normalises to nothing exactly when it is blank. */
  lemma NormalizeEmptyIffBlank(s: string)
    ensures Normalize(s) == "" <==> IsBlank(s)
  {
    BlankIffAllSpace(s);
    BlankIffAllSpace(Lower(s));
  }

  /** The add button is disabled exactly when submitting the value would be
      refused for being empty. */
  lemma DisabledIffEmptyAfterNormalising(value: string)
    ensures AddDisabled(value) <==> Normalize(value) == ""
  {
    NormalizeEmptyIffBlank(value);
  }

  /** Once a tag is accepted, submitting any spelling of it again is refused. */
  lemma SubmitRefusesRepeat(s: InputState, a: string, b: string, existing: seq<string>)
    requires Normalize(a) == Normalize(b)
    requires Submit(s, a, existing).1.Some?
    ensures Submit(s, b, existing + [Normalize(a)]).1.None?
  {
  }
}

/**
 The global search palette: matching files then matching tags, the result
 cursor, and the dispatch of a chosen result to the file or tag callback.
 */
module SearchBar {
  import opened Text
  import opened SearchCommon

  datatype Entry = Entry(id: string, name: string)

  datatype ResultKind = FileResult | TagResult

  datatype SearchResult = SearchResult(id: string, name: string, kind: ResultKind)

  datatype PaletteState = PaletteState(isOpen: bool, query: string, selectedIndex: int)

  const InitialPalette: PaletteState := PaletteState(false, "", 0)

  /** At most this many results are listed. */
  const MaxListed: nat := 15

  function EntryName(e: Entry): string {
    e.name
  }

  function AsResults(entries: seq<Entry>, kind: ResultKind): (r: seq<SearchResult>)
    ensures |r| == |entries|
    ensures forall i :: 0 <= i < |r| ==> r[i] == SearchResult(entries[i].id, entries[i].name, kind)
  {
    seq(|entries|, i requires 0 <= i < |entries| => SearchResult(entries[i].id, entries[i].name, kind))
  }

  /** `results`: nothing for a blank query; otherwise the grouped matches. */
  function Results(files: seq<Entry>, tags: seq<Entry>, query: string): (r: seq<SearchResult>)
    ensures IsBlank(query) ==> r == []
    ensures !IsBlank(query) ==> r == Grouped(files, tags, query)
  {
    if IsBlank(query) then [] else Grouped(files, tags, query)
  }

  /** The matching files, then the matching tags. */
  function Grouped(files: seq<Entry>, tags: seq<Entry>, query: string): (r: seq<SearchResult>)
    ensures var fs := MatchFilter(files, EntryName, query);
      var ts := MatchFilter(tags, EntryName, query);
      |r| == |fs| + |ts|
      && (forall i :: 0 <= i < |fs| ==> r[i] == SearchResult(fs[i].id, fs[i].name, FileResult))
      && (forall j :: 0 <= j < |ts| ==> r[|fs| + j] == SearchResult(ts[j].id, ts[j].name, TagResult))
  {
    var a := AsResults(MatchFilter(files, EntryName, query), FileResult);
    var b := AsResults(MatchFilter(tags, EntryName, query), TagResult);
    assert forall j :: 0 <= j < |b| ==> (a + b)[|a| + j] == b[j];
    a + b
  }

  /** Every result comes from an entry of its own kind whose name matches, and
      no file result comes after a tag result. */
  lemma ResultsAreMatches(files: seq<Entry>, tags: seq<Entry>, query: string)
    ensures var r := Results(files, tags, query);
      && (forall i :: 0 <= i < |r| && r[i].kind == FileResult ==>
            Entry(r[i].id, r[i].name) in files && MatchesQuery(r[i].name, query))
      && (forall i :: 0 <= i < |r| && r[i].kind == TagResult ==>
            Entry(r[i].id, r[i].name) in tags && MatchesQuery(r[i].name, query))
      && (forall i, j :: 0 <= i < j < |r| && r[i].kind == TagResult ==> r[j].kind == TagResult)
  {
    var r := Results(files, tags, query);
    if !IsBlank(query) {
      var fs := MatchFilter(files, EntryName, query);
      var ts := MatchFilter(tags, EntryName, query);
      forall i | 0 <= i < |r|
        ensures r[i].kind == FileResult ==> Entry(r[i].id, r[i].name) in files && MatchesQuery(r[i].name, query)
        ensures r[i].kind == TagResult ==> Entry(r[i].id, r[i].name) in tags && MatchesQuery(r[i].name, query)
      {
        if i < |fs| {
          assert fs[i] in fs;
          assert Entry(r[i].id, r[i].name) == fs[i];
        } else {
          assert ts[i - |fs|] in ts;
          assert Entry(r[i].id, r[i].name) == ts[i - |fs|];
        }
      }
    }
  }

  /** A query change puts the cursor back on the first result. */
  function SetQuery(s: PaletteState, query: string): (r: PaletteState)
    ensures r.query == query && r.isOpen == s.isOpen
    ensures query != s.query ==> r.selectedIndex == 0
    ensures query == s.query ==> r == s
  {
    if query == s.query then s else s.(query := query, selectedIndex := 0)
  }

  /** The callback a chosen result triggers. */
  datatype Selection = FileSelected(fileId: string) | TagSelected(tagId: string)

  /** `handleSelect`: dispatches on the kind, then closes and clears the query. */
  function Select(s: PaletteState, result: SearchResult): (r: (PaletteState, Selection))
    ensures result.kind == FileResult <==> r.1 == FileSelected(result.id)
    ensures result.kind == TagResult <==> r.1 == TagSelected(result.id)
    ensures !r.0.isOpen && r.0.query == ""
  {
    (SetQuery(s, "").(isOpen := false), if result.kind == FileResult then FileSelected(result.id) else TagSelected(result.id))
  }

  datatype InputKey = Down | Up | EnterKey | OtherInputKey

  /** The input's `handleKeyDown`; Enter selects the result under the cursor if there is one. */
  function InputKeyDown(files: seq<Entry>, tags: seq<Entry>, s: PaletteState, key: InputKey): (r: (PaletteState, Option<Selection>))
    ensures var rs := Results(files, tags, s.query);
      && (key == Down ==> r == (s.(selectedIndex := CursorDown(s.selectedIndex, |rs|)), None))
      && (key == Up ==> r == (s.(selectedIndex := CursorUp(s.selectedIndex)), None))
      && (key == EnterKey && 0 <= s.selectedIndex < |rs| ==>
            r.1 == Some(Select(s, rs[s.selectedIndex]).1) && !r.0.isOpen && r.0.query == "")
      && (key == EnterKey && !(0 <= s.selectedIndex < |rs|) ==> r == (s, None))
      && (key == OtherInputKey ==> r == (s, None))
  {
    var rs := Results(files, tags, s.query);
    match key
    case Down => (s.(selectedIndex := CursorDown(s.selectedIndex, |rs|)), None)
    case Up => (s.(selectedIndex := CursorUp(s.selectedIndex)), None)
    case EnterKey =>
      if 0 <= s.selectedIndex < |rs| then
        var (s', sel) := Select(s, rs[s.selectedIndex]);
        (s', Some(sel))
      else (s, None)
    case OtherInputKey => (s, None)
  }

  /** `handleClose` */
  function Close(s: PaletteState): (r: PaletteState)
    ensures !r.isOpen && r.query == ""
    ensures s.query != "" ==> r.selectedIndex == 0
  {
    SetQuery(s, "").(isOpen := false)
  }

  datatype GlobalKey = GlobalKey(key: string, ctrlOrMeta: bool)

  /** The document-level listener: Ctrl/Cmd+K opens, Escape closes an open palette. */
  function GlobalKeyDown(s: PaletteState, k: GlobalKey): (r: PaletteState)
    ensures k.key == "k" && k.ctrlOrMeta ==> r == s.(isOpen := true)
    ensures k.key == "Escape" && s.isOpen ==> r == Close(s)
    ensures k.key != "Escape" && !(k.key == "k" && k.ctrlOrMeta) ==> r == s
    ensures k.key == "Escape" && !s.isOpen ==> r == s
  {
    if k.ctrlOrMeta && k.key == "k" then s.(isOpen := true)
    else if k.key == "Escape" && s.isOpen then Close(s)
    else s
  }

  /** The rows drawn: the first fifteen results. */
  function ListedResults(files: seq<Entry>, tags: seq<Entry>, s: PaletteState): (r: seq<SearchResult>)
    ensures |r| == if |Results(files, tags, s.query)| < MaxListed then |Results(files, tags, s.query)| else MaxListed
    ensures forall i :: 0 <= i < |r| ==> r[i] == Results(files, tags, s.query)[i]
  {
    Prefix(Results(files, tags, s.query), MaxListed)
  }
}

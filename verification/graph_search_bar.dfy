/**
 The search box over the graph: the matching nodes, the ids it asks the graph
 to highlight, the result cursor and the open/close transitions.
 */
module GraphSearchBar {
  import opened Text
  import opened GraphView
  import opened SearchCommon

  datatype SearchNode = SearchNode(id: string, name: string, kind: NodeKind)

  datatype BarState = BarState(query: string, isOpen: bool, selectedIndex: int)

  const InitialBar: BarState := BarState("", false, 0)

  /** At most this many matches are listed. */
  const MaxListed: nat := 10

  function NodeName(n: SearchNode): string {
    n.name
  }

  /** `filteredNodes`: no match for a blank query, else the nodes whose name
      contains the query, case-insensitively, in input order. */
  function FilteredNodes(nodes: seq<SearchNode>, query: string): (r: seq<SearchNode>)
    ensures IsBlank(query) ==> r == []
    ensures !IsBlank(query) ==> forall n :: n in r <==> n in nodes && MatchesQuery(n.name, query)
    ensures |r| <= |nodes|
  {
    if IsBlank(query) then [] else MatchFilter(nodes, NodeName, query)
  }

  /** The ids handed to `onHighlight` for a query. */
  function HighlightIds(nodes: seq<SearchNode>, query: string): (r: seq<string>)
    ensures |r| == |FilteredNodes(nodes, query)|
    ensures forall i :: 0 <= i < |r| ==> r[i] == FilteredNodes(nodes, query)[i].id
    ensures IsBlank(query) ==> r == []
  {
    var f := FilteredNodes(nodes, query);
    seq(|f|, i requires 0 <= i < |f| => f[i].id)
  }

  /** A node id is highlighted exactly when the query is not blank and the node's name matches it. */
  lemma HighlightIffMatch(nodes: seq<SearchNode>, query: string, n: SearchNode)
    requires n in nodes
    ensures n.id in HighlightIds(nodes, query) <== !IsBlank(query) && MatchesQuery(n.name, query)
    ensures IsBlank(query) ==> n.id !in HighlightIds(nodes, query)
  {
    var f := FilteredNodes(nodes, query);
    if !IsBlank(query) && MatchesQuery(n.name, query) {
      var i :| 0 <= i < |f| && f[i] == n;
      assert HighlightIds(nodes, query)[i] == n.id;
    }
  }

  /** What the query effect reports: the highlight list and the `onSearch` text. */
  datatype Emission = Emission(highlight: seq<string>, search: string)

  function QueryEmission(nodes: seq<SearchNode>, query: string): (e: Emission)
    ensures IsBlank(query) ==> e == Emission([], "")
    ensures !IsBlank(query) ==> e.search == query && e.highlight == HighlightIds(nodes, query)
  {
    if IsBlank(query) then Emission([], "") else Emission(HighlightIds(nodes, query), query)
  }

  datatype Update = Update(state: BarState, emission: Option<Emission>)

  /** Typing: the effect re-runs, and the cursor returns to 0, when the query
      or the number of matches changes. */
  function SetQuery(nodes: seq<SearchNode>, s: BarState, query: string): (u: Update)
    ensures u.state.query == query && u.state.isOpen == s.isOpen
    ensures query != s.query ==> u.state.selectedIndex == 0 && u.emission == Some(QueryEmission(nodes, query))
    ensures query == s.query ==> u == Update(s, None)
  {
    var changed := query != s.query || |FilteredNodes(nodes, query)| != |FilteredNodes(nodes, s.query)|;
    if changed then Update(s.(query := query, selectedIndex := 0), Some(QueryEmission(nodes, query)))
    else Update(s.(query := query), None)
  }

  /** The node list changed under a fixed query. */
  function NodesChanged(before: seq<SearchNode>, after: seq<SearchNode>, s: BarState): (u: Update)
    ensures |FilteredNodes(before, s.query)| == |FilteredNodes(after, s.query)| ==> u == Update(s, None)
    ensures |FilteredNodes(before, s.query)| != |FilteredNodes(after, s.query)| ==>
      u == Update(s.(selectedIndex := 0), Some(QueryEmission(after, s.query)))
  {
    if |FilteredNodes(before, s.query)| != |FilteredNodes(after, s.query)|
    then Update(s.(selectedIndex := 0), Some(QueryEmission(after, s.query)))
    else Update(s, None)
  }

  datatype InputKey = Down | Up | EnterKey | OtherInputKey

  /** The input's `handleKeyDown`; the second component is the node to centre. */
  function InputKeyDown(nodes: seq<SearchNode>, s: BarState, key: InputKey): (r: (BarState, Option<string>))
    ensures key == Down ==> r == (s.(selectedIndex := CursorDown(s.selectedIndex, |FilteredNodes(nodes, s.query)|)), None)
    ensures key == Up ==> r == (s.(selectedIndex := CursorUp(s.selectedIndex)), None)
    ensures key == EnterKey ==> r.0 == s
    ensures key == EnterKey ==>
      var f := FilteredNodes(nodes, s.query);
      r.1 == (if 0 <= s.selectedIndex < |f| then Some(f[s.selectedIndex].id) else None)
    ensures key == OtherInputKey ==> r == (s, None)
  {
    var f := FilteredNodes(nodes, s.query);
    match key
    case Down => (s.(selectedIndex := CursorDown(s.selectedIndex, |f|)), None)
    case Up => (s.(selectedIndex := CursorUp(s.selectedIndex)), None)
    case EnterKey => (s, if 0 <= s.selectedIndex < |f| then Some(f[s.selectedIndex].id) else None)
    case OtherInputKey => (s, None)
  }

  /** `handleClose`: closes, clears the query and empties the highlight. */
  function Close(s: BarState): (r: (BarState, seq<string>))
    ensures !r.0.isOpen && r.0.query == "" && r.1 == []
  {
    (s.(isOpen := false, query := ""), [])
  }

  datatype GlobalKey = GlobalKey(key: string, ctrlOrMeta: bool)

  /** The document-level listener: Ctrl/Cmd+F opens, Escape closes an open bar.
      The second component is the highlight list emitted, if any. */
  function GlobalKeyDown(s: BarState, k: GlobalKey): (r: (BarState, Option<seq<string>>))
    ensures k.key == "Escape" && s.isOpen ==> !r.0.isOpen && r.0.query == "" && r.1 == Some([])
    ensures k.key == "f" && k.ctrlOrMeta ==> r.0 == s.(isOpen := true) && r.1 == None
    ensures k.key != "Escape" && !(k.key == "f" && k.ctrlOrMeta) ==> r == (s, None)
    ensures k.key == "Escape" && !s.isOpen ==> r == (s, None)
  {
    if k.ctrlOrMeta && k.key == "f" then (s.(isOpen := true), None)
    else if k.key == "Escape" && s.isOpen then (Close(s).0, Some([]))
    else (s, None)
  }

  /** Closing leaves a blank query, so the query effect then also reports no highlight. */
  lemma CloseClearsHighlight(nodes: seq<SearchNode>, s: BarState)
    ensures QueryEmission(nodes, Close(s).0.query) == Emission([], "")
  {
    assert IsBlank("");
  }

  /** The rows drawn under the box: the first ten matches. */
  function ListedMatches(nodes: seq<SearchNode>, s: BarState): (r: seq<SearchNode>)
    ensures |r| <= MaxListed
    ensures |r| == if |FilteredNodes(nodes, s.query)| < MaxListed then |FilteredNodes(nodes, s.query)| else MaxListed
    ensures forall i :: 0 <= i < |r| ==> r[i] == FilteredNodes(nodes, s.query)[i]
  {
    Prefix(FilteredNodes(nodes, s.query), MaxListed)
  }
}

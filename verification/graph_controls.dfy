/**
 The hover state of the graph: the adjacency map built from the links, the
 one-hop highlight of the hovered node, and the opacity rules that dim
 everything else. A link key "a-b" is modelled as the ordered pair (a, b);
 the string form is the same key as long as ids contain no '-'.
 */
module GraphControls {
  import opened Text
  import opened GraphView

  type Adjacency = map<string, set<string>>

  /** A nullable id the source tests for truthiness: "" counts as absent. */
  predicate IsPresent(id: Option<string>) {
    id.Some? && id.value != ""
  }

  /** The id is an end of some link. */
  ghost predicate IsEndpoint(links: seq<Link>, a: string) {
    exists l :: l in links && (l.source == a || l.target == a)
  }

  /** Some link joins a and b, in either direction. */
  ghost predicate Joined(links: seq<Link>, a: string, b: string) {
    Link(a, b) in links || Link(b, a) in links
  }

  /** One `forEach` step: both ends become keys, each is added to the other's set. */
  function AddLink(m: Adjacency, l: Link): (r: Adjacency)
    ensures r.Keys == m.Keys + {l.source, l.target}
    ensures forall a, b :: a in r ==> (b in r[a] <==>
      (a in m && b in m[a]) || (a == l.source && b == l.target) || (a == l.target && b == l.source))
  {
    var m1 := if l.source in m then m else m[l.source := {}];
    var m2 := if l.target in m1 then m1 else m1[l.target := {}];
    var m3 := m2[l.source := m2[l.source] + {l.target}];
    m3[l.target := m3[l.target] + {l.source}]
  }

  /** The `adjacencyMap` memo: links folded in order into an undirected neighbour map. */
  function BuildAdjacency(links: seq<Link>): (m: Adjacency)
    ensures forall a :: a in m <==> IsEndpoint(links, a)
    ensures forall a, b :: a in m ==> (b in m[a] <==> Joined(links, a, b))
  {
    if |links| == 0 then map[]
    else
      var init := links[..|links| - 1];
      var last := links[|links| - 1];
      SnocMembers(links);
      EndpointSnoc(links, init, last);
      JoinedSnoc(links, init, last);
      AddLink(BuildAdjacency(init), last)
  }

  /** The members of a non-empty sequence: those before the last, and the last. */
  lemma SnocMembers<T>(s: seq<T>)
    requires |s| > 0
    ensures forall x :: x in s <==> x in s[..|s| - 1] || x == s[|s| - 1]
  {
    assert s == s[..|s| - 1] + [s[|s| - 1]];
  }

  lemma EndpointSnoc(links: seq<Link>, init: seq<Link>, last: Link)
    requires forall l :: l in links <==> l in init || l == last
    ensures forall a :: IsEndpoint(links, a) <==> IsEndpoint(init, a) || a == last.source || a == last.target
  {
  }

  lemma JoinedSnoc(links: seq<Link>, init: seq<Link>, last: Link)
    requires forall l :: l in links <==> l in init || l == last
    ensures forall a, b :: Joined(links, a, b) <==>
      Joined(init, a, b) || (a == last.source && b == last.target) || (a == last.target && b == last.source)
  {
  }

  /** The map is symmetric: b is a neighbour of a exactly when a is a neighbour of b. */
  lemma AdjacencySymmetric(links: seq<Link>, a: string, b: string)
    ensures var m := BuildAdjacency(links);
      (a in m && b in m[a]) <==> (b in m && a in m[b])
  {
    var m := BuildAdjacency(links);
    if a in m && b in m[a] {
      var l :| l in links && ((l.source == a && l.target == b) || (l.source == b && l.target == a));
      assert IsEndpoint(links, b);
    }
    if b in m && a in m[b] {
      var l :| l in links && ((l.source == a && l.target == b) || (l.source == b && l.target == a));
      assert IsEndpoint(links, a);
    }
  }

  /** The map only depends on which links there are, not on their order or repetition. */
  lemma AdjacencyDependsOnLinkSet(links1: seq<Link>, links2: seq<Link>)
    requires forall l :: l in links1 <==> l in links2
    ensures BuildAdjacency(links1) == BuildAdjacency(links2)
  {
    var m1 := BuildAdjacency(links1);
    var m2 := BuildAdjacency(links2);
    assert forall a :: IsEndpoint(links1, a) <==> IsEndpoint(links2, a);
    assert m1.Keys == m2.Keys;
    forall a | a in m1 ensures m1[a] == m2[a] {
      assert forall b :: Joined(links1, a, b) <==> Joined(links2, a, b);
    }
  }

  /** The neighbours of an id, empty when the id is not a key. */
  function Neighbors(m: Adjacency, id: string): (r: set<string>)
    ensures id in m ==> r == m[id]
    ensures id !in m ==> r == {}
  {
    if id in m then m[id] else {}
  }

  datatype Highlight = Highlight(nodes: set<string>, links: set<(string, string)>)

  /** The highlight memo: the hovered node, its direct neighbours, and both
      orientations of every link key between them. */
  function ComputeHighlight(hovered: Option<string>, m: Adjacency): (h: Highlight)
    ensures !IsPresent(hovered) ==> h.nodes == {} && h.links == {}
    ensures IsPresent(hovered) ==> hovered.value in h.nodes
    ensures IsPresent(hovered) ==> forall n :: n in h.nodes <==> n == hovered.value || n in Neighbors(m, hovered.value)
    ensures IsPresent(hovered) ==> forall a, b :: (a, b) in h.links <==>
      (a == hovered.value && b in Neighbors(m, hovered.value)) || (b == hovered.value && a in Neighbors(m, hovered.value))
  {
    if !IsPresent(hovered) then Highlight({}, {})
    else
      var hv := hovered.value;
      var ns := Neighbors(m, hv);
      Highlight({hv} + ns, (set n | n in ns :: (hv, n)) + (set n | n in ns :: (n, hv)))
  }

  /** Hovering a node of the drawn graph highlights it and exactly the nodes one link away. */
  lemma HighlightIsOneHop(links: seq<Link>, hovered: string, n: string)
    requires hovered != ""
    ensures var h := ComputeHighlight(Some(hovered), BuildAdjacency(links));
      n in h.nodes <==> n == hovered || Joined(links, hovered, n)
  {
  }

  /** `getNodeOpacity` */
  function NodeOpacity(nodeId: string, hovered: Option<string>, h: Highlight): (r: real)
    ensures r == 1.0 <==> !IsPresent(hovered) || nodeId in h.nodes
    ensures r == 1.0 || r == 0.3
  {
    if !IsPresent(hovered) then 1.0
    else if nodeId in h.nodes then 1.0
    else 0.3
  }

  /** `getLinkOpacity` */
  function LinkOpacity(source: string, target: string, hovered: Option<string>, h: Highlight): (r: real)
    ensures r == 0.5 <==> !IsPresent(hovered)
    ensures r == 1.0 <==> IsPresent(hovered) && ((source, target) in h.links || (target, source) in h.links)
    ensures r == 0.1 <==> IsPresent(hovered) && (source, target) !in h.links && (target, source) !in h.links
  {
    if !IsPresent(hovered) then 0.5
    else if (source, target) in h.links || (target, source) in h.links then 1.0
    else 0.1
  }

  lemma LinkOpacitySymmetric(source: string, target: string, hovered: Option<string>, h: Highlight)
    ensures LinkOpacity(source, target, hovered, h) == LinkOpacity(target, source, hovered, h)
  {
  }

  /** While a node is hovered, a link of the graph is at full opacity exactly
      when the hovered node is one of its ends, and faded otherwise. */
  lemma LinkOpacityOfGraphLink(links: seq<Link>, hovered: string, l: Link)
    requires hovered != "" && l in links
    ensures var h := ComputeHighlight(Some(hovered), BuildAdjacency(links));
      LinkOpacity(l.source, l.target, Some(hovered), h) == (if l.source == hovered || l.target == hovered then 1.0 else 0.1)
  {
    var m := BuildAdjacency(links);
    assert IsEndpoint(links, l.source) && IsEndpoint(links, l.target);
    assert l.target in m[l.source] && l.source in m[l.target];
  }

  /** `isNodeHighlighted` */
  function IsNodeHighlighted(nodeId: string, h: Highlight): (r: bool)
    ensures r <==> nodeId in h.nodes
    ensures r ==> forall hovered :: NodeOpacity(nodeId, hovered, h) == 1.0
  {
    nodeId in h.nodes
  }

  datatype ControlsState = ControlsState(zoomLevel: real, hovered: Option<string>, selected: Option<string>)

  const InitialControls: ControlsState := ControlsState(1.0, None, None)

  /** `handleNodeHover`: replaces the hovered node, never accumulates. */
  function HandleNodeHover(s: ControlsState, id: Option<string>): (r: ControlsState)
    ensures r.hovered == id
    ensures r.selected == s.selected && r.zoomLevel == s.zoomLevel
  {
    s.(hovered := id)
  }

  /** `handleNodeSelect` */
  function HandleNodeSelect(s: ControlsState, id: Option<string>): (r: ControlsState)
    ensures r.selected == id
    ensures r.hovered == s.hovered && r.zoomLevel == s.zoomLevel
  {
    s.(selected := id)
  }

  /** `handleZoom` */
  function HandleZoom(s: ControlsState, zoom: real): (r: ControlsState)
    ensures r.zoomLevel == zoom
    ensures r.hovered == s.hovered && r.selected == s.selected
  {
    s.(zoomLevel := zoom)
  }
}

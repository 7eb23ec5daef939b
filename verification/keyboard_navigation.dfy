/**
 Keyboard traversal of the graph as a transition function over the pair
 (selected node id, selected index). Tab cycles through the whole node list;
 the arrow keys move from the selected node to one of its neighbours.
 */
module KeyboardNavigation {
  import opened Text
  import opened GraphView
  import opened GraphControls

  datatype NavNode = NavNode(id: string, kind: NodeKind)

  datatype NavState = NavState(selectedNodeId: Option<string>, selectedIndex: nat)

  const InitialNav: NavState := NavState(None, 0)

  datatype Key =
    | Escape
    | Tab(shift: bool)
    | Enter
    | ArrowUp
    | ArrowDown
    | ArrowLeft
    | ArrowRight
    | OtherKey

  /** Calls the handler makes to its callbacks. */
  datatype Effect = NodeSelected(selection: Option<string>) | PreviewOpened(nodeId: string)

  datatype Step = Step(state: NavState, effects: seq<Effect>)

  /** `getConnectedNodes`: the nodes, in display order, whose ids neighbour `id`. */
  function ConnectedNodes(nodes: seq<NavNode>, m: Adjacency, id: string): (r: seq<NavNode>)
    ensures id !in m ==> r == []
    ensures forall n :: n in r <==> n in nodes && id in m && n.id in m[id]
    ensures |r| <= |nodes|
  {
    if id !in m then [] else KeepNeighbours(nodes, m[id])
  }

  /** `nodes.filter((n) => connected.has(n.id))` */
  function KeepNeighbours(nodes: seq<NavNode>, connected: set<string>): (r: seq<NavNode>)
    ensures forall n :: n in r <==> n in nodes && n.id in connected
    ensures |r| <= |nodes|
  {
    if |nodes| == 0 then []
    else (if nodes[0].id in connected then [nodes[0]] else []) + KeepNeighbours(nodes[1..], connected)
  }

  /** The filter keeps display order: filtering two lists one after the other
      gives the first list's neighbours, then the second's. */
  lemma {:induction false} KeepNeighboursAppend(a: seq<NavNode>, b: seq<NavNode>, connected: set<string>)
    ensures KeepNeighbours(a + b, connected) == KeepNeighbours(a, connected) + KeepNeighbours(b, connected)
  {
    if |a| == 0 {
      assert a + b == b;
    } else {
      assert (a + b)[1..] == a[1..] + b;
      KeepNeighboursAppend(a[1..], b, connected);
    }
  }

  /** The neighbours come in display order: the neighbours among the first
      nodes drawn precede those among the later ones. */
  lemma ConnectedNodesInOrder(a: seq<NavNode>, b: seq<NavNode>, m: Adjacency, id: string)
    ensures ConnectedNodes(a + b, m, id) == ConnectedNodes(a, m, id) + ConnectedNodes(b, m, id)
  {
    if id in m {
      KeepNeighboursAppend(a, b, m[id]);
    }
  }

  /** `findIndex((n) => n.id === id)`: the first position holding `id`, or -1. */
  function FindIndex(nodes: seq<NavNode>, id: string): (r: int)
    ensures -1 <= r < |nodes|
    ensures r == -1 <==> forall k :: 0 <= k < |nodes| ==> nodes[k].id != id
    ensures r >= 0 ==> nodes[r].id == id && forall k :: 0 <= k < r ==> nodes[k].id != id
  {
    if |nodes| == 0 then -1
    else if nodes[0].id == id then 0
    else
      var r := FindIndex(nodes[1..], id);
      if r == -1 then -1 else r + 1
  }

  /** `nodes.find((n) => n.id === id)` */
  function FindNode(nodes: seq<NavNode>, id: string): (r: Option<NavNode>)
    ensures r.Some? <==> exists k :: 0 <= k < |nodes| && nodes[k].id == id
    ensures r.Some? ==> r.value in nodes && r.value.id == id
  {
    var i := FindIndex(nodes, id);
    if i == -1 then None else Some(nodes[i])
  }

  /** The Tab step: forward wraps after the last node, Shift+Tab before the first. */
  function TabIndex(i: nat, n: nat, shift: bool): (r: nat)
    requires n > 0
    ensures r < n
    ensures i < n ==> (if shift then (if i == 0 then r == n - 1 else r == i - 1) else (if i == n - 1 then r == 0 else r == i + 1))
  {
    if i < n then
      SmallMod(i + 1, n);
      SmallMod(i - 1 + n, n);
      if shift then (i - 1 + n) % n else (i + 1) % n
    else if shift then (i - 1 + n) % n else (i + 1) % n
  }

  /** Tab and Shift+Tab undo each other. */
  lemma TabThenShiftTab(i: nat, n: nat)
    requires i < n
    ensures TabIndex(TabIndex(i, n, false), n, true) == i
    ensures TabIndex(TabIndex(i, n, true), n, false) == i
  {
  }

  /** Whether an arrow key moves forwards through the neighbours. */
  predicate IsForward(key: Key) {
    key == ArrowDown || key == ArrowRight
  }

  predicate IsArrow(key: Key) {
    key == ArrowUp || key == ArrowDown || key == ArrowLeft || key == ArrowRight
  }

  lemma SmallMod(x: int, n: int)
    requires 0 < n && 0 <= x < 2 * n
    ensures x % n == (if x < n then x else x - n)
  {
    if x >= n {
      assert x == 1 * n + (x - n);
    }
  }

  /** The neighbour an arrow key picks: the next (or previous) one after the
      selected node's own place in the list, or the first (or last) when it has none. */
  function ArrowIndex(current: int, len: nat, forward: bool): (r: nat)
    requires len > 0 && -1 <= current < len
    ensures r < len
    ensures current == -1 ==> r == (if forward then 0 else len - 1)
    ensures current >= 0 && forward ==> r == (if current == len - 1 then 0 else current + 1)
    ensures current >= 0 && !forward ==> r == (if current == 0 then len - 1 else current - 1)
  {
    if current == -1 then (if forward then 0 else len - 1)
    else
      SmallMod(current + 1, len);
      SmallMod(current - 1 + len, len);
      if forward then (current + 1) % len else (current - 1 + len) % len
  }

  /** The arrow-key branch once a node is selected. */
  function ArrowMove(nodes: seq<NavNode>, m: Adjacency, s: NavState, selected: string, forward: bool): (r: Step)
  {
    var connected := ConnectedNodes(nodes, m, selected);
    if |connected| == 0 then Step(s, [])
    else
      var next := connected[ArrowIndex(FindIndex(connected, selected), |connected|, forward)];
      var global := FindIndex(nodes, next.id);
      Step(NavState(Some(next.id), if global != -1 then global else s.selectedIndex), [NodeSelected(Some(next.id))])
  }

  /** `handleKeyDown`, for key events whose target is not a text field. */
  function HandleKey(enabled: bool, nodes: seq<NavNode>, m: Adjacency, s: NavState, key: Key): (r: Step)
    ensures !enabled ==> r == Step(s, [])
    ensures enabled && key == Escape ==>
      r.state == NavState(None, s.selectedIndex) && r.effects == [NodeSelected(None)]
    ensures enabled && key.Tab? && |nodes| == 0 ==> r == Step(s, [])
    ensures enabled && key.Tab? && |nodes| > 0 ==>
      var i := TabIndex(s.selectedIndex, |nodes|, key.shift);
      r.state == NavState(Some(nodes[i].id), i) && r.effects == [NodeSelected(Some(nodes[i].id))]
    ensures enabled && key == Enter ==> r.state == s
    ensures enabled && key == Enter ==>
      (r.effects != [] <==> IsPresent(s.selectedNodeId) && FindNode(nodes, s.selectedNodeId.value).Some?
                            && FindNode(nodes, s.selectedNodeId.value).value.kind == FileKind)
    ensures enabled && key == Enter && r.effects != [] ==> r.effects == [PreviewOpened(s.selectedNodeId.value)]
    ensures enabled && IsArrow(key) && !IsPresent(s.selectedNodeId) ==>
      r == (if |nodes| > 0 then Step(s.(selectedNodeId := Some(nodes[0].id)), [NodeSelected(Some(nodes[0].id))]) else Step(s, []))
    ensures key == OtherKey ==> r == Step(s, [])
  {
    if !enabled then Step(s, [])
    else match key
      case Escape => Step(s.(selectedNodeId := None), [NodeSelected(None)])
      case Tab(shift) =>
        if |nodes| == 0 then Step(s, [])
        else
          var i := TabIndex(s.selectedIndex, |nodes|, shift);
          Step(NavState(Some(nodes[i].id), i), [NodeSelected(Some(nodes[i].id))])
      case Enter =>
        if IsPresent(s.selectedNodeId) then
          var node := FindNode(nodes, s.selectedNodeId.value);
          if node.Some? && node.value.kind == FileKind then Step(s, [PreviewOpened(s.selectedNodeId.value)])
          else Step(s, [])
        else Step(s, [])
      case OtherKey => Step(s, [])
      case _ =>
        if !IsPresent(s.selectedNodeId) then
          if |nodes| > 0 then Step(s.(selectedNodeId := Some(nodes[0].id)), [NodeSelected(Some(nodes[0].id))])
          else Step(s, [])
        else ArrowMove(nodes, m, s, s.selectedNodeId.value, IsForward(key))
  }

  lemma ArrowDispatch(nodes: seq<NavNode>, m: Adjacency, s: NavState, key: Key)
    requires IsArrow(key) && IsPresent(s.selectedNodeId)
    ensures HandleKey(true, nodes, m, s, key) == ArrowMove(nodes, m, s, s.selectedNodeId.value, IsForward(key))
  {
    match key
    case ArrowUp =>
    case ArrowDown =>
    case ArrowLeft =>
    case ArrowRight =>
  }

  /** An arrow key on a selected node either leaves the state alone (the node has
      no drawn neighbour) or selects a neighbour of it, and then the index is the
      neighbour's place in the node list. */
  lemma ArrowSelectsNeighbour(nodes: seq<NavNode>, m: Adjacency, s: NavState, key: Key)
    requires IsArrow(key) && IsPresent(s.selectedNodeId)
    ensures var sel := s.selectedNodeId.value;
      var r := HandleKey(true, nodes, m, s, key);
      && (|ConnectedNodes(nodes, m, sel)| == 0 <==> r == Step(s, []))
      && (|ConnectedNodes(nodes, m, sel)| > 0 ==>
           && r.state.selectedNodeId.Some?
           && sel in m && r.state.selectedNodeId.value in m[sel]
           && r.state.selectedIndex < |nodes|
           && nodes[r.state.selectedIndex].id == r.state.selectedNodeId.value
           && r.effects == [NodeSelected(r.state.selectedNodeId)])
  {
    ArrowDispatch(nodes, m, s, key);
    var sel := s.selectedNodeId.value;
    var connected := ConnectedNodes(nodes, m, sel);
    if |connected| > 0 {
      var next := connected[ArrowIndex(FindIndex(connected, sel), |connected|, IsForward(key))];
      assert next in connected;
      assert next in nodes;
      var k :| 0 <= k < |nodes| && nodes[k] == next;
      assert FindIndex(nodes, next.id) != -1;
    }
  }

  /** Without a self-link the selected node is not among its own neighbours, so
      Down/Right always pick the first neighbour in display order and Up/Left the last. */
  lemma ArrowWithoutSelfLink(nodes: seq<NavNode>, m: Adjacency, s: NavState, key: Key)
    requires IsArrow(key) && IsPresent(s.selectedNodeId)
    requires var sel := s.selectedNodeId.value; sel in m && sel !in m[sel]
    requires |ConnectedNodes(nodes, m, s.selectedNodeId.value)| > 0
    ensures var connected := ConnectedNodes(nodes, m, s.selectedNodeId.value);
      HandleKey(true, nodes, m, s, key).state.selectedNodeId
        == Some(if IsForward(key) then connected[0].id else connected[|connected| - 1].id)
  {
    ArrowDispatch(nodes, m, s, key);
    var sel := s.selectedNodeId.value;
    var connected := ConnectedNodes(nodes, m, sel);
    assert FindIndex(connected, sel) == -1;
  }

  /** With a self-link the node sits in its own neighbour list and the arrows
      cycle through that list, wrapping at both ends. */
  lemma ArrowCyclesWithSelfLink(nodes: seq<NavNode>, m: Adjacency, s: NavState, key: Key)
    requires IsArrow(key) && IsPresent(s.selectedNodeId)
    requires var sel := s.selectedNodeId.value; FindIndex(ConnectedNodes(nodes, m, sel), sel) != -1
    ensures var sel := s.selectedNodeId.value;
      var connected := ConnectedNodes(nodes, m, sel);
      var c := FindIndex(connected, sel);
      var len := |connected|;
      HandleKey(true, nodes, m, s, key).state.selectedNodeId
        == Some(connected[if IsForward(key) then (if c == len - 1 then 0 else c + 1)
                          else (if c == 0 then len - 1 else c - 1)].id)
  {
    ArrowDispatch(nodes, m, s, key);
    ArrowMoveCycles(nodes, m, s, s.selectedNodeId.value, IsForward(key));
  }

  lemma ArrowMoveCycles(nodes: seq<NavNode>, m: Adjacency, s: NavState, sel: string, forward: bool)
    requires FindIndex(ConnectedNodes(nodes, m, sel), sel) != -1
    ensures var connected := ConnectedNodes(nodes, m, sel);
      var c := FindIndex(connected, sel);
      var len := |connected|;
      ArrowMove(nodes, m, s, sel, forward).state.selectedNodeId
        == Some(connected[if forward then (if c == len - 1 then 0 else c + 1) else (if c == 0 then len - 1 else c - 1)].id)
  {
  }
}

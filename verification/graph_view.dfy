/**
 The graph the main view draws: one node per live file and per tag, one link
 per file-tag record, the label shortening, the node click and the
 empty-state condition. Canvas drawing and force layout are not modelled.
 */
module GraphView {
  import opened Text

  datatype NodeKind = FileKind | TagKind

  datatype GraphNode = GraphNode(
    id: string,
    kind: NodeKind,
    name: string,
    fileId: Option<string>,
    tagId: Option<string>,
    storageId: Option<string>,
    color: Option<string>)

  datatype Link = Link(source: string, target: string)

  datatype GraphData = GraphData(nodes: seq<GraphNode>, links: seq<Link>)

  /** The rows the view reads from the store queries. */
  datatype FileRow = FileRow(id: string, name: string, storageId: string)
  datatype TagRow = TagRow(id: string, name: string, color: Option<string>)
  datatype FileTagRow = FileTagRow(fileId: string, tagId: string)

  const FilePrefix: string := "file:"
  const TagPrefix: string := "tag:"
  const MaxLabelLength: nat := 20
  const Ellipsis: string := "..."

  /** The graph id of a file or tag: its kind's prefix followed by the store id. */
  function NodeId(kind: NodeKind, id: string): string {
    (if kind == FileKind then FilePrefix else TagPrefix) + id
  }

  /** Recovers the kind and store id from a graph id. */
  function ParseNodeId(s: string): Option<(NodeKind, string)> {
    if |s| >= |FilePrefix| && s[..|FilePrefix|] == FilePrefix then Some((FileKind, s[|FilePrefix|..]))
    else if |s| >= |TagPrefix| && s[..|TagPrefix|] == TagPrefix then Some((TagKind, s[|TagPrefix|..]))
    else None
  }

  /** Graph ids decode to the kind and id they were built from. */
  lemma ParseNodeIdRoundTrip(kind: NodeKind, id: string)
    ensures ParseNodeId(NodeId(kind, id)) == Some((kind, id))
  {
    var s := NodeId(kind, id);
    if kind == TagKind {
      assert s[0] == 't';
      assert s[..|TagPrefix|] == TagPrefix;
    } else {
      assert s[..|FilePrefix|] == FilePrefix;
    }
  }

  /** File ids and tag ids never collide, and equal graph ids mean equal store ids. */
  lemma NodeIdInjective(k1: NodeKind, a: string, k2: NodeKind, b: string)
    ensures NodeId(k1, a) == NodeId(k2, b) <==> k1 == k2 && a == b
  {
    ParseNodeIdRoundTrip(k1, a);
    ParseNodeIdRoundTrip(k2, b);
  }

  function FileNode(f: FileRow): GraphNode {
    GraphNode(NodeId(FileKind, f.id), FileKind, f.name, Some(f.id), None, Some(f.storageId), None)
  }

  function TagNode(t: TagRow): GraphNode {
    GraphNode(NodeId(TagKind, t.id), TagKind, t.name, None, Some(t.id), None, t.color)
  }

  function FileTagLink(ft: FileTagRow): Link {
    Link(NodeId(FileKind, ft.fileId), NodeId(TagKind, ft.tagId))
  }

  /** The `graphData` memo: files first, then tags, then one link per record. */
  function BuildGraph(files: seq<FileRow>, tags: seq<TagRow>, fileTags: seq<FileTagRow>): (g: GraphData)
    ensures |g.nodes| == |files| + |tags|
    ensures forall i :: 0 <= i < |files| ==>
      g.nodes[i].kind == FileKind && g.nodes[i].id == NodeId(FileKind, files[i].id)
      && g.nodes[i].name == files[i].name && g.nodes[i].fileId == Some(files[i].id)
    ensures forall j :: 0 <= j < |tags| ==>
      g.nodes[|files| + j].kind == TagKind && g.nodes[|files| + j].id == NodeId(TagKind, tags[j].id)
      && g.nodes[|files| + j].name == tags[j].name && g.nodes[|files| + j].color == tags[j].color
    ensures |g.links| == |fileTags|
    ensures forall k :: 0 <= k < |fileTags| ==>
      g.links[k] == Link(NodeId(FileKind, fileTags[k].fileId), NodeId(TagKind, fileTags[k].tagId))
  {
    var nodes := seq(|files|, i requires 0 <= i < |files| => FileNode(files[i]))
      + seq(|tags|, j requires 0 <= j < |tags| => TagNode(tags[j]));
    var links := seq(|fileTags|, k requires 0 <= k < |fileTags| => FileTagLink(fileTags[k]));
    GraphData(nodes, links)
  }

  /** The kinds and store ids of the drawn nodes and links are recoverable from their graph ids. */
  lemma BuildGraphIdsDecode(files: seq<FileRow>, tags: seq<TagRow>, fileTags: seq<FileTagRow>)
    ensures var g := BuildGraph(files, tags, fileTags);
      && (forall i :: 0 <= i < |files| ==> ParseNodeId(g.nodes[i].id) == Some((FileKind, files[i].id)))
      && (forall j :: 0 <= j < |tags| ==> ParseNodeId(g.nodes[|files| + j].id) == Some((TagKind, tags[j].id)))
      && (forall k :: 0 <= k < |fileTags| ==>
            ParseNodeId(g.links[k].source) == Some((FileKind, fileTags[k].fileId))
            && ParseNodeId(g.links[k].target) == Some((TagKind, fileTags[k].tagId)))
  {
    forall i | 0 <= i < |files|
      ensures ParseNodeId(NodeId(FileKind, files[i].id)) == Some((FileKind, files[i].id))
    {
      ParseNodeIdRoundTrip(FileKind, files[i].id);
    }
    forall j | 0 <= j < |tags|
      ensures ParseNodeId(NodeId(TagKind, tags[j].id)) == Some((TagKind, tags[j].id))
    {
      ParseNodeIdRoundTrip(TagKind, tags[j].id);
    }
    forall k | 0 <= k < |fileTags|
      ensures ParseNodeId(NodeId(FileKind, fileTags[k].fileId)) == Some((FileKind, fileTags[k].fileId))
      ensures ParseNodeId(NodeId(TagKind, fileTags[k].tagId)) == Some((TagKind, fileTags[k].tagId))
    {
      ParseNodeIdRoundTrip(FileKind, fileTags[k].fileId);
      ParseNodeIdRoundTrip(TagKind, fileTags[k].tagId);
    }
  }

  predicate HasNodeId(nodes: seq<GraphNode>, id: string) {
    exists i :: 0 <= i < |nodes| && nodes[i].id == id
  }

  predicate ListsFile(files: seq<FileRow>, id: string) {
    exists i :: 0 <= i < |files| && files[i].id == id
  }

  predicate ListsTag(tags: seq<TagRow>, id: string) {
    exists j :: 0 <= j < |tags| && tags[j].id == id
  }

  /** Every link end is a drawn node. */
  predicate LinksClosed(g: GraphData) {
    forall k :: 0 <= k < |g.links| ==> HasNodeId(g.nodes, g.links[k].source) && HasNodeId(g.nodes, g.links[k].target)
  }

  /** Every file-tag record names a listed file and a listed tag. */
  predicate RecordsReferenceListed(files: seq<FileRow>, tags: seq<TagRow>, fileTags: seq<FileTagRow>) {
    forall k :: 0 <= k < |fileTags| ==> ListsFile(files, fileTags[k].fileId) && ListsTag(tags, fileTags[k].tagId)
  }

  lemma EndpointOfLink(files: seq<FileRow>, tags: seq<TagRow>, fileTags: seq<FileTagRow>, k: nat)
    requires k < |fileTags|
    requires HasNodeId(BuildGraph(files, tags, fileTags).nodes, BuildGraph(files, tags, fileTags).links[k].source)
    requires HasNodeId(BuildGraph(files, tags, fileTags).nodes, BuildGraph(files, tags, fileTags).links[k].target)
    ensures ListsFile(files, fileTags[k].fileId) && ListsTag(tags, fileTags[k].tagId)
  {
    var g := BuildGraph(files, tags, fileTags);
    var i :| 0 <= i < |g.nodes| && g.nodes[i].id == g.links[k].source;
    var j :| 0 <= j < |g.nodes| && g.nodes[j].id == g.links[k].target;
    if i < |files| {
      NodeIdInjective(FileKind, files[i].id, FileKind, fileTags[k].fileId);
    } else {
      NodeIdInjective(TagKind, tags[i - |files|].id, FileKind, fileTags[k].fileId);
    }
    if j < |files| {
      NodeIdInjective(FileKind, files[j].id, TagKind, fileTags[k].tagId);
    } else {
      NodeIdInjective(TagKind, tags[j - |files|].id, TagKind, fileTags[k].tagId);
    }
  }

  /** Every link joins two drawn nodes exactly when every file-tag record names
      a listed file and a listed tag. The file list holds live files only, so a
      soft-deleted file that still has tag records leaves links without nodes. */
  lemma LinksHaveEndpoints(files: seq<FileRow>, tags: seq<TagRow>, fileTags: seq<FileTagRow>)
    ensures LinksClosed(BuildGraph(files, tags, fileTags)) <==> RecordsReferenceListed(files, tags, fileTags)
  {
    var g := BuildGraph(files, tags, fileTags);
    if RecordsReferenceListed(files, tags, fileTags) {
      forall k | 0 <= k < |g.links|
        ensures HasNodeId(g.nodes, g.links[k].source) && HasNodeId(g.nodes, g.links[k].target)
      {
        var i :| 0 <= i < |files| && files[i].id == fileTags[k].fileId;
        var j :| 0 <= j < |tags| && tags[j].id == fileTags[k].tagId;
        assert g.nodes[i].id == g.links[k].source;
        assert g.nodes[|files| + j].id == g.links[k].target;
      }
    }
    if LinksClosed(g) {
      forall k | 0 <= k < |fileTags|
        ensures ListsFile(files, fileTags[k].fileId) && ListsTag(tags, fileTags[k].tagId)
      {
        EndpointOfLink(files, tags, fileTags, k);
      }
    }
  }

  /** The label drawn under a node: names over 20 characters are cut to 20 and
      followed by "...". */
  function DisplayLabel(name: string): (r: string)
    ensures |name| <= MaxLabelLength ==> r == name
    ensures |name| > MaxLabelLength ==>
      |r| == MaxLabelLength + |Ellipsis| && r[..MaxLabelLength] == name[..MaxLabelLength]
      && r[MaxLabelLength..] == Ellipsis
    ensures |r| <= MaxLabelLength + |Ellipsis|
  {
    if |name| > MaxLabelLength then name[..MaxLabelLength] + Ellipsis else name
  }

  /** The file id handed to `onFileSelect` for a click, if any: only a file node
      carrying a non-empty file id opens. */
  function NodeClick(node: GraphNode): (r: Option<string>)
    ensures r.Some? <==> node.kind == FileKind && node.fileId.Some? && node.fileId.value != ""
    ensures r.Some? ==> r == node.fileId
  {
    if node.kind == FileKind && node.fileId.Some? && node.fileId.value != "" then node.fileId else None
  }

  /** Clicking a drawn file node selects that file; clicking a tag node does nothing. */
  lemma ClickOnBuiltGraph(files: seq<FileRow>, tags: seq<TagRow>, fileTags: seq<FileTagRow>, i: nat)
    requires i < |files| + |tags|
    ensures var g := BuildGraph(files, tags, fileTags);
      NodeClick(g.nodes[i]) == (if i < |files| && files[i].id != "" then Some(files[i].id) else None)
  {
  }

  /** The empty-state placeholder replaces the graph exactly when there is
      neither a file nor a tag. */
  function ShowsEmptyState(files: seq<FileRow>, tags: seq<TagRow>): (r: bool)
    ensures r <==> |BuildGraph(files, tags, []).nodes| == 0
  {
    |files| == 0 && |tags| == 0
  }
}

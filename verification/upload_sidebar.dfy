/**
 The single-file upload panel: the resizable width, the pending file built
 from an analysis, tag toggling and manual tags, the rename field, and what
 validation sends to the store.
 */
module UploadSidebar {
  import opened Text
  import opened TagSelection

  const MinWidth: int := 360
  const MaxWidth: int := 600
  const DefaultWidth: int := 420

  /** `Math.min(MAX_WIDTH, Math.max(MIN_WIDTH, x))` */
  function ClampWidth(x: int): (r: int)
    ensures MinWidth <= r <= MaxWidth
    ensures MinWidth <= x <= MaxWidth ==> r == x
    ensures x < MinWidth ==> r == MinWidth
    ensures x > MaxWidth ==> r == MaxWidth
  {
    var lower := if MinWidth > x then MinWidth else x;
    if MaxWidth < lower then MaxWidth else lower
  }

  /** The resize handle: whether a drag is in progress, and the panel width. */
  datatype Resize = Resize(resizing: bool, width: int)

  const InitialResize: Resize := Resize(false, DefaultWidth)

  /** `handleMouseDown`: starts a drag. */
  function MouseDown(s: Resize): (r: Resize)
    ensures r.resizing && r.width == s.width
  {
    s.(resizing := true)
  }

  /** `handleMouseMove`: while dragging, the width follows the pointer within the bounds. */
  function MouseMove(s: Resize, clientX: int): (r: Resize)
    ensures !s.resizing ==> r == s
    ensures s.resizing ==> r.resizing && MinWidth <= r.width <= MaxWidth
    ensures s.resizing && MinWidth <= clientX <= MaxWidth ==> r.width == clientX
  {
    if !s.resizing then s else s.(width := ClampWidth(clientX))
  }

  /** `handleMouseUp`: ends the drag and keeps the width. */
  function MouseUp(s: Resize): (r: Resize)
    ensures !r.resizing && r.width == s.width
  {
    s.(resizing := false)
  }

  /** A run of pointer moves, in order. */
  function Moves(s: Resize, xs: seq<int>): (r: Resize)
    ensures r.resizing == s.resizing
    decreases |xs|
  {
    if |xs| == 0 then s else Moves(MouseMove(s, xs[0]), xs[1..])
  }

  /** However the pointer moves, a width that starts within the bounds stays
      within them, and while dragging it ends at the last pointer position,
      clamped. */
  lemma {:induction false} WidthStaysInBounds(s: Resize, xs: seq<int>)
    requires MinWidth <= s.width <= MaxWidth
    ensures MinWidth <= Moves(s, xs).width <= MaxWidth
    ensures s.resizing && |xs| > 0 ==> Moves(s, xs).width == ClampWidth(xs[|xs| - 1])
    ensures !s.resizing ==> Moves(s, xs) == s
    decreases |xs|
  {
    if |xs| > 0 {
      WidthStaysInBounds(MouseMove(s, xs[0]), xs[1..]);
      if |xs| > 1 {
        assert xs[1..][|xs[1..]| - 1] == xs[|xs| - 1];
      }
    }
  }

  datatype PendingFile = PendingFile(
    fileName: string,
    storageId: string,
    existingTags: seq<string>,
    newTags: seq<string>,
    selected: seq<string>,
    suggestedName: Option<string>,
    customName: Option<string>)

  /** The pending file after analysis: every suggested tag selected, no custom name. */
  function FromAnalysis(fileName: string, storageId: string, existingTags: seq<string>, newTags: seq<string>, suggestedName: Option<string>): (p: PendingFile)
    ensures forall t :: t in p.selected <==> t in existingTags || t in newTags
    ensures NoDuplicates(p.selected)
    ensures p.existingTags == existingTags && p.newTags == newTags
    ensures p.suggestedName == suggestedName && p.customName == None
    ensures p.fileName == fileName && p.storageId == storageId
  {
    PendingFile(fileName, storageId, existingTags, newTags, FromList(existingTags + newTags), suggestedName, None)
  }

  /** `toggleTag`: flips one tag of the selection; nothing without a pending file. */
  function ToggleTag(p: Option<PendingFile>, t: string): (r: Option<PendingFile>)
    ensures p.None? <==> r.None?
    ensures p.Some? ==> r.value == p.value.(selected := r.value.selected)
    ensures p.Some? ==> forall x :: x in r.value.selected <==> (if x == t then t !in p.value.selected else x in p.value.selected)
  {
    if p.None? then None else Some(p.value.(selected := Toggle(p.value.selected, t)))
  }

  /** Toggling a tag twice gives back the same pending file when the selection
      did not hold it, and the same selected set otherwise. */
  lemma ToggleTagTwice(p: PendingFile, t: string)
    requires NoDuplicates(p.selected)
    ensures var r := ToggleTag(ToggleTag(Some(p), t), t).value;
      (forall x :: x in r.selected <==> x in p.selected) && (t !in p.selected ==> r == p)
  {
    ToggleTwice(p.selected, t);
  }

  /** `addManualTag`: a tag already suggested changes nothing; otherwise it joins
      the existing tags if the store knows it and the new tags if not, and is selected. */
  function AddManualTag(p: Option<PendingFile>, t: string, allTagNames: seq<string>): (r: Option<PendingFile>)
    ensures p.None? <==> r.None?
    ensures p.Some? && t in p.value.existingTags + p.value.newTags ==> r == p
    ensures p.Some? && t !in p.value.existingTags + p.value.newTags ==>
      var q := p.value;
      && r.value.existingTags == (if t in allTagNames then q.existingTags + [t] else q.existingTags)
      && r.value.newTags == (if t in allTagNames then q.newTags else q.newTags + [t])
      && (forall x :: x in r.value.selected <==> x in q.selected || x == t)
      && r.value == q.(existingTags := r.value.existingTags, newTags := r.value.newTags, selected := r.value.selected)
  {
    if p.None? then None
    else
      var q := p.value;
      if t in q.existingTags + q.newTags then p
      else
        var known := t in allTagNames;
        Some(q.(existingTags := if known then q.existingTags + [t] else q.existingTags,
                newTags := if known then q.newTags else q.newTags + [t],
                selected := Add(q.selected, t)))
  }

  /** A manual tag is added once: adding it again changes nothing. */
  lemma AddManualTagOnce(p: PendingFile, t: string, allTagNames: seq<string>)
    ensures var r := AddManualTag(Some(p), t, allTagNames);
      AddManualTag(r, t, allTagNames) == r
  {
  }

  /** `customName ?? suggestedName ?? file.name` */
  function SavedName(p: PendingFile): (r: string)
    ensures p.customName.Some? ==> r == p.customName.value
    ensures p.customName.None? && p.suggestedName.Some? ==> r == p.suggestedName.value
    ensures p.customName.None? && p.suggestedName.None? ==> r == p.fileName
  {
    match p.customName
    case Some(n) => n
    case None =>
      match p.suggestedName
      case Some(n) => n
      case None => p.fileName
  }

  /** Editing the rename field: an empty text clears the custom name. */
  function RenameInput(p: PendingFile, text: string): (r: PendingFile)
    ensures r == p.(customName := r.customName)
    ensures text == "" <==> r.customName.None?
    ensures text != "" ==> SavedName(r) == text
  {
    p.(customName := if text == "" then None else Some(text))
  }

  /** Dismissing the suggestion drops both names, so the file keeps its own. */
  function DismissSuggestion(p: PendingFile): (r: PendingFile)
    ensures SavedName(r) == p.fileName
    ensures r == p.(suggestedName := None, customName := None)
  {
    p.(suggestedName := None, customName := None)
  }

  /** Clearing the field after typing a name falls back to the suggestion. */
  lemma ClearedRenameUsesSuggestion(p: PendingFile, text: string)
    requires p.suggestedName.Some?
    ensures SavedName(RenameInput(RenameInput(p, text), "")) == p.suggestedName.value
  {
  }

  /** The validate button is disabled while no tag is selected. */
  function ValidateDisabled(p: PendingFile): (r: bool)
    ensures r <==> forall t :: t !in p.selected
  {
    assert |p.selected| > 0 ==> p.selected[0] in p.selected;
    |p.selected| == 0
  }

  /** What validation asks of the store: a file under the saved name, then the
      selected tags linked to it. */
  datatype SaveRequest = SaveRequest(storageId: string, name: string, tagNames: seq<string>)

  function Validate(p: Option<PendingFile>): (r: Option<SaveRequest>)
    ensures p.None? <==> r.None?
    ensures p.Some? ==> r.value.name == SavedName(p.value) && r.value.storageId == p.value.storageId
    ensures p.Some? ==> forall t :: t in r.value.tagNames <==> t in p.value.selected
  {
    if p.None? then None else Some(SaveRequest(p.value.storageId, SavedName(p.value), p.value.selected))
  }
}

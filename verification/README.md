# tagexplorer in Dafny

A model of the logic core of tagexplorer. This is a personal file explorer:
uploaded files are tagged by an AI model and drawn as a file–tag graph. The
model covers:

- **The graph.** The nodes and links drawn from the store (`GraphView`). The
  hover highlight, the adjacency map and the opacity rules (`GraphControls`).
  The keyboard traversal of the graph (`KeyboardNavigation`).
- **The two search boxes.** The graph search (`GraphSearchBar`) and the command
  palette (`SearchBar`), with their shared filter and cursor (`SearchCommon`).
- **The store.** Its documents (`Store`), the tag mutations (`Tags`) and the
  file mutations and trash (`Files`).
- **The CSV export** (`Export`) and the post-processing of the AI reply
  (`Analyze`).
- **The upload side.** The tag input (`TagInput`), the single-file sidebar
  (`UploadSidebar`) and the batch queue (`UploadQueue`). The retry hook with its
  error messages (`FileAnalysis`). The drop zone (`DropZone`). The selection
  `Set` shared by the sidebar and the queue (`TagSelection`).
- **`Text`.** The JavaScript string operations these rely on: `trim`,
  `toLowerCase`, `includes`, `join`, `indexOf`, `lastIndexOf` and `String(n)`.

Everything is an immutable value, and every handler is a pure state transition:

- The store is a record of tables: files, tags and file–tag links. It also
  holds a set of stored blobs and an id counter.
- `Date.now()` becomes a `now` parameter.
- Network outcomes, such as upload responses, thrown errors and the AI
  reply, become parameters, given per attempt or per queue index.
- `JSON.parse` becomes a `parse` function parameter.
- A waiting `sleep` is recorded as a list of delays.
- The callbacks a handler calls become part of its result.

Two behaviours of the code are worth stating up front:

- **Arrow keys.** Arrow keys step through a node's neighbours only when the
  node links to itself. Otherwise the selected node is not among its own
  neighbours, so Down/Right pick the first neighbour in display order and
  Up/Left the last (`KeyboardNavigation.ArrowWithoutSelfLink`,
  `KeyboardNavigation.ArrowCyclesWithSelfLink`).
- **File record shape.** `convex/schema.ts` declares neither `size` nor
  `deletedAt`. The record shape is taken from `convex/files.ts`, which writes
  both.

## Model

| member | source | states |
|---|---|---|
| GraphControls.AddLink | src/hooks/useGraphControls.ts:27-30 | one link makes both ends keys and adds each end to the other's neighbour set, nothing else |
| GraphControls.BuildAdjacency | src/hooks/useGraphControls.ts:21-33 | the keys are exactly the link endpoints, and b neighbours a exactly when a link joins them in either direction |
| GraphControls.AdjacencySymmetric | src/hooks/useGraphControls.ts:21-33 | b is in adj[a] if and only if a is in adj[b] |
| GraphControls.AdjacencyDependsOnLinkSet | src/hooks/useGraphControls.ts:21-33 | reordering or repeating links gives the same map |
| GraphControls.Neighbors | src/hooks/useGraphControls.ts:41-42 | the neighbour set of a key, empty for an id that is not a key |
| GraphControls.ComputeHighlight | src/hooks/useGraphControls.ts:35-52 | no hover (or "") highlights nothing; otherwise the hovered node plus its neighbours, and both orientations of each hovered–neighbour key |
| GraphControls.HighlightIsOneHop | src/hooks/useGraphControls.ts:39-47 | a node is highlighted exactly when it is the hovered node or linked to it: one hop only |
| GraphControls.NodeOpacity | src/hooks/useGraphControls.ts:66-73 | 1 when nothing is hovered or the node is highlighted, 0.3 otherwise |
| GraphControls.LinkOpacity | src/hooks/useGraphControls.ts:75-87 | 0.5 without hover, 1 when either orientation key is highlighted, 0.1 otherwise |
| GraphControls.LinkOpacitySymmetric | src/hooks/useGraphControls.ts:78-81 | swapping source and target does not change the opacity |
| GraphControls.LinkOpacityOfGraphLink | src/hooks/useGraphControls.ts:75-87 | under hover, a drawn link is at 1 exactly when the hovered node is one of its ends, else 0.1 |
| GraphControls.IsNodeHighlighted | src/hooks/useGraphControls.ts:89-94 | true exactly when the node is in the highlight set, and then it is drawn at full opacity whatever is hovered |
| GraphControls.HandleNodeHover | src/hooks/useGraphControls.ts:58-60 | the hovered id is replaced, never accumulated; zoom and selection are kept |
| GraphControls.HandleNodeSelect | src/hooks/useGraphControls.ts:62-64 | only the selected id changes |
| GraphControls.HandleZoom | src/hooks/useGraphControls.ts:54-56 | only the zoom level changes |
| KeyboardNavigation.ConnectedNodes | src/hooks/useKeyboardNavigation.ts:21-28 | the nodes, in display order, whose ids neighbour the id; none for an id that is not a key |
| KeyboardNavigation.KeepNeighbours | src/hooks/useKeyboardNavigation.ts:25 | the filter keeps exactly the nodes whose id is in the set |
| KeyboardNavigation.KeepNeighboursAppend | src/hooks/useKeyboardNavigation.ts:25 | the filter keeps display order: filtering a concatenation concatenates the filtered parts |
| KeyboardNavigation.ConnectedNodesInOrder | src/hooks/useKeyboardNavigation.ts:21-28 | the neighbours among earlier nodes come before those among later ones |
| KeyboardNavigation.FindIndex | src/hooks/useKeyboardNavigation.ts:85-87 | the first position with the id, or -1 exactly when there is none |
| KeyboardNavigation.FindNode | src/hooks/useKeyboardNavigation.ts:62 | a node is found exactly when some node has the id |
| KeyboardNavigation.TabIndex | src/hooks/useKeyboardNavigation.ts:51-53 | the next index wrapping after the last, or the previous wrapping before the first; always inside the list |
| KeyboardNavigation.TabThenShiftTab | src/hooks/useKeyboardNavigation.ts:51-53 | Tab and Shift+Tab undo each other |
| KeyboardNavigation.ArrowIndex | src/hooks/useKeyboardNavigation.ts:89-101 | the index after (before) the current place, wrapping; the first (last) when the current node is not in the list |
| KeyboardNavigation.HandleKey | src/hooks/useKeyboardNavigation.ts:30-114 | disabled ignores every key; Escape clears the selection but keeps the index; Tab selects nodes[(i±1) mod n]; Enter previews only a selected file node; an arrow without selection selects the first node |
| KeyboardNavigation.ArrowSelectsNeighbour | src/hooks/useKeyboardNavigation.ts:82-111 | an arrow on a selected node changes nothing exactly when it has no drawn neighbour; otherwise it selects a neighbour and the index is that node's place in the list |
| KeyboardNavigation.ArrowWithoutSelfLink | src/hooks/useKeyboardNavigation.ts:85-101 | without a self-link, Down/Right pick the first neighbour and Up/Left the last |
| KeyboardNavigation.ArrowCyclesWithSelfLink | src/hooks/useKeyboardNavigation.ts:85-101 | with a self-link the arrows step through the neighbour list, wrapping at both ends |
| GraphView.ParseNodeIdRoundTrip | src/components/graphView.tsx:38-55 | a "file:"/"tag:" graph id decodes back to the kind and store id it was built from |
| GraphView.NodeIdInjective | src/components/graphView.tsx:38-55 | file and tag graph ids never collide, and equal ids mean equal store ids |
| GraphView.BuildGraph | src/components/graphView.tsx:35-59 | files first and then tags, with \|files\|+\|tags\| nodes, and one link per file–tag record |
| GraphView.BuildGraphIdsDecode | src/components/graphView.tsx:35-59 | every node and link end decodes to the record it came from |
| GraphView.LinksHaveEndpoints | src/components/graphView.tsx:35-59 | every link joins two drawn nodes exactly when every record names a listed file and a listed tag |
| GraphView.DisplayLabel | src/components/graphView.tsx:137-140 | names of at most 20 characters are kept; longer ones become their first 20 characters and "..." |
| GraphView.NodeClick | src/components/graphView.tsx:61-65 | a click selects a file exactly when the node is a file node with a non-empty file id |
| GraphView.ClickOnBuiltGraph | src/components/graphView.tsx:35-65 | clicking a drawn file node selects that file; clicking a tag node does nothing |
| GraphView.ShowsEmptyState | src/components/graphView.tsx:169 | the placeholder replaces the graph exactly when the graph has no node |
| SearchCommon.MatchFilter | src/components/graphSearchBar.tsx:21-25 | keeps exactly the items whose lower-cased name contains the lower-cased query |
| SearchCommon.MatchFilterAppend | src/components/searchBar.tsx:27-40 | the filter keeps input order: filtering a concatenation concatenates the parts |
| SearchCommon.CursorDown | src/components/graphSearchBar.tsx:59-63 | min(prev+1, len-1): from inside the list it moves down one or stays on the last |
| SearchCommon.CursorUp | src/components/graphSearchBar.tsx:64-66 | max(prev-1, 0): never negative |
| SearchCommon.CursorStaysInRange | src/components/searchBar.tsx:65-70 | from a position in a non-empty list both moves stay in it |
| SearchCommon.CursorDownOnEmpty | src/components/graphSearchBar.tsx:59-63 | with no matches ArrowDown puts the cursor at -1 |
| GraphSearchBar.FilteredNodes | src/components/graphSearchBar.tsx:21-25 | nothing for a blank query, otherwise exactly the nodes whose name matches |
| GraphSearchBar.HighlightIds | src/components/graphSearchBar.tsx:45-50 | the ids of the matching nodes, in order |
| GraphSearchBar.HighlightIffMatch | src/components/graphSearchBar.tsx:21-50 | a listed node is highlighted when the query is non-blank and its name matches it, and never under a blank query |
| GraphSearchBar.QueryEmission | src/components/graphSearchBar.tsx:45-55 | a blank query reports no highlight and ""; otherwise the matching ids and the query |
| GraphSearchBar.SetQuery | src/components/graphSearchBar.tsx:45-55 | a changed query re-emits and returns the cursor to 0; an unchanged one does nothing |
| GraphSearchBar.NodesChanged | src/components/graphSearchBar.tsx:55 | a node-list change re-runs the effect only when the number of matches changes |
| GraphSearchBar.InputKeyDown | src/components/graphSearchBar.tsx:57-73 | Down/Up clamp the cursor; Enter centres the node under the cursor if there is one |
| GraphSearchBar.Close | src/components/graphSearchBar.tsx:75-79 | closes, clears the query and empties the highlight |
| GraphSearchBar.GlobalKeyDown | src/components/graphSearchBar.tsx:28-41 | Ctrl/Cmd+F opens; Escape closes an open bar and clears the highlight; other keys do nothing |
| GraphSearchBar.CloseClearsHighlight | src/components/graphSearchBar.tsx:45-55 | after closing, the query effect reports no highlight |
| GraphSearchBar.ListedMatches | src/components/graphSearchBar.tsx:171 | the first ten matches |
| SearchBar.Results | src/components/searchBar.tsx:27-40 | a blank query lists nothing; any other lists the grouped matches |
| SearchBar.Grouped | src/components/searchBar.tsx:28-39 | the matching files, then the matching tags, each group in input order |
| SearchBar.ResultsAreMatches | src/components/searchBar.tsx:27-40 | every result comes from an entry of its own kind whose name matches, and no file follows a tag |
| SearchBar.SetQuery | src/components/searchBar.tsx:59-61 | a changed query puts the cursor on the first result |
| SearchBar.Select | src/components/searchBar.tsx:79-90 | a file result calls the file callback and a tag result the tag callback; the palette closes and the query clears |
| SearchBar.InputKeyDown | src/components/searchBar.tsx:63-77 | Down/Up clamp the cursor; Enter selects the result under it when there is one |
| SearchBar.Close | src/components/searchBar.tsx:92-95 | closes and clears the query |
| SearchBar.GlobalKeyDown | src/components/searchBar.tsx:42-57 | Ctrl/Cmd+K opens; Escape closes an open palette; other keys do nothing |
| SearchBar.ListedResults | src/components/searchBar.tsx:145 | the first min(15, n) of the n results, position by position |
| Store.FirstIndex | convex/tags.ts:11-14 | the first position satisfying the filter, or -1 exactly when none does (`.first()`) |
| Tags.CreateTag | convex/tags.ts:4-25 | the answered tag has the normalised name; an existing name changes nothing; otherwise a tag is appended under a fresh id |
| Tags.CreateTagSameNormalForm | convex/tags.ts:10-18 | two spellings with the same normal form reach the same tag, and the second call changes nothing |
| Tags.CreateTagKeepsNamesUnique | convex/tags.ts:10-23 | tag names stay unique |
| Tags.LinkFileTag | convex/tags.ts:34-55 | the answered link joins the pair; an existing pair changes nothing; otherwise one link is appended |
| Tags.LinkFileTagKeepsPairsUnique | convex/tags.ts:40-53 | no pair is ever linked twice |
| Tags.LinkFileTagIdempotent | convex/tags.ts:40-48 | linking the same pair again changes nothing and answers the same id |
| Tags.UnlinkFileTag | convex/tags.ts:57-73 | removes the first link of the pair, if any; other tables unchanged |
| Tags.UnlinkShifts | convex/tags.ts:63-71 | the removed link's followers move down one place; the rest stay |
| Tags.UnlinkRemovesPair | convex/tags.ts:57-73 | with unique pairs, the pair is unlinked afterwards and every other pair keeps its link |
| Tags.UnlinkUndoesLink | convex/tags.ts:34-73 | unlinking a freshly linked pair restores the tables; only the id counter has moved on |
| Tags.TagById | convex/tags.ts:84 | a tag is found exactly when one has the id |
| Tags.TagsOfLinks | convex/tags.ts:83-87 | the tags of the file's links that still exist, one per link |
| Tags.TagsOfLinksAppend | convex/tags.ts:83-87 | the tags follow link order: the tags of earlier links come first |
| Tags.GetFileTags | convex/tags.ts:75-89 | every returned tag is linked to the file, and every linked existing tag is returned |
| Tags.GrowsTransitive | convex/tags.ts:103-126 | appending-only steps compose |
| Tags.LinkedNamePersists | convex/tags.ts:103-126 | a tag linked by an earlier iteration stays linked |
| Tags.BulkStep | convex/tags.ts:105-124 | one iteration leaves a tag with the normal form linked to the file, only appends, and keeps names and pairs unique |
| Tags.BulkLinkFileTags | convex/tags.ts:98-127 | every name ends up as a tag with its normal form, linked to the file; the tables only grow; names and pairs stay unique |
| Tags.BulkLinkLinksEveryName | convex/tags.ts:98-127 | after the bulk link, each given name has a tag with its normal form linked to the file |
| Files.SaveFile | convex/files.ts:11-27 | a live file stamped `now` is appended under a fresh id; other tables unchanged |
| Files.Live | convex/files.ts:29-35 | exactly the files whose `deletedAt` is falsy, in order |
| Files.Trashed | convex/files.ts:37-43 | exactly the files whose `deletedAt` is truthy, in order |
| Files.ListingsPartition | convex/files.ts:29-43 | the two listings together hold every file exactly once |
| Files.LiveAppend | convex/files.ts:29-35 | listing after appending keeps the earlier order and adds the new file if live |
| Files.SavedFileIsListed | convex/files.ts:11-35 | a saved file is listed last among the live files |
| Files.PatchFile | convex/files.ts:58 | a missing id is an error; otherwise only the patched file changes |
| Files.RenameFile | convex/files.ts:52-60 | only the name of the file changes |
| Files.SoftDeleteFile | convex/files.ts:62-67 | only `deletedAt` changes, to `now` |
| Files.RestoreFile | convex/files.ts:69-74 | only `deletedAt` changes, to absent |
| Files.SoftDeleteMovesToTrash | convex/files.ts:29-67 | with a non-zero clock, the file leaves the live listing and enters the trash |
| Files.RestoreUndoesSoftDelete | convex/files.ts:62-74 | restoring a soft-deleted live file gives back the table |
| Files.Purge | convex/files.ts:80-89 | the blob, every link of the file and the file are removed |
| Files.DeleteFile | convex/files.ts:76-92 | a missing id changes nothing; otherwise the blob, the links and the file go |
| Files.DeleteUndoesSave | convex/files.ts:11-92 | deleting a file just saved restores the tables; the id counter has moved on and the blob is gone |
| Files.PurgeAll | convex/files.ts:118-128 | purging a list removes all their ids, links and blobs |
| Files.EmptyTrash | convex/files.ts:112-131 | answers the trash size; the trash is empty after; links of trashed files and their blobs go; with unique ids the live files remain |
| Files.NothingTrashedRemains | convex/files.ts:115-128 | nothing deleted is left in the table |
| Files.TrashedIdsAreDeleted | convex/files.ts:115-116 | with unique ids, an id is a trashed id exactly when its file is deleted |
| Export.HeaderLineFields | src/utils/export.ts:71-73 | the header line splits at its commas into `name`, `type`, `size`, `createdAt`, `tags` |
| Export.EscapeCell | src/utils/export.ts:77-81 | a cell keeps its characters, adding quotes only when it needs them |
| Export.QuotedIffSpecial | src/utils/export.ts:79-81 | a cell is quoted exactly when it holds a comma or a quote |
| Export.LineBreakLeftUnquoted | src/utils/export.ts:79-81 | a cell with a line break but no comma or quote is written bare |
| Export.TagNameOf | src/utils/export.ts:51-58 | an id is known exactly when a tag has it, and then the last such tag's name answers |
| Export.TagNames | src/utils/export.ts:54-60 | exactly the non-empty names of the file's known tags, one per link at most |
| Export.TagNamesAppend | src/utils/export.ts:54-60 | the names follow the order of the file–tag records |
| Export.RowCells | src/utils/export.ts:62-68 | five cells in header order; the size is blank when absent, else its decimal digits |
| Export.SplitJoin | src/utils/export.ts:72-85 | splitting on a separator undoes joining on it when no part contains it |
| Export.ParseRowLine | src/utils/export.ts:74-84 | reading a row line back gives exactly its cells |
| Export.CsvRoundTrip | src/utils/export.ts:51-85 | without line breaks in the cells, the text splits into the header and one line per file, each reading back as that file's cells |
| Analyze.Span | convex/analyze.ts:140-143 | the text from the first opening to the last closing bracket, when one follows the other |
| Analyze.SpanFound | convex/analyze.ts:140-143 | the expression matches exactly when a closing bracket follows an opening one |
| Analyze.NormalizeTags | convex/analyze.ts:147 | every kept tag is non-empty and normal |
| Analyze.NormalizeTagsAppend | convex/analyze.ts:147 | normalising keeps input order: the tags of earlier inputs come first |
| Analyze.NormalizeTagsMembers | convex/analyze.ts:161-162 | a tag is kept exactly when it is the non-empty normal form of some input |
| Analyze.SplitBy | convex/analyze.ts:150-151 | exactly the listed (or unlisted) tags |
| Analyze.SplitByAppend | convex/analyze.ts:150-151 | each half keeps the order of the tags |
| Analyze.SplitByPartitions | convex/analyze.ts:150-151 | the two halves together hold every tag, with multiplicity |
| Analyze.FromArray | convex/analyze.ts:146-153 | the normalised tags split into listed and unlisted; no name |
| Analyze.FromArrayInOrder | convex/analyze.ts:146-153 | both lists keep the order of the reply's items |
| Analyze.FromObject | convex/analyze.ts:159-164 | absent lists become empty; a non-list or a null reply falls back |
| Analyze.Analyze | convex/analyze.ts:137-167 | an empty reply or one without a match falls back; an object match gives the object's result, or the fallback on a syntax error; otherwise an array match gives the array split, or the fallback when it does not parse to an array |
| Analyze.ObjectMatchWins | convex/analyze.ts:140-164 | with an object match, only the parse of that object matters |
| Analyze.ArrayReply | convex/analyze.ts:140-156 | a bare-array reply splits its normalised tags by the caller's list |
| Analyze.TagListLine | convex/analyze.ts:9-11 | the existing-tags paragraph is empty exactly when there are no tags |
| Analyze.TagListMentionsEveryTag | convex/analyze.ts:10 | every existing tag appears quoted in the paragraph |
| TagInput.AllSuggestions | src/components/tagInput.tsx:16-20 | exactly the tags whose name contains the lower-cased value and is not already chosen |
| TagInput.AllSuggestionsAppend | src/components/tagInput.tsx:16-20 | suggestions keep `listTags` order |
| TagInput.FilteredSuggestions | src/components/tagInput.tsx:16-21 | the first min(5, n) of the n suggestible tags, position by position |
| TagInput.Submit | src/components/tagInput.tsx:23-30 | accepts exactly a non-empty normal form not yet chosen, passes it on and clears the field |
| TagInput.KeyDown | src/components/tagInput.tsx:32-37 | Enter submits the value; other keys do nothing |
| TagInput.Change | src/components/tagInput.tsx:46-49 | typing replaces the value and opens the suggestions |
| TagInput.ShowDropdown | src/components/tagInput.tsx:83 | drawn exactly when open, non-empty and with a suggestion |
| TagInput.AddDisabled | src/components/tagInput.tsx:67 | disabled exactly when the value is all white space |
| TagInput.DisabledIffEmptyAfterNormalising | src/components/tagInput.tsx:23-67 | the button is disabled exactly when a submission would be refused as empty |
| TagInput.SubmitRefusesRepeat | src/components/tagInput.tsx:25 | once a tag is accepted, any spelling of it is refused |
| TagSelection.Toggle | src/components/uploadSidebar.tsx:111-116 | flips the membership of one tag only, keeping the set duplicate-free |
| TagSelection.ToggleTwice | src/components/uploadSidebar.tsx:111-116 | toggling twice restores the membership, and the list when the tag was absent |
| TagSelection.FromList | src/components/uploadSidebar.tsx:96 | `new Set`: the same members, without duplicates |
| UploadSidebar.ClampWidth | src/components/uploadSidebar.tsx:19-43 | the width is min(600, max(360, x)), always in [360, 600] |
| UploadSidebar.MouseDown | src/components/uploadSidebar.tsx:36-37 | a drag starts and the width is kept |
| UploadSidebar.MouseMove | src/components/uploadSidebar.tsx:41-45 | outside a drag nothing changes; during one the width is in [360, 600], and equals the pointer when that is in range |
| UploadSidebar.MouseUp | src/components/uploadSidebar.tsx:47-48 | the drag ends and the width is kept |
| UploadSidebar.WidthStaysInBounds | src/components/uploadSidebar.tsx:36-57 | over any pointer moves the width stays in [360, 600]; during a drag it ends at the last position, clamped; outside a drag nothing changes |
| UploadSidebar.FromAnalysis | src/components/uploadSidebar.tsx:89-99 | the file name and storage id are carried over, every suggested tag is selected, with no custom name |
| UploadSidebar.ToggleTag | src/components/uploadSidebar.tsx:108-122 | flips one tag of the selection only; nothing without a pending file |
| UploadSidebar.ToggleTagTwice | src/components/uploadSidebar.tsx:108-122 | toggling twice restores the selected set, and the whole pending file when the tag was not selected |
| UploadSidebar.AddManualTag | src/components/uploadSidebar.tsx:124-142 | a suggested tag changes nothing; otherwise it joins the existing or new list by `allTags` and is selected |
| UploadSidebar.AddManualTagOnce | src/components/uploadSidebar.tsx:127-128 | adding the same manual tag twice is adding it once |
| UploadSidebar.SavedName | src/components/uploadSidebar.tsx:148 | custom name, else suggested name, else the file's own name |
| UploadSidebar.RenameInput | src/components/uploadSidebar.tsx:271 | an empty field clears the custom name; otherwise the typed name is saved |
| UploadSidebar.DismissSuggestion | src/components/uploadSidebar.tsx:275 | both names are dropped, so the file's own name is saved |
| UploadSidebar.ClearedRenameUsesSuggestion | src/components/uploadSidebar.tsx:271 | clearing the field after typing falls back to the suggestion |
| UploadSidebar.ValidateDisabled | src/components/uploadSidebar.tsx:346 | disabled exactly when no tag is selected |
| UploadSidebar.Validate | src/components/uploadSidebar.tsx:144-158 | saves under the saved name and links exactly the selected tags |
| UploadQueue.InitQueue | src/components/uploadQueue.tsx:29-39 | one pending item per file, with id name-index and nothing selected |
| UploadQueue.ItemIdSuffix | src/components/uploadQueue.tsx:31 | the text after an id's last '-' is its index |
| UploadQueue.InitIdsDistinct | src/components/uploadQueue.tsx:29-39 | the initial ids are pairwise distinct, whatever the file names |
| UploadQueue.UpdateAt | src/components/uploadQueue.tsx:51-52 | only the item at the index changes |
| UploadQueue.ToggleTag | src/components/uploadQueue.tsx:127-140 | flips the tag in the items with the id; every other item is unchanged |
| UploadQueue.ToggleTagTwice | src/components/uploadQueue.tsx:127-140 | toggling twice restores the selection, and the item when the tag was absent |
| UploadQueue.ProcessFile | src/components/uploadQueue.tsx:49-112 | only the item changes; it ends ready exactly on success, with selected = existing ∪ new, else in error with a message |
| UploadQueue.StartProcessing | src/components/uploadQueue.tsx:114-125 | processes exactly the items pending at the start, in order; the others are untouched |
| UploadQueue.QueueSavedName | src/components/uploadQueue.tsx:152 | the suggested name, else the file's own name |
| UploadQueue.SaveCalls | src/components/uploadQueue.tsx:151-163 | `saveFile` with the saved name and size, then `bulkLinkFileTags` unless saving threw |
| UploadQueue.AfterSave | src/components/uploadQueue.tsx:165-179 | done on success, else error with the message; nothing else changes |
| UploadQueue.SaveAll | src/components/uploadQueue.tsx:142-184 | the calls are each saveable item's calls in queue order, then `onComplete` once; every save call is of a saveable item, each saveable item is saved and linked unless its save threw; each ends done or in error |
| UploadQueue.CallsAccounted | src/components/uploadQueue.tsx:142-163 | every saveable item is saved, and linked unless its save threw; every save call belongs to a saveable item |
| UploadQueue.CountIsMultiplicity | src/components/uploadQueue.tsx:186-187 | the filtered count equals the status's multiplicity |
| UploadQueue.ReadyCount | src/components/uploadQueue.tsx:186 | the number of ready items |
| UploadQueue.DoneCount | src/components/uploadQueue.tsx:187 | the number of done items |
| FileAnalysis.Delay | src/hooks/useFileAnalysis.ts:86 | the wait after attempt k is 1000·2^k |
| FileAnalysis.DelayDoubles | src/hooks/useFileAnalysis.ts:86 | each wait is twice the one before |
| FileAnalysis.OwnMessage | src/hooks/useFileAnalysis.ts:104-113 | a code has a message exactly when it is one of the six keys |
| FileAnalysis.GetErrorMessage | src/hooks/useFileAnalysis.ts:103-116 | total: the six codes map to their message, every other string to the unknown-error message |
| FileAnalysis.GetErrorMessageAsWritten | src/hooks/useFileAnalysis.ts:115 | the lookup as written also finds inherited `Object.prototype` members |
| FileAnalysis.InheritedCodeEscapesFallback | src/hooks/useFileAnalysis.ts:115 | the code "toString" yields a function as written, but the unknown-error message when corrected |
| FileAnalysis.CorrectedAgreesElsewhere | src/hooks/useFileAnalysis.ts:103-116 | away from inherited names, the corrected lookup equals the code as written |
| FileAnalysis.Reset | src/hooks/useFileAnalysis.ts:32-36 | clears the error, the count and the busy flag |
| FileAnalysis.ShownCode | src/hooks/useFileAnalysis.ts:83-93 | an upload failure shows UPLOAD_FAILED; an empty message becomes UNKNOWN_ERROR |
| FileAnalysis.Analyze | src/hooks/useFileAnalysis.ts:40-98 | at most three attempts; the first success returns at once with count 0; waits 1000 then 2000; after three failures null and the last code's message |
| FileAnalysis.UploadFailureMessage | src/hooks/useFileAnalysis.ts:59-61 | a failed upload shows its own message |
| DropZone.IsValidFileType | src/components/dropZone.tsx:129-138 | exactly image/jpeg, image/png, image/webp, image/gif and application/pdf pass |
| DropZone.FirstValid | src/components/dropZone.tsx:29-31 | the first file, only when it is valid |
| DropZone.DragOver | src/components/dropZone.tsx:11-16 | dragging turns on only when not disabled |
| DropZone.DragLeave | src/components/dropZone.tsx:18-21 | dragging turns off |
| DropZone.Drop | src/components/dropZone.tsx:23-33 | dragging turns off; nothing is delivered while disabled; otherwise the first file when valid |
| DropZone.FileSelect | src/components/dropZone.tsx:35-41 | the first chosen file when valid |
| DropZone.DropAgreesWithPicker | src/components/dropZone.tsx:23-41 | on an enabled zone, dropping and picking the same files deliver the same file |
| DropZone.DisabledZoneIgnoresDrag | src/components/dropZone.tsx:11-33 | while disabled, dragging over does not arm the zone and a drop delivers nothing |
| DropZone.OnlyFirstFileConsidered | src/components/dropZone.tsx:29-39 | a valid file after an invalid first one is ignored |
| Text.NormalizeIdempotent | convex/tags.ts:10 | normalising a name twice is normalising it once |
| Text.BlankIffAllSpace | src/components/tagInput.tsx:67 | `trim()` is empty exactly when every character is white space |
| Text.NatToStringRoundTrip | src/utils/export.ts:78 | the decimal digits of a size read back as the size |
| Text.JoinContains | src/utils/export.ts:60 | every joined part occurs in the joined text |

## Left out

- Canvas drawing, force layout, zoom percentages and every other rendering
  detail: floating-point geometry and a graph library outside the core. The
  opacities are real literals with no arithmetic.
- React state, effects, timers and document listeners. Handlers are pure
  transitions. The check in the keyboard handler that ignores events whose
  target is a text field is left to the caller: `HandleKey` models the events
  that pass it.
- The Convex `ctx.db`/`ctx.storage` APIs, upload URLs and `fetch`. The store is
  a record, a deleted blob is removed from a set, and document ids are naturals
  from a counter. `Files.EmptyTrash` states that the live files remain only
  under unique file ids, which the store guarantees but the record does not.
- `listTags` and `listFileTags` return the tables as they are (`db.tags`,
  `db.fileTags`). They need no member of their own.
- `generateUploadUrl` and `getFileUrl` are storage plumbing.
- `Files.PermanentDeleteFile` has the same body as `deleteFile`. It is defined
  as `DeleteFile` and shares its contract.
- `Files.SoftDeleteMovesToTrash` requires a non-zero clock. A `deletedAt` of 0 is
  falsy, so a file soft-deleted at time 0 stays listed as live.
- Soft-deleted files keep their tag links. Their links then point at nodes the
  graph does not draw (`GraphView.LinksHaveEndpoints` states exactly when all
  links are closed).
- The AI calls, PDF extraction, base64 encoding and `JSON.parse` in
  `convex/analyze.ts`. The reply text is an input, parsing is a function
  parameter, and `String(t)` is taken as already applied. The missing-API-key
  and missing-blob errors are thrown before the `try` block, so the fallback
  does not cover them.
- `Analyze.FromObject`: a `suggestedName` that is not a string is not
  modelled. An array or scalar reply in the object branch is modelled as giving
  empty lists.
- `buildPrompt` beyond its existing-tags paragraph is fixed text.
- `Export.RowCells`: `createdAt` is an opaque string (`toISOString` is not
  modelled), and the size is taken as a non-negative integer.
- `exportToJSON`, `formatDate` and `downloadBlob` are serialisation and DOM
  code.
- `Export.LineBreakLeftUnquoted`: the export quotes only cells with a comma or
  a quote, not those with a line break (section 2, rule 6 of RFC 4180).
  `Export.CsvRoundTrip` therefore requires that no cell holds a line break.
- `GraphView.DisplayLabel`: lengths count characters (Unicode scalar values),
  not UTF-16 code units as `label.length` and `label.slice` do. A name with
  characters outside the Basic Multilingual Plane, such as emoji, is measured
  shorter than in the source and may keep more characters; a `slice` that
  splits a surrogate pair has no counterpart, since Dafny characters are
  whole scalar values.
- `Text.Lower`: lower-casing covers ASCII and the Latin-1 capitals only.
  Other scripts are left out, and so are Unicode special cases such as the
  dotted capital I and final sigma.
- `UploadSidebar`'s `handleFileDrop` error path ("Upload failed", "Une erreur
  est survenue"), its `handleCancel` and preview URLs are not modelled. Neither
  are the sidebar's own upload and analysis calls, which the queue and the retry
  hook model in full.
- `UploadQueue`: `currentIndex` and `isProcessing` are display state. The item
  id handed to `bulkLinkFileTags` stands for the id `saveFile` returns.
- `FileAnalysis.Analyze`: the error shown after the last attempt uses the
  corrected lookup `FileAnalysis.GetErrorMessage`. As written, the hook calls
  the lookup of line 115, so an error whose message is an inherited name such
  as "toString" shows that inherited member rather than the unknown-error
  message (see "## Findings").
- `FileAnalysis.Analyze`: the sleeps are recorded as a list of delays rather
  than waited for. The `error` state is reported at the end of the run only.
- `tagManager.tsx` calls tag rename, colour, delete and merge mutations that
  `convex/tags.ts` does not define. The other files named above are
  presentation only.
- Link keys "a-b" are ordered pairs. The string key is the same key only when
  ids contain no '-'.

## Findings

| source | as written | input that shows it | evidently intended | confidence | as-written member | corrected member |
|---|---|---|---|---|---|---|
| src/hooks/useFileAnalysis.ts:115 | `messages[code] \|\| messages.UNKNOWN_ERROR` reads `code` on an object literal, so inherited `Object.prototype` members ("toString", "constructor", "__proto__", …) are found and are truthy | an error whose message is "toString" | every code without its own message shows the unknown-error message | medium, not executed | FileAnalysis.GetErrorMessageAsWritten (with FileAnalysis.InheritedCodeEscapesFallback) | FileAnalysis.GetErrorMessage (with FileAnalysis.CorrectedAgreesElsewhere) |

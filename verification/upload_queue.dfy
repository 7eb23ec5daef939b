/**
 The batch upload queue: one item per chosen file, each moving through
 pending, uploading, analysing, ready, saving and done (or error). Network
 calls are replaced by their outcomes, given per item index.
 */
module UploadQueue {
  import opened Text
  import opened TagSelection

  datatype Status = Pending | Uploading | Analyzing | Ready | Saving | Done | Failed

  datatype QueueFile = QueueFile(name: string, mimeType: string, size: nat)

  datatype Item = Item(
    id: string,
    file: QueueFile,
    status: Status,
    error: Option<string>,
    storageId: Option<string>,
    existingTags: seq<string>,
    newTags: seq<string>,
    selected: seq<string>,
    suggestedName: Option<string>)

  /** `${file.name}-${index}` */
  function ItemId(name: string, index: nat): string {
    name + "-" + NatToString(index)
  }

  /** The queue's initial state: every file pending, with nothing suggested or selected. */
  function InitQueue(files: seq<QueueFile>): (q: seq<Item>)
    ensures |q| == |files|
    ensures forall i :: 0 <= i < |q| ==> q[i] == Item(ItemId(files[i].name, i), files[i], Pending, None, None, [], [], [], None)
  {
    seq(|files|, i requires 0 <= i < |files| => Item(ItemId(files[i].name, i), files[i], Pending, None, None, [], [], [], None))
  }

  /** The index is the text after the id's last '-', since decimal digits hold no '-'. */
  lemma ItemIdSuffix(name: string, index: nat)
    ensures var id := ItemId(name, index);
      '-' in id && id[LastIndexOf(id, '-') + 1..] == NatToString(index)
  {
    var id := ItemId(name, index);
    var d := NatToString(index);
    assert id[|name|] == '-';
    assert '-' !in d;
    assert id[|name| + 1..] == d;
  }

  /** Queue ids are pairwise distinct, whatever the file names. */
  lemma InitIdsDistinct(files: seq<QueueFile>, i: nat, j: nat)
    requires i < |files| && j < |files| && i != j
    ensures InitQueue(files)[i].id != InitQueue(files)[j].id
  {
    ItemIdSuffix(files[i].name, i);
    ItemIdSuffix(files[j].name, j);
    if ItemId(files[i].name, i) == ItemId(files[j].name, j) {
      NatToStringInjective(i, j);
    }
  }

  /** `prev.map((q, i) => (i === index ? change(q) : q))` */
  function UpdateAt(q: seq<Item>, index: nat, change: Item -> Item): (r: seq<Item>)
    requires index < |q|
    ensures |r| == |q| && r[index] == change(q[index])
    ensures forall j :: 0 <= j < |q| && j != index ==> r[j] == q[j]
  {
    q[index := change(q[index])]
  }

  /** `toggleTag(itemId, tagName)`: flips the tag in the items with that id. */
  function ToggleTag(q: seq<Item>, itemId: string, tag: string): (r: seq<Item>)
    ensures |r| == |q|
    ensures forall j :: 0 <= j < |q| && q[j].id != itemId ==> r[j] == q[j]
    ensures forall j :: 0 <= j < |q| && q[j].id == itemId ==> r[j] == q[j].(selected := Toggle(q[j].selected, tag))
  {
    seq(|q|, j requires 0 <= j < |q| => if q[j].id != itemId then q[j] else q[j].(selected := Toggle(q[j].selected, tag)))
  }

  /** Toggling a tag twice restores each item's selected set, and the item
      itself when the tag was not selected. */
  lemma ToggleTagTwice(q: seq<Item>, itemId: string, tag: string, j: nat)
    requires j < |q| && NoDuplicates(q[j].selected)
    ensures var r := ToggleTag(ToggleTag(q, itemId, tag), itemId, tag);
      (forall x :: x in r[j].selected <==> x in q[j].selected)
      && (tag !in q[j].selected ==> r[j] == q[j])
  {
    ToggleTwice(q[j].selected, tag);
  }

  /** How the network calls of one `processFile` end. A message of None stands
      for a thrown value that is not an `Error`. */
  datatype ProcessOutcome =
    | UploadRejected
    | UploadThrew(message: Option<string>)
    | AnalysisThrew(storageId: string, message: Option<string>)
    | Analyzed(storageId: string, existingTags: seq<string>, newTags: seq<string>, suggestedName: Option<string>)

  function ErrorText(message: Option<string>, otherwise: string): string {
    if message.Some? then message.value else otherwise
  }

  /** The queue after `processFile(item, index)` and the statuses the item took on. */
  datatype Processed = Processed(queue: seq<Item>, trace: seq<Status>)

  function ProcessFile(q: seq<Item>, index: nat, o: ProcessOutcome): (r: Processed)
    requires index < |q|
    ensures |r.queue| == |q|
    ensures forall j :: 0 <= j < |q| && j != index ==> r.queue[j] == q[j]
    ensures |r.trace| >= 2 && r.trace[0] == Uploading && r.trace[|r.trace| - 1] == r.queue[index].status
    ensures r.queue[index].status == Ready <==> o.Analyzed?
    ensures r.queue[index].status == Ready || r.queue[index].status == Failed
    ensures r.queue[index].status == Failed ==> r.queue[index].error.Some?
    ensures o.UploadRejected? ==> r.queue[index].error == Some("Upload failed")
    ensures o.Analyzed? ==>
      && r.queue[index].existingTags == o.existingTags && r.queue[index].newTags == o.newTags
      && r.queue[index].suggestedName == o.suggestedName && r.queue[index].storageId == Some(o.storageId)
      && (forall t :: t in r.queue[index].selected <==> t in o.existingTags || t in o.newTags)
    ensures r.queue[index].id == q[index].id && r.queue[index].file == q[index].file
  {
    var q1 := UpdateAt(q, index, (it: Item) => it.(status := Uploading));
    match o
    case UploadRejected =>
      Processed(UpdateAt(q1, index, (it: Item) => it.(status := Failed, error := Some("Upload failed"))), [Uploading, Failed])
    case UploadThrew(m) =>
      Processed(UpdateAt(q1, index, (it: Item) => it.(status := Failed, error := Some(ErrorText(m, "Erreur inconnue")))), [Uploading, Failed])
    case AnalysisThrew(sid, m) =>
      var q2 := UpdateAt(q1, index, (it: Item) => it.(status := Analyzing, storageId := Some(sid)));
      Processed(UpdateAt(q2, index, (it: Item) => it.(status := Failed, error := Some(ErrorText(m, "Erreur inconnue")))), [Uploading, Analyzing, Failed])
    case Analyzed(sid, e, n, name) =>
      var q2 := UpdateAt(q1, index, (it: Item) => it.(status := Analyzing, storageId := Some(sid)));
      Processed(UpdateAt(q2, index, (it: Item) => it.(status := Ready, existingTags := e, newTags := n,
                                                       selected := FromList(e + n), suggestedName := name)),
                [Uploading, Analyzing, Ready])
  }

  /** `startProcessing`: walks the queue as it was when the run began and
      processes exactly the items that were pending then, in order. */
  method StartProcessing(q: seq<Item>, outcome: nat -> ProcessOutcome) returns (r: seq<Item>, processed: seq<nat>)
    ensures |r| == |q|
    ensures forall i :: 0 <= i < |q| ==> (i in processed <==> q[i].status == Pending)
    ensures forall k, l :: 0 <= k < l < |processed| ==> processed[k] < processed[l]
    ensures forall i :: 0 <= i < |q| && q[i].status != Pending ==> r[i] == q[i]
    ensures forall i :: 0 <= i < |q| && q[i].status == Pending ==>
      r[i].status == (if outcome(i).Analyzed? then Ready else Failed)
  {
    r := q;
    processed := [];
    var i := 0;
    while i < |q|
      invariant 0 <= i <= |q| && |r| == |q|
      invariant forall j :: i <= j < |q| ==> r[j] == q[j]
      invariant forall j :: 0 <= j < i && q[j].status != Pending ==> r[j] == q[j]
      invariant forall j :: 0 <= j < i && q[j].status == Pending ==>
        r[j].status == (if outcome(j).Analyzed? then Ready else Failed)
      invariant forall j :: j in processed <==> 0 <= j < i && q[j].status == Pending
      invariant forall k, l :: 0 <= k < l < |processed| ==> processed[k] < processed[l]
      invariant forall k :: 0 <= k < |processed| ==> processed[k] < i
    {
      if q[i].status == Pending {
        r := ProcessStep(r, i, outcome(i));
        processed := processed + [i];
      }
      i := i + 1;
    }
  }

  /** One `await processFile(item, i)` of the loop, seen from the loop: only the
      item at `index` changes, and it ends ready or failed. */
  method ProcessStep(q: seq<Item>, index: nat, o: ProcessOutcome) returns (r: seq<Item>)
    requires index < |q|
    ensures |r| == |q|
    ensures forall j :: 0 <= j < |q| && j != index ==> r[j] == q[j]
    ensures r[index].status == (if o.Analyzed? then Ready else Failed)
  {
    r := ProcessFile(q, index, o).queue;
  }

  /** An item `saveAll` takes up: ready, with a non-empty storage id. */
  predicate Saveable(it: Item) {
    it.status == Ready && it.storageId.Some? && it.storageId.value != ""
  }

  /** `item.suggestedName ?? item.file.name` */
  function QueueSavedName(it: Item): (r: string)
    ensures it.suggestedName.Some? ==> r == it.suggestedName.value
    ensures it.suggestedName.None? ==> r == it.file.name
  {
    if it.suggestedName.Some? then it.suggestedName.value else it.file.name
  }

  /** How the two store calls of one save end. */
  datatype SaveOutcome = Saved | SaveFileThrew(message: Option<string>) | LinkThrew(message: Option<string>)

  /** The calls `saveAll` makes, in order. */
  datatype Call =
    | SaveFileCall(storageId: string, name: string, mimeType: string, size: nat)
    | BulkLinkCall(itemId: string, tagNames: seq<string>)
    | CompleteCall

  /** The calls for one item: `saveFile`, then `bulkLinkFileTags` unless saving threw. */
  function SaveCalls(it: Item, o: SaveOutcome): (r: seq<Call>)
    requires Saveable(it)
    ensures |r| >= 1 && r[0] == SaveFileCall(it.storageId.value, QueueSavedName(it), it.file.mimeType, it.file.size)
    ensures CompleteCall !in r
    ensures o.SaveFileThrew? <==> |r| == 1
    ensures !o.SaveFileThrew? ==> |r| == 2 && r[1] == BulkLinkCall(it.id, it.selected)
  {
    var save := SaveFileCall(it.storageId.value, QueueSavedName(it), it.file.mimeType, it.file.size);
    if o.SaveFileThrew? then [save] else [save, BulkLinkCall(it.id, it.selected)]
  }

  /** The item after its save: done, or failed with the thrown message. */
  function AfterSave(it: Item, o: SaveOutcome): (r: Item)
    ensures r.status == (if o.Saved? then Done else Failed)
    ensures r == it.(status := r.status, error := r.error)
    ensures o.Saved? ==> r.error == it.error
  {
    match o
    case Saved => it.(status := Done)
    case SaveFileThrew(m) => it.(status := Failed, error := Some(ErrorText(m, "Erreur sauvegarde")))
    case LinkThrew(m) => it.(status := Failed, error := Some(ErrorText(m, "Erreur sauvegarde")))
  }

  /** The store calls for the first `n` items, in queue order: each saveable
      item's calls, nothing for the others. */
  function CallsUpTo(q: seq<Item>, outcome: nat -> SaveOutcome, n: nat): (r: seq<Call>)
    requires n <= |q|
    ensures CompleteCall !in r
  {
    if n == 0 then []
    else CallsUpTo(q, outcome, n - 1) + (if Saveable(q[n - 1]) then SaveCalls(q[n - 1], outcome(n - 1)) else [])
  }

  /** The save call of item `i`. */
  function SaveFileCallOf(it: Item): (c: Call)
    requires Saveable(it)
  {
    SaveFileCall(it.storageId.value, QueueSavedName(it), it.file.mimeType, it.file.size)
  }

  /** Every saveable item among the first `n` is saved, and linked unless its
      save threw; and every save call belongs to a saveable item. */
  lemma {:induction false} CallsAccounted(q: seq<Item>, outcome: nat -> SaveOutcome, n: nat)
    requires n <= |q|
    ensures forall i :: 0 <= i < n && Saveable(q[i]) ==> SaveFileCallOf(q[i]) in CallsUpTo(q, outcome, n)
    ensures forall i :: 0 <= i < n && Saveable(q[i]) && !outcome(i).SaveFileThrew? ==>
      BulkLinkCall(q[i].id, q[i].selected) in CallsUpTo(q, outcome, n)
    ensures forall c :: c in CallsUpTo(q, outcome, n) && c.SaveFileCall? ==>
      exists i :: 0 <= i < n && Saveable(q[i]) && c == SaveFileCallOf(q[i])
  {
    if n > 0 {
      CallsAccounted(q, outcome, n - 1);
      var prev := CallsUpTo(q, outcome, n - 1);
      var all := CallsUpTo(q, outcome, n);
      if Saveable(q[n - 1]) {
        var more := SaveCalls(q[n - 1], outcome(n - 1));
        assert all == prev + more;
        assert more[0] in all;
        if !outcome(n - 1).SaveFileThrew? {
          assert more[1] in all;
        }
        forall c | c in all && c.SaveFileCall?
          ensures exists i :: 0 <= i < n && Saveable(q[i]) && c == SaveFileCallOf(q[i])
        {
          if c !in prev {
            assert c == more[0];
          }
        }
      } else {
        assert all == prev;
      }
    }
  }

  /** `saveAll`: saves exactly the saveable items of the queue as it was when the
      run began, each through "saving" to done or error, then signals completion
      once, last. */
  method SaveAll(q: seq<Item>, outcome: nat -> SaveOutcome) returns (r: seq<Item>, calls: seq<Call>)
    ensures |r| == |q|
    ensures forall i :: 0 <= i < |q| && !Saveable(q[i]) ==> r[i] == q[i]
    ensures forall i :: 0 <= i < |q| && Saveable(q[i]) ==> r[i] == AfterSave(q[i], outcome(i))
    ensures |calls| >= 1 && calls[|calls| - 1] == CompleteCall
    ensures forall k :: 0 <= k < |calls| - 1 ==> calls[k] != CompleteCall
    ensures calls == CallsUpTo(q, outcome, |q|) + [CompleteCall]
    ensures forall i :: 0 <= i < |q| && Saveable(q[i]) ==> SaveFileCallOf(q[i]) in calls
    ensures forall i :: 0 <= i < |q| && Saveable(q[i]) && !outcome(i).SaveFileThrew? ==>
      BulkLinkCall(q[i].id, q[i].selected) in calls
    ensures forall c :: c in calls && c.SaveFileCall? ==>
      exists i :: 0 <= i < |q| && Saveable(q[i]) && c == SaveFileCallOf(q[i])
  {
    r := q;
    calls := [];
    var i := 0;
    while i < |q|
      invariant 0 <= i <= |q| && |r| == |q|
      invariant forall j :: i <= j < |q| ==> r[j] == q[j]
      invariant forall j :: 0 <= j < i && !Saveable(q[j]) ==> r[j] == q[j]
      invariant forall j :: 0 <= j < i && Saveable(q[j]) ==> r[j] == AfterSave(q[j], outcome(j))
      invariant calls == CallsUpTo(q, outcome, i)
    {
      if Saveable(q[i]) {
        r := UpdateAt(r, i, (it: Item) => it.(status := Saving));
        var more := SaveCalls(q[i], outcome(i));
        r := UpdateAt(r, i, (it: Item) => AfterSave(it, outcome(i)));
        calls := calls + more;
      }
      i := i + 1;
    }
    CallsAccounted(q, outcome, |q|);
    calls := calls + [CompleteCall];
  }

  /** `queue.filter((q) => q.status === s).length` */
  function CountStatus(q: seq<Item>, s: Status): (r: nat)
    ensures r <= |q|
  {
    if |q| == 0 then 0 else (if q[0].status == s then 1 else 0) + CountStatus(q[1..], s)
  }

  function Statuses(q: seq<Item>): (r: seq<Status>)
    ensures |r| == |q| && forall i :: 0 <= i < |q| ==> r[i] == q[i].status
  {
    seq(|q|, i requires 0 <= i < |q| => q[i].status)
  }

  /** The counters are the multiplicities of their status among the items. */
  lemma {:induction false} CountIsMultiplicity(q: seq<Item>, s: Status)
    ensures CountStatus(q, s) == multiset(Statuses(q))[s]
  {
    if |q| > 0 {
      CountIsMultiplicity(q[1..], s);
      assert Statuses(q) == [q[0].status] + Statuses(q[1..]);
    }
  }

  /** `readyCount` */
  function ReadyCount(q: seq<Item>): (r: nat)
    ensures r == multiset(Statuses(q))[Ready]
  {
    CountIsMultiplicity(q, Ready);
    CountStatus(q, Ready)
  }

  /** `doneCount` */
  function DoneCount(q: seq<Item>): (r: nat)
    ensures r == multiset(Statuses(q))[Done]
  {
    CountIsMultiplicity(q, Done);
    CountStatus(q, Done)
  }
}

/**
 The tag mutations and queries: find-or-create by normalised name,
 idempotent linking of a file to a tag, unlinking, the tags of one file, and
 the bulk link used after an upload.
 */
module Tags {
  import opened Text
  import opened Store

  /** `createTag`: the id of the oldest tag with the normalised name, or of a
      new tag with that name appended to the table. */
  function CreateTag(db: Db, name: string, color: Option<string>): (r: (Db, Id))
    ensures var n := Normalize(name);
      exists k :: 0 <= k < |r.0.tags| && r.0.tags[k].id == r.1 && r.0.tags[k].name == n
    ensures (exists k :: 0 <= k < |db.tags| && db.tags[k].name == Normalize(name)) ==> r.0 == db
    ensures !(exists k :: 0 <= k < |db.tags| && db.tags[k].name == Normalize(name)) ==>
      r.1 == db.nextId && r.0.nextId == db.nextId + 1
      && r.0.tags == db.tags + [TagDoc(db.nextId, Normalize(name), color)]
    ensures r.0.files == db.files && r.0.fileTags == db.fileTags && r.0.blobs == db.blobs
  {
    var n := Normalize(name);
    var k := FirstIndex(db.tags, (t: TagDoc) => t.name == n);
    if k >= 0 then
      (db, db.tags[k].id)
    else
      var tags := db.tags + [TagDoc(db.nextId, n, color)];
      assert tags[|db.tags|].name == n;
      (db.(tags := tags, nextId := db.nextId + 1), db.nextId)
  }

  /** Two names with the same normal form reach the same tag: the second call
      inserts nothing and answers the first call's id. Calling twice with one
      name is the special case of idempotence. */
  lemma CreateTagSameNormalForm(db: Db, a: string, b: string, c1: Option<string>, c2: Option<string>)
    requires Normalize(a) == Normalize(b)
    ensures var (db1, id1) := CreateTag(db, a, c1);
      CreateTag(db1, b, c2) == (db1, id1)
  {
    var n := Normalize(a);
    var (db1, id1) := CreateTag(db, a, c1);
    var k1 := FirstIndex(db.tags, (t: TagDoc) => t.name == n);
    var k2 := FirstIndex(db1.tags, (t: TagDoc) => t.name == n);
    if k1 == -1 {
      assert k2 == |db.tags|;
    } else {
      assert k2 == k1;
    }
  }

  /** Creating a tag never introduces a second tag with an existing name. */
  lemma CreateTagKeepsNamesUnique(db: Db, name: string, color: Option<string>)
    requires UniqueTagNames(db)
    ensures UniqueTagNames(CreateTag(db, name, color).0)
  {
    var n := Normalize(name);
    if !(exists k :: 0 <= k < |db.tags| && db.tags[k].name == n) {
      var tags := CreateTag(db, name, color).0.tags;
      forall i, j | 0 <= i < j < |tags|
        ensures tags[i].name != tags[j].name
      {
        assert tags[i] == db.tags[i];
        if j < |db.tags| {
          assert tags[j] == db.tags[j];
        } else {
          assert tags[j].name == n;
        }
      }
    }
  }

  /** `linkFileTag`: the id of the oldest link between the file and the tag, or of
      a new link appended to the table. */
  function LinkFileTag(db: Db, fileId: Id, tagId: Id): (r: (Db, Id))
    ensures exists k :: 0 <= k < |r.0.fileTags| && r.0.fileTags[k] == FileTagDoc(r.1, fileId, tagId)
    ensures Linked(db, fileId, tagId) ==> r.0 == db
    ensures !Linked(db, fileId, tagId) ==>
      r.1 == db.nextId && r.0.nextId == db.nextId + 1
      && r.0.fileTags == db.fileTags + [FileTagDoc(db.nextId, fileId, tagId)]
    ensures r.0.files == db.files && r.0.tags == db.tags && r.0.blobs == db.blobs
  {
    var k := FirstIndex(db.fileTags, (l: FileTagDoc) => l.fileId == fileId && l.tagId == tagId);
    if k >= 0 then
      (db, db.fileTags[k].id)
    else
      var links := db.fileTags + [FileTagDoc(db.nextId, fileId, tagId)];
      assert links[|db.fileTags|] == FileTagDoc(db.nextId, fileId, tagId);
      (db.(fileTags := links, nextId := db.nextId + 1), db.nextId)
  }

  /** Linking never creates a second link for a pair. */
  lemma LinkFileTagKeepsPairsUnique(db: Db, fileId: Id, tagId: Id)
    requires UniquePairs(db)
    ensures UniquePairs(LinkFileTag(db, fileId, tagId).0)
  {
  }

  /** Linking the same pair again changes nothing and answers the same link id. */
  lemma LinkFileTagIdempotent(db: Db, fileId: Id, tagId: Id)
    ensures var (db1, id1) := LinkFileTag(db, fileId, tagId);
      LinkFileTag(db1, fileId, tagId) == (db1, id1)
  {
    var (db1, id1) := LinkFileTag(db, fileId, tagId);
    var k1 := FirstIndex(db.fileTags, (l: FileTagDoc) => l.fileId == fileId && l.tagId == tagId);
    var k2 := FirstIndex(db1.fileTags, (l: FileTagDoc) => l.fileId == fileId && l.tagId == tagId);
    if k1 == -1 {
      assert k2 == |db.fileTags|;
    } else {
      assert k2 == k1;
    }
  }

  /** `unlinkFileTag`: deletes the oldest link between the file and the tag, if any. */
  function UnlinkFileTag(db: Db, fileId: Id, tagId: Id): (r: Db)
    ensures !Linked(db, fileId, tagId) ==> r == db
    ensures Linked(db, fileId, tagId) ==>
      exists k :: 0 <= k < |db.fileTags| && db.fileTags[k].fileId == fileId && db.fileTags[k].tagId == tagId
        && r.fileTags == db.fileTags[..k] + db.fileTags[k + 1..]
    ensures r.files == db.files && r.tags == db.tags && r.blobs == db.blobs && r.nextId == db.nextId
  {
    var k := FirstIndex(db.fileTags, (l: FileTagDoc) => l.fileId == fileId && l.tagId == tagId);
    if k == -1 then db
    else db.(fileTags := db.fileTags[..k] + db.fileTags[k + 1..])
  }

  /** Unlinking removes one link and shifts the later ones down by one place. */
  lemma UnlinkShifts(db: Db, fileId: Id, tagId: Id, k: int)
    requires k == FirstIndex(db.fileTags, (l: FileTagDoc) => l.fileId == fileId && l.tagId == tagId) && k >= 0
    ensures var r := UnlinkFileTag(db, fileId, tagId);
      |r.fileTags| == |db.fileTags| - 1
      && forall i :: 0 <= i < |r.fileTags| ==> r.fileTags[i] == db.fileTags[if i < k then i else i + 1]
  {
  }

  /** When pairs are unique, unlinking leaves the pair unlinked and every other
      pair as linked as it was. */
  lemma UnlinkRemovesPair(db: Db, fileId: Id, tagId: Id)
    requires UniquePairs(db)
    ensures var r := UnlinkFileTag(db, fileId, tagId);
      && !Linked(r, fileId, tagId)
      && UniquePairs(r)
      && forall f: Id, t: Id :: (f, t) != (fileId, tagId) ==> (Linked(r, f, t) <==> Linked(db, f, t))
  {
    var k := FirstIndex(db.fileTags, (l: FileTagDoc) => l.fileId == fileId && l.tagId == tagId);
    if k >= 0 {
      UnlinkShifts(db, fileId, tagId, k);
      UnlinkKeepsPairsUnique(db, UnlinkFileTag(db, fileId, tagId), fileId, tagId, k);
      UnlinkClearsPair(db, UnlinkFileTag(db, fileId, tagId), fileId, tagId, k);
      UnlinkKeepsOthers(db, UnlinkFileTag(db, fileId, tagId), fileId, tagId, k);
    }
  }

  /** The links after removing position `k`. */
  predicate RemovedAt(db: Db, r: Db, k: int) {
    && 0 <= k < |db.fileTags|
    && |r.fileTags| == |db.fileTags| - 1
    && forall i :: 0 <= i < |r.fileTags| ==> r.fileTags[i] == db.fileTags[if i < k then i else i + 1]
  }

  lemma UnlinkKeepsPairsUnique(db: Db, r: Db, fileId: Id, tagId: Id, k: int)
    requires UniquePairs(db) && RemovedAt(db, r, k)
    ensures UniquePairs(r)
  {
    forall i, j | 0 <= i < j < |r.fileTags|
      ensures (r.fileTags[i].fileId, r.fileTags[i].tagId) != (r.fileTags[j].fileId, r.fileTags[j].tagId)
    {
      assert r.fileTags[i] == db.fileTags[if i < k then i else i + 1];
      assert r.fileTags[j] == db.fileTags[if j < k then j else j + 1];
    }
  }

  lemma UnlinkClearsPair(db: Db, r: Db, fileId: Id, tagId: Id, k: int)
    requires UniquePairs(db) && RemovedAt(db, r, k)
    requires db.fileTags[k].fileId == fileId && db.fileTags[k].tagId == tagId
    ensures !Linked(r, fileId, tagId)
  {
    forall i | 0 <= i < |r.fileTags|
      ensures (r.fileTags[i].fileId, r.fileTags[i].tagId) != (fileId, tagId)
    {
      assert r.fileTags[i] == db.fileTags[if i < k then i else i + 1];
    }
  }

  lemma UnlinkKeepsOthers(db: Db, r: Db, fileId: Id, tagId: Id, k: int)
    requires RemovedAt(db, r, k)
    requires db.fileTags[k].fileId == fileId && db.fileTags[k].tagId == tagId
    ensures forall f: Id, t: Id :: (f, t) != (fileId, tagId) ==> (Linked(r, f, t) <==> Linked(db, f, t))
  {
    forall f: Id, t: Id | (f, t) != (fileId, tagId) && Linked(db, f, t)
      ensures Linked(r, f, t)
    {
      var i :| 0 <= i < |db.fileTags| && db.fileTags[i].fileId == f && db.fileTags[i].tagId == t;
      assert r.fileTags[if i < k then i else i - 1] == db.fileTags[i];
    }
    forall f: Id, t: Id | Linked(r, f, t)
      ensures Linked(db, f, t)
    {
      var i :| 0 <= i < |r.fileTags| && r.fileTags[i].fileId == f && r.fileTags[i].tagId == t;
      assert db.fileTags[if i < k then i else i + 1] == r.fileTags[i];
    }
  }

  /** Unlinking a pair that was just linked for the first time gives the store
      back, apart from the spent id. */
  lemma UnlinkUndoesLink(db: Db, fileId: Id, tagId: Id)
    requires !Linked(db, fileId, tagId)
    ensures UnlinkFileTag(LinkFileTag(db, fileId, tagId).0, fileId, tagId) == db.(nextId := db.nextId + 1)
  {
    var db1 := LinkFileTag(db, fileId, tagId).0;
    var k := FirstIndex(db1.fileTags, (l: FileTagDoc) => l.fileId == fileId && l.tagId == tagId);
    assert k == |db.fileTags|;
    assert db1.fileTags[..k] == db.fileTags;
  }

  /** `ctx.db.get(id)` on the tags table. */
  function TagById(tags: seq<TagDoc>, id: Id): (r: Option<TagDoc>)
    ensures r.Some? <==> exists k :: 0 <= k < |tags| && tags[k].id == id
    ensures r.Some? ==> r.value in tags && r.value.id == id
  {
    var k := FirstIndex(tags, (t: TagDoc) => t.id == id);
    if k == -1 then None else Some(tags[k])
  }

  /** The tags of the given links that still exist, in link order. */
  function TagsOfLinks(tags: seq<TagDoc>, links: seq<FileTagDoc>, fileId: Id): (r: seq<TagDoc>)
    ensures forall t :: t in r ==> (t in tags &&
      exists k :: 0 <= k < |links| && links[k].fileId == fileId && links[k].tagId == t.id)
    ensures forall k :: 0 <= k < |links| && links[k].fileId == fileId && TagById(tags, links[k].tagId).Some? ==>
      TagById(tags, links[k].tagId).value in r
    ensures |r| <= |links|
  {
    if |links| == 0 then []
    else
      var rest := TagsOfLinks(tags, links[1..], fileId);
      var head := if links[0].fileId == fileId then TagById(tags, links[0].tagId) else None;
      var r := (if head.Some? then [head.value] else []) + rest;
      assert forall k :: 1 <= k < |links| ==> links[k] == links[1..][k - 1];
      r
  }

  /** The tags follow link order: the tags of earlier links come first. */
  lemma {:induction false} TagsOfLinksAppend(tags: seq<TagDoc>, a: seq<FileTagDoc>, b: seq<FileTagDoc>, fileId: Id)
    ensures TagsOfLinks(tags, a + b, fileId) == TagsOfLinks(tags, a, fileId) + TagsOfLinks(tags, b, fileId)
  {
    if |a| == 0 {
      assert a + b == b;
    } else {
      assert (a + b)[1..] == a[1..] + b;
      TagsOfLinksAppend(tags, a[1..], b, fileId);
    }
  }

  /** `getFileTags`: one tag per link of the file, dropping links whose tag is gone. */
  function GetFileTags(db: Db, fileId: Id): (r: seq<TagDoc>)
    ensures forall t :: t in r ==> t in db.tags && Linked(db, fileId, t.id)
    ensures forall tagId :: Linked(db, fileId, tagId) && TagById(db.tags, tagId).Some? ==>
      TagById(db.tags, tagId).value in r
  {
    TagsOfLinks(db.tags, db.fileTags, fileId)
  }

  /** Some tag named `n` is linked to the file. */
  predicate HasLinkedTag(db: Db, fileId: Id, n: string) {
    exists k :: 0 <= k < |db.tags| && db.tags[k].name == n && Linked(db, fileId, db.tags[k].id)
  }

  /** `r` only appended to the tag and link tables of `db`, and left files and blobs alone. */
  predicate Grows(db: Db, r: Db) {
    && |db.tags| <= |r.tags| && r.tags[..|db.tags|] == db.tags
    && |db.fileTags| <= |r.fileTags| && r.fileTags[..|db.fileTags|] == db.fileTags
    && r.files == db.files && r.blobs == db.blobs
  }

  lemma GrowsTransitive(a: Db, b: Db, c: Db)
    requires Grows(a, b) && Grows(b, c)
    ensures Grows(a, c)
  {
    assert c.tags[..|a.tags|] == c.tags[..|b.tags|][..|a.tags|];
    assert c.fileTags[..|a.fileTags|] == c.fileTags[..|b.fileTags|][..|a.fileTags|];
  }

  /** A tag linked to the file keeps its name and its link when the tables only grow. */
  lemma LinkedNamePersists(db: Db, r: Db, fileId: Id, n: string)
    requires HasLinkedTag(db, fileId, n) && Grows(db, r)
    ensures HasLinkedTag(r, fileId, n)
  {
    var k :| 0 <= k < |db.tags| && db.tags[k].name == n && Linked(db, fileId, db.tags[k].id);
    var j :| 0 <= j < |db.fileTags| && db.fileTags[j].fileId == fileId && db.fileTags[j].tagId == db.tags[k].id;
    assert r.tags[k] == db.tags[k];
    assert r.fileTags[j] == db.fileTags[j];
  }

  /** One iteration of `bulkLinkFileTags`: find or create the tag, then link it. */
  function BulkStep(db: Db, fileId: Id, name: string): (r: Db)
    ensures HasLinkedTag(r, fileId, Normalize(name))
    ensures Grows(db, r)
    ensures UniqueTagNames(db) ==> UniqueTagNames(r)
    ensures UniquePairs(db) ==> UniquePairs(r)
  {
    var (db1, tagId) := CreateTag(db, name, None);
    CreateTagGrows(db, name);
    LinkStepFacts(db1, fileId, tagId);
    if UniqueTagNames(db) then
      CreateTagKeepsNamesUnique(db, name, None);
      LinkFileTag(db1, fileId, tagId).0
    else
      LinkFileTag(db1, fileId, tagId).0
  }

  lemma CreateTagGrows(db: Db, name: string)
    ensures Grows(db, CreateTag(db, name, None).0)
  {
  }

  /** Linking a tag only grows the link table, and afterwards the tag's name is
      linked to the file. */
  lemma LinkStepFacts(db1: Db, fileId: Id, tagId: Id)
    ensures var r := LinkFileTag(db1, fileId, tagId).0;
      && Grows(db1, r)
      && (forall n :: (exists k :: 0 <= k < |db1.tags| && db1.tags[k].id == tagId && db1.tags[k].name == n) ==>
            HasLinkedTag(r, fileId, n))
      && (UniqueTagNames(db1) ==> UniqueTagNames(r))
      && (UniquePairs(db1) ==> UniquePairs(r))
  {
  }

  /** Every one of `names` has a tag with its normal form linked to the file. */
  predicate AllNamesLinked(db: Db, fileId: Id, names: seq<string>)
    decreases |names|
  {
    |names| == 0 || (HasLinkedTag(db, fileId, Normalize(names[0])) && AllNamesLinked(db, fileId, names[1..]))
  }

  lemma {:induction false} AllNamesLinkedEach(db: Db, fileId: Id, names: seq<string>, i: nat)
    requires AllNamesLinked(db, fileId, names) && i < |names|
    ensures HasLinkedTag(db, fileId, Normalize(names[i]))
    decreases i
  {
    if i > 0 {
      AllNamesLinkedEach(db, fileId, names[1..], i - 1);
      assert names[1..][i - 1] == names[i];
    }
  }

  /** `bulkLinkFileTags`: every name ends up as a tag with its normal form, linked
      to the file; tables only grow; unique names and unique pairs stay unique,
      whatever repeats or case and white-space variants the names contain. */
  function BulkLinkFileTags(db: Db, fileId: Id, names: seq<string>): (r: Db)
    ensures AllNamesLinked(r, fileId, names)
    ensures Grows(db, r)
    ensures UniqueTagNames(db) ==> UniqueTagNames(r)
    ensures UniquePairs(db) ==> UniquePairs(r)
    decreases |names|
  {
    if |names| == 0 then db
    else
      var db1 := BulkStep(db, fileId, names[0]);
      var r := BulkLinkFileTags(db1, fileId, names[1..]);
      LinkedNamePersists(db1, r, fileId, Normalize(names[0]));
      GrowsTransitive(db, db1, r);
      r
  }

  /** After the bulk link, each given name has a tag with its normal form linked to the file. */
  lemma BulkLinkLinksEveryName(db: Db, fileId: Id, names: seq<string>, i: nat)
    requires i < |names|
    ensures HasLinkedTag(BulkLinkFileTags(db, fileId, names), fileId, Normalize(names[i]))
  {
    AllNamesLinkedEach(BulkLinkFileTags(db, fileId, names), fileId, names, i);
  }
}

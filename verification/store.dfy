/**
 The database behind the mutations and queries: three tables kept in
 insertion order, the set of stored blobs, and the counter that hands out
 fresh document ids. Document ids are modelled as numbers; the store treats
 them as opaque.
 */
module Store {
  import opened Text

  type Id = nat

  datatype FileDoc = FileDoc(
    id: Id,
    storageId: Id,
    name: string,
    mimeType: string,
    size: Option<int>,
    createdAt: int,
    deletedAt: Option<int>)

  datatype TagDoc = TagDoc(id: Id, name: string, color: Option<string>)

  datatype FileTagDoc = FileTagDoc(id: Id, fileId: Id, tagId: Id)

  datatype Db = Db(
    files: seq<FileDoc>,
    tags: seq<TagDoc>,
    fileTags: seq<FileTagDoc>,
    blobs: set<Id>,
    nextId: Id)

  /** `f.deletedAt` is truthy: set and not zero. */
  predicate IsDeleted(f: FileDoc) {
    f.deletedAt.Some? && f.deletedAt.value != 0
  }

  /** The first position whose element satisfies `p`, or -1: the `.first()` of a
      query, which walks the table oldest first. */
  function FirstIndex<T>(s: seq<T>, p: T -> bool): (r: int)
    ensures -1 <= r < |s|
    ensures r == -1 <==> forall k :: 0 <= k < |s| ==> !p(s[k])
    ensures r >= 0 ==> p(s[r]) && forall k :: 0 <= k < r ==> !p(s[k])
  {
    if |s| == 0 then -1
    else if p(s[0]) then 0
    else
      var r := FirstIndex(s[1..], p);
      if r == -1 then -1 else r + 1
  }

  /** No two tags share a name. */
  predicate UniqueTagNames(db: Db) {
    forall i, j :: 0 <= i < j < |db.tags| ==> db.tags[i].name != db.tags[j].name
  }

  /** No (file, tag) pair is linked twice. */
  predicate UniquePairs(db: Db) {
    forall i, j :: 0 <= i < j < |db.fileTags| ==>
      (db.fileTags[i].fileId, db.fileTags[i].tagId) != (db.fileTags[j].fileId, db.fileTags[j].tagId)
  }

  /** No two files share an id, as the store guarantees. */
  predicate UniqueFileIds(db: Db) {
    forall i, j :: 0 <= i < j < |db.files| ==> db.files[i].id != db.files[j].id
  }

  /** Some link joins the file and the tag. */
  predicate Linked(db: Db, fileId: Id, tagId: Id) {
    exists k :: 0 <= k < |db.fileTags| && db.fileTags[k].fileId == fileId && db.fileTags[k].tagId == tagId
  }
}

/**
 The file mutations and queries: saving an uploaded file, the live and
 trash listings, renaming, the soft-delete / restore / permanent-delete
 lifecycle, and emptying the trash. Deleting a file also deletes its blob
 and every link that names it.
 */
module Files {
  import opened Text
  import opened Store

  /** `saveFile`: appends a live file created at `now` and answers its id. */
  function SaveFile(db: Db, storageId: Id, name: string, mimeType: string, size: Option<int>, now: int): (r: (Db, Id))
    ensures r.1 == db.nextId && r.0.nextId == db.nextId + 1
    ensures |r.0.files| == |db.files| + 1 && r.0.files[..|db.files|] == db.files
    ensures r.0.files[|db.files|] == FileDoc(r.1, storageId, name, mimeType, size, now, None)
    ensures r.0.tags == db.tags && r.0.fileTags == db.fileTags && r.0.blobs == db.blobs
  {
    var f := FileDoc(db.nextId, storageId, name, mimeType, size, now, None);
    var files := db.files + [f];
    assert files[..|db.files|] == db.files;
    (db.(files := files, nextId := db.nextId + 1), db.nextId)
  }

  /** The files `listFiles` returns: those not deleted, in table order. */
  function Live(files: seq<FileDoc>): (r: seq<FileDoc>)
    ensures forall f :: f in r <==> f in files && !IsDeleted(f)
    ensures |r| <= |files|
  {
    if |files| == 0 then []
    else (if IsDeleted(files[0]) then [] else [files[0]]) + Live(files[1..])
  }

  /** The files `listDeletedFiles` returns: those deleted, in table order. */
  function Trashed(files: seq<FileDoc>): (r: seq<FileDoc>)
    ensures forall f :: f in r <==> f in files && IsDeleted(f)
    ensures |r| <= |files|
  {
    if |files| == 0 then []
    else (if IsDeleted(files[0]) then [files[0]] else []) + Trashed(files[1..])
  }

  function ListFiles(db: Db): seq<FileDoc> {
    Live(db.files)
  }

  function ListDeletedFiles(db: Db): seq<FileDoc> {
    Trashed(db.files)
  }

  /** The two listings split the table: every file is in exactly one, and no
      file is lost or repeated. */
  lemma {:induction false} ListingsPartition(files: seq<FileDoc>)
    ensures |Live(files)| + |Trashed(files)| == |files|
    ensures multiset(Live(files)) + multiset(Trashed(files)) == multiset(files)
  {
    if |files| > 0 {
      ListingsPartition(files[1..]);
      assert files == [files[0]] + files[1..];
    }
  }

  /** Listing after appending one file lists the earlier files, then the new one if live. */
  lemma {:induction false} LiveAppend(files: seq<FileDoc>, f: FileDoc)
    ensures Live(files + [f]) == Live(files) + (if IsDeleted(f) then [] else [f])
  {
    if |files| > 0 {
      assert (files + [f])[1..] == files[1..] + [f];
      LiveAppend(files[1..], f);
    }
  }

  /** A saved file is listed among the live files, after the ones listed before. */
  lemma SavedFileIsListed(db: Db, storageId: Id, name: string, mimeType: string, size: Option<int>, now: int)
    ensures var (db1, id) := SaveFile(db, storageId, name, mimeType, size, now);
      ListFiles(db1) == ListFiles(db) + [FileDoc(id, storageId, name, mimeType, size, now, None)]
  {
    var (db1, id) := SaveFile(db, storageId, name, mimeType, size, now);
    assert db1.files == db.files + [FileDoc(id, storageId, name, mimeType, size, now, None)];
    LiveAppend(db.files, FileDoc(id, storageId, name, mimeType, size, now, None));
  }

  /** A file table or an error: `ctx.db.patch` throws when the id names no document. */
  datatype Outcome = Patched(db: Db) | NotFound

  predicate HasFile(db: Db, id: Id) {
    exists k :: 0 <= k < |db.files| && db.files[k].id == id
  }

  /** `ctx.db.patch(id, …)` on the files table with the given change. */
  function PatchFile(db: Db, id: Id, change: FileDoc -> FileDoc): (r: Outcome)
    ensures !HasFile(db, id) <==> r == NotFound
    ensures r.Patched? ==>
      && |r.db.files| == |db.files|
      && (forall k :: 0 <= k < |db.files| ==> r.db.files[k] == if db.files[k].id == id then change(db.files[k]) else db.files[k])
      && r.db.tags == db.tags && r.db.fileTags == db.fileTags && r.db.blobs == db.blobs && r.db.nextId == db.nextId
  {
    if !HasFile(db, id) then NotFound
    else Patched(db.(files := seq(|db.files|, k requires 0 <= k < |db.files| =>
      if db.files[k].id == id then change(db.files[k]) else db.files[k])))
  }

  /** `renameFile`: only the name of the file changes. */
  function RenameFile(db: Db, id: Id, name: string): (r: Outcome)
    ensures !HasFile(db, id) <==> r == NotFound
    ensures r.Patched? ==> (|r.db.files| == |db.files|
      && forall k :: 0 <= k < |db.files| ==>
        r.db.files[k] == if db.files[k].id == id then db.files[k].(name := name) else db.files[k])
  {
    PatchFile(db, id, (f: FileDoc) => f.(name := name))
  }

  /** `softDeleteFile`: stamps `deletedAt` with `now`. */
  function SoftDeleteFile(db: Db, id: Id, now: int): (r: Outcome)
    ensures !HasFile(db, id) <==> r == NotFound
    ensures r.Patched? ==> (|r.db.files| == |db.files|
      && forall k :: 0 <= k < |db.files| ==>
        r.db.files[k] == if db.files[k].id == id then db.files[k].(deletedAt := Some(now)) else db.files[k])
  {
    PatchFile(db, id, (f: FileDoc) => f.(deletedAt := Some(now)))
  }

  /** `restoreFile`: removes `deletedAt`. */
  function RestoreFile(db: Db, id: Id): (r: Outcome)
    ensures !HasFile(db, id) <==> r == NotFound
    ensures r.Patched? ==> (|r.db.files| == |db.files|
      && forall k :: 0 <= k < |db.files| ==>
        r.db.files[k] == if db.files[k].id == id then db.files[k].(deletedAt := None) else db.files[k])
  {
    PatchFile(db, id, (f: FileDoc) => f.(deletedAt := None))
  }

  /** With a non-zero clock, a soft delete moves the file from the live listing
      to the trash listing and every other file stays where it was. */
  lemma SoftDeleteMovesToTrash(db: Db, id: Id, now: int, f: FileDoc)
    requires now != 0 && f in db.files
    requires HasFile(db, id)
    ensures var r := SoftDeleteFile(db, id, now).db;
      && (f.id == id ==> f.(deletedAt := Some(now)) in ListDeletedFiles(r) && f.(deletedAt := Some(now)) !in ListFiles(r))
      && (f.id != id ==> (f in ListFiles(r) <==> f in ListFiles(db)) && (f in ListDeletedFiles(r) <==> f in ListDeletedFiles(db)))
  {
    var r := SoftDeleteFile(db, id, now).db;
    var k :| 0 <= k < |db.files| && db.files[k] == f;
    assert r.files[k] == if f.id == id then f.(deletedAt := Some(now)) else f;
  }

  /** Restoring a soft-deleted file gives back the table as it was, provided the
      file had never been deleted before. */
  lemma RestoreUndoesSoftDelete(db: Db, id: Id, now: int)
    requires HasFile(db, id)
    requires forall k :: 0 <= k < |db.files| && db.files[k].id == id ==> db.files[k].deletedAt == None
    ensures RestoreFile(SoftDeleteFile(db, id, now).db, id) == Patched(db)
  {
    var db1 := SoftDeleteFile(db, id, now).db;
    assert HasFile(db1, id) by {
      var k :| 0 <= k < |db.files| && db.files[k].id == id;
      assert db1.files[k].id == id;
    }
    var db2 := RestoreFile(db1, id).db;
    assert db2.files == db.files;
  }

  /** The files whose id is not in `ids`, in table order. */
  function WithoutIds(files: seq<FileDoc>, ids: set<Id>): (r: seq<FileDoc>)
    ensures forall f :: f in r <==> f in files && f.id !in ids
    ensures |r| <= |files|
  {
    if |files| == 0 then []
    else (if files[0].id in ids then [] else [files[0]]) + WithoutIds(files[1..], ids)
  }

  /** The links whose file id is not in `ids`, in table order. */
  function WithoutLinksOf(links: seq<FileTagDoc>, ids: set<Id>): (r: seq<FileTagDoc>)
    ensures forall l :: l in r <==> l in links && l.fileId !in ids
    ensures |r| <= |links|
  {
    if |links| == 0 then []
    else (if links[0].fileId in ids then [] else [links[0]]) + WithoutLinksOf(links[1..], ids)
  }

  lemma {:induction false} WithoutIdsConcat(xs: seq<FileDoc>, ys: seq<FileDoc>, ids: set<Id>)
    ensures WithoutIds(xs + ys, ids) == WithoutIds(xs, ids) + WithoutIds(ys, ids)
  {
    if |xs| == 0 {
      assert xs + ys == ys;
    } else {
      assert (xs + ys)[1..] == xs[1..] + ys;
      WithoutIdsConcat(xs[1..], ys, ids);
    }
  }

  lemma {:induction false} WithoutLinksOfConcat(xs: seq<FileTagDoc>, ys: seq<FileTagDoc>, ids: set<Id>)
    ensures WithoutLinksOf(xs + ys, ids) == WithoutLinksOf(xs, ids) + WithoutLinksOf(ys, ids)
  {
    if |xs| == 0 {
      assert xs + ys == ys;
    } else {
      assert (xs + ys)[1..] == xs[1..] + ys;
      WithoutLinksOfConcat(xs[1..], ys, ids);
    }
  }

  lemma {:induction false} WithoutIdsTwice(files: seq<FileDoc>, a: set<Id>, b: set<Id>)
    ensures WithoutIds(WithoutIds(files, a), b) == WithoutIds(files, a + b)
  {
    if |files| > 0 {
      var head := if files[0].id in a then [] else [files[0]];
      WithoutIdsConcat(head, WithoutIds(files[1..], a), b);
      WithoutIdsTwice(files[1..], a, b);
    }
  }

  lemma {:induction false} WithoutLinksOfTwice(links: seq<FileTagDoc>, a: set<Id>, b: set<Id>)
    ensures WithoutLinksOf(WithoutLinksOf(links, a), b) == WithoutLinksOf(links, a + b)
  {
    if |links| > 0 {
      var head := if links[0].fileId in a then [] else [links[0]];
      WithoutLinksOfConcat(head, WithoutLinksOf(links[1..], a), b);
      WithoutLinksOfTwice(links[1..], a, b);
    }
  }

  /** The body shared by `deleteFile`, `permanentDeleteFile` and each iteration of
      `emptyTrash`: delete the blob, the file's links, then the file. */
  function Purge(db: Db, f: FileDoc): (r: Db)
    ensures r.blobs == db.blobs - {f.storageId}
    ensures r.files == WithoutIds(db.files, {f.id})
    ensures r.fileTags == WithoutLinksOf(db.fileTags, {f.id})
    ensures r.tags == db.tags && r.nextId == db.nextId
  {
    db.(blobs := db.blobs - {f.storageId},
        fileTags := WithoutLinksOf(db.fileTags, {f.id}),
        files := WithoutIds(db.files, {f.id}))
  }

  /** `deleteFile`: a missing id changes nothing; otherwise the file, its blob and
      every link naming it are gone, and all other files, links and blobs stay. */
  function DeleteFile(db: Db, id: Id): (r: Db)
    ensures !HasFile(db, id) ==> r == db
    ensures HasFile(db, id) ==>
      && (forall f :: f in r.files <==> f in db.files && f.id != id)
      && (forall l :: l in r.fileTags <==> l in db.fileTags && l.fileId != id)
      && (exists k :: 0 <= k < |db.files| && db.files[k].id == id && r.blobs == db.blobs - {db.files[k].storageId})
      && r.tags == db.tags
  {
    var k := FirstIndex(db.files, (f: FileDoc) => f.id == id);
    if k == -1 then db else Purge(db, db.files[k])
  }

  /** `permanentDeleteFile` has the same body as `deleteFile`. */
  function PermanentDeleteFile(db: Db, id: Id): Db {
    DeleteFile(db, id)
  }

  /** Deleting a file that was just saved, before anything linked it, gives
      back the store apart from the spent id and the deleted blob. */
  lemma DeleteUndoesSave(db: Db, storageId: Id, name: string, mimeType: string, size: Option<int>, now: int)
    requires forall k :: 0 <= k < |db.files| ==> db.files[k].id != db.nextId
    requires forall k :: 0 <= k < |db.fileTags| ==> db.fileTags[k].fileId != db.nextId
    ensures var (db1, id) := SaveFile(db, storageId, name, mimeType, size, now);
      DeleteFile(db1, id) == db.(nextId := db.nextId + 1, blobs := db.blobs - {storageId})
  {
    var (db1, id) := SaveFile(db, storageId, name, mimeType, size, now);
    var k := FirstIndex(db1.files, (f: FileDoc) => f.id == id);
    assert k == |db.files|;
    WithoutIdsAbsent(db.files, id);
    assert db1.files == db.files + [db1.files[k]];
    WithoutIdsAppend(db.files, db1.files[k], {id});
    WithoutLinksOfAbsent(db.fileTags, id);
  }

  lemma {:induction false} WithoutIdsAbsent(files: seq<FileDoc>, id: Id)
    requires forall k :: 0 <= k < |files| ==> files[k].id != id
    ensures WithoutIds(files, {id}) == files
  {
    if |files| > 0 {
      WithoutIdsAbsent(files[1..], id);
    }
  }

  lemma {:induction false} WithoutLinksOfAbsent(links: seq<FileTagDoc>, id: Id)
    requires forall k :: 0 <= k < |links| ==> links[k].fileId != id
    ensures WithoutLinksOf(links, {id}) == links
  {
    if |links| > 0 {
      WithoutLinksOfAbsent(links[1..], id);
    }
  }

  lemma WithoutIdsAppend(files: seq<FileDoc>, f: FileDoc, ids: set<Id>)
    ensures WithoutIds(files + [f], ids) == WithoutIds(files, ids) + (if f.id in ids then [] else [f])
  {
    WithoutIdsConcat(files, [f], ids);
    assert WithoutIds([f], ids) == (if f.id in ids then [] else [f]) + WithoutIds([], ids);
  }

  function IdsOf(fs: seq<FileDoc>): (r: set<Id>)
    ensures forall id :: id in r <==> exists k :: 0 <= k < |fs| && fs[k].id == id
  {
    set k | 0 <= k < |fs| :: fs[k].id
  }

  function StorageOf(fs: seq<FileDoc>): (r: set<Id>)
    ensures forall id :: id in r <==> exists k :: 0 <= k < |fs| && fs[k].storageId == id
  {
    set k | 0 <= k < |fs| :: fs[k].storageId
  }

  /** The loop of `emptyTrash`: purges the listed files one after another. */
  function PurgeAll(db: Db, fs: seq<FileDoc>): (r: Db)
    ensures r.files == WithoutIds(db.files, IdsOf(fs))
    ensures r.fileTags == WithoutLinksOf(db.fileTags, IdsOf(fs))
    ensures r.blobs == db.blobs - StorageOf(fs)
    ensures r.tags == db.tags && r.nextId == db.nextId
    decreases |fs|
  {
    if |fs| == 0 then
      assert IdsOf(fs) == {} && StorageOf(fs) == {};
      WithoutIdsEmpty(db.files);
      WithoutLinksOfEmpty(db.fileTags);
      db
    else
      var r := PurgeAll(Purge(db, fs[0]), fs[1..]);
      WithoutIdsTwice(db.files, {fs[0].id}, IdsOf(fs[1..]));
      WithoutLinksOfTwice(db.fileTags, {fs[0].id}, IdsOf(fs[1..]));
      IdsOfCons(fs);
      r
  }

  lemma IdsOfCons(fs: seq<FileDoc>)
    requires |fs| > 0
    ensures IdsOf(fs) == {fs[0].id} + IdsOf(fs[1..])
    ensures StorageOf(fs) == {fs[0].storageId} + StorageOf(fs[1..])
  {
    assert forall k :: 1 <= k < |fs| ==> fs[k] == fs[1..][k - 1];
    forall id | id in IdsOf(fs) ensures id in {fs[0].id} + IdsOf(fs[1..]) {
      var k :| 0 <= k < |fs| && fs[k].id == id;
      if k > 0 { assert fs[1..][k - 1].id == id; }
    }
    forall id | id in StorageOf(fs) ensures id in {fs[0].storageId} + StorageOf(fs[1..]) {
      var k :| 0 <= k < |fs| && fs[k].storageId == id;
      if k > 0 { assert fs[1..][k - 1].storageId == id; }
    }
  }

  lemma {:induction false} WithoutIdsEmpty(files: seq<FileDoc>)
    ensures WithoutIds(files, {}) == files
  {
    if |files| > 0 {
      WithoutIdsEmpty(files[1..]);
    }
  }

  lemma {:induction false} WithoutLinksOfEmpty(links: seq<FileTagDoc>)
    ensures WithoutLinksOf(links, {}) == links
  {
    if |links| > 0 {
      WithoutLinksOfEmpty(links[1..]);
    }
  }

  /** When the ids of the trashed files are exactly the ids of deleted files,
      removing them leaves the live listing. */
  lemma {:induction false} WithoutTrashedIsLive(files: seq<FileDoc>, ids: set<Id>)
    requires forall k :: 0 <= k < |files| ==> (files[k].id in ids <==> IsDeleted(files[k]))
    ensures WithoutIds(files, ids) == Live(files)
  {
    if |files| > 0 {
      WithoutTrashedIsLive(files[1..], ids);
    }
  }

  /** `emptyTrash`: purges every soft-deleted file and answers how many there were.
      Afterwards the trash is empty, no link names a purged file, and with unique
      file ids the remaining table is exactly the live listing. */
  function EmptyTrash(db: Db): (r: (Db, nat))
    ensures r.1 == |ListDeletedFiles(db)|
    ensures ListDeletedFiles(r.0) == []
    ensures forall f :: f in r.0.files ==> f in db.files
    ensures forall l :: l in r.0.fileTags <==> l in db.fileTags && l.fileId !in IdsOf(ListDeletedFiles(db))
    ensures r.0.blobs == db.blobs - StorageOf(ListDeletedFiles(db))
    ensures UniqueFileIds(db) ==> r.0.files == ListFiles(db)
  {
    var toDelete := ListDeletedFiles(db);
    var r := PurgeAll(db, toDelete);
    NothingTrashedRemains(db.files, IdsOf(toDelete));
    if UniqueFileIds(db) then
      TrashedIdsAreDeleted(db);
      WithoutTrashedIsLive(db.files, IdsOf(toDelete));
      (r, |toDelete|)
    else
      (r, |toDelete|)
  }

  /** Every deleted file's id is among the removed ids, so nothing deleted remains. */
  lemma NothingTrashedRemains(files: seq<FileDoc>, ids: set<Id>)
    requires ids == IdsOf(Trashed(files))
    ensures Trashed(WithoutIds(files, ids)) == []
  {
    NoneDeletedMeansEmptyTrash(WithoutIds(files, ids));
  }

  lemma NoneDeletedMeansEmptyTrash(files: seq<FileDoc>)
    requires forall f :: f in files ==> !IsDeleted(f)
    ensures Trashed(files) == []
  {
    if Trashed(files) != [] {
      assert Trashed(files)[0] in Trashed(files);
    }
  }

  /** With unique ids, an id belongs to a trashed file exactly when its file is deleted. */
  lemma TrashedIdsAreDeleted(db: Db)
    requires UniqueFileIds(db)
    ensures forall k :: 0 <= k < |db.files| ==> (db.files[k].id in IdsOf(Trashed(db.files)) <==> IsDeleted(db.files[k]))
  {
    var t := Trashed(db.files);
    forall k | 0 <= k < |db.files|
      ensures db.files[k].id in IdsOf(t) <==> IsDeleted(db.files[k])
    {
      if IsDeleted(db.files[k]) {
        assert db.files[k] in t;
        var j :| 0 <= j < |t| && t[j] == db.files[k];
      }
      if db.files[k].id in IdsOf(t) {
        var j :| 0 <= j < |t| && t[j].id == db.files[k].id;
        assert t[j] in db.files;
        var i :| 0 <= i < |db.files| && db.files[i] == t[j];
        assert i == k;
      }
    }
  }
}

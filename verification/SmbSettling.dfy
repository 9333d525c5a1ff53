/** The invariants of a pass: which entries are settled, and what keeps them settled. */
module SmbSettling {
  import opened Wrappers
  import opened Text
  import opened SmbTables
  import opened SmbSync
  import opened SmbScan

  /** The entry's path holds a row of its kind and inode whose object is accounted for. */
  ghost predicate Settled(rows: seq<Row>, e: Entry, kind: Kind, seen: set<nat>) {
    var r := RowAt(rows, e.path);
    r.Some? && r.value.kind == kind && r.value.path == e.path && r.value.ident == e.ident && r.value.id in seen
  }

  ghost predicate Holds(rows: seq<Row>, e: Entry, id: nat) {
    var r := RowAt(rows, e.path);
    r.Some? && r.value.id == id
  }

  /** The object's database parent is the folder mapped at its parent path. */
  ghost predicate FolderLinked(rows: seq<Row>, folders: map<nat, Folder>, row: Row) {
    row.id in folders && LookupParent(rows, row.path) == FoundParent(folders[row.id].parent)
  }

  /** Identifiers at or above nextId are unused. */
  ghost predicate Bounded(db: Db) {
    && (forall row :: row in db.rows ==> row.id < db.nextId)
    && (forall id :: id in db.folders ==> id < db.nextId)
    && (forall id :: id in db.files ==> id < db.nextId)
  }

  /** The first k folders of the scan are settled, seen is exactly their objects, and the
      database parent and name of each object that exists are right. */
  ghost predicate FoldersSettled(db: Db, scan: seq<Entry>, k: nat, seen: set<nat>) {
    && k <= |scan|
    && (forall j :: 0 <= j < k ==> Settled(db.rows, scan[j], FOLDER, seen))
    && AllHeld(db.rows, scan, k, seen)
    && (forall j :: 0 <= j < k ==> Placed(db, scan[j]))
  }

  ghost predicate AllHeld(rows: seq<Row>, scan: seq<Entry>, k: nat, seen: set<nat>)
    requires k <= |scan|
  {
    forall id :: id in seen ==> exists j :: 0 <= j < k && Holds(rows, scan[j], id)
  }

  /** The folder mapped at the entry's path, if it exists, is where and what the path says. */
  ghost predicate Placed(db: Db, e: Entry) {
    var r := RowAt(db.rows, e.path);
    r.Some? && r.value.id in db.folders ==>
      FolderLinked(db.rows, db.folders, r.value) && NamedAfter(db.folders[r.value.id].name, e.path)
  }

  /** Same rows at the settled paths, same seen folders. */
  ghost predicate FoldersFrame(db: Db, db': Db, scan: seq<Entry>, k: nat, seen: set<nat>)
    requires k <= |scan|
  {
    && (forall j :: 0 <= j < k ==> RowAt(db'.rows, scan[j].path) == RowAt(db.rows, scan[j].path))
    && (forall id :: id in seen ==> (id in db'.folders <==> id in db.folders))
    && (forall id :: id in seen && id in db.folders ==> db'.folders[id] == db.folders[id])
  }

  lemma ParentStable(rows: seq<Row>, rows': seq<Row>, scan: seq<Entry>, k: nat, path: string)
    requires k <= |scan|
    requires forall j :: 0 <= j < k ==> RowAt(rows', scan[j].path) == RowAt(rows, scan[j].path)
    requires !TopLevel(path) ==> exists i :: 0 <= i < k && scan[i].path == Parent(path)
    ensures LookupParent(rows', path) == LookupParent(rows, path)
  {
    if !TopLevel(path) {
      var i :| 0 <= i < k && scan[i].path == Parent(path);
      assert RowAt(rows', scan[i].path) == RowAt(rows, scan[i].path);
    }
  }

  lemma FrameKeepsSettled(db: Db, db': Db, scan: seq<Entry>, k: nat, seen: set<nat>)
    requires FolderOrder(scan) && FoldersSettled(db, scan, k, seen) && FoldersFrame(db, db', scan, k, seen)
    ensures FoldersSettled(db', scan, k, seen)
  {
    hide NamedAfter, LookupParent;
    forall id | id in seen ensures exists j :: 0 <= j < k && Holds(db'.rows, scan[j], id) {
      var j :| 0 <= j < k && Holds(db.rows, scan[j], id);
      assert Holds(db'.rows, scan[j], id);
    }
    forall j | 0 <= j < k ensures Settled(db'.rows, scan[j], FOLDER, seen) && Placed(db', scan[j]) {
      assert Settled(db.rows, scan[j], FOLDER, seen) && Placed(db, scan[j]);
      assert !TopLevel(scan[j].path) ==> ParentBefore(scan, j);
      ParentStable(db.rows, db'.rows, scan, k, scan[j].path);
    }
  }

  /** A settled folder's parent path is settled too. */
  lemma SettledParent(db: Db, scan: seq<Entry>, k: nat, seen: set<nat>, path: string)
    requires FoldersSettled(db, scan, k, seen)
    requires TopLevel(path) || exists i :: 0 <= i < k && scan[i].path == Parent(path)
    ensures LookupParent(db.rows, path).FoundParent?
    ensures TopLevel(path) ==> LookupParent(db.rows, path).folder == None
    ensures !TopLevel(path) ==>
             LookupParent(db.rows, path).folder.Some? && LookupParent(db.rows, path).folder.value in seen
  {
    if !TopLevel(path) {
      var i :| 0 <= i < k && scan[i].path == Parent(path);
      assert Settled(db.rows, scan[i], FOLDER, seen);
    }
  }

  /** Chains of parents that start at a seen folder stay among the seen ones. */
  lemma SeenClosed(db: Db, scan: seq<Entry>, k: nat, seen: set<nat>, id: nat)
    requires FolderOrder(scan) && FoldersSettled(db, scan, k, seen)
    requires id in seen && id in db.folders
    ensures db.folders[id].parent.Some? ==> db.folders[id].parent.value in seen
  {
    var j :| 0 <= j < k && Holds(db.rows, scan[j], id);
    assert Settled(db.rows, scan[j], FOLDER, seen);
    assert !TopLevel(scan[j].path) ==> ParentBefore(scan, j);
    SettledParent(db, scan, k, seen, scan[j].path);
  }

  /** Deleting an unseen folder never cascades into a seen one. */
  lemma SeenSurvive(db: Db, scan: seq<Entry>, k: nat, seen: set<nat>, doomed: nat)
    requires FolderOrder(scan) && FoldersSettled(db, scan, k, seen) && doomed !in seen
    ensures Cascade(db.folders, {doomed}) !! seen
  {
    var bound := db.folders.Keys - seen + {doomed};
    forall id | id in Children(db.folders, bound) ensures id in bound {
      if id in seen {
        SeenClosed(db, scan, k, seen, id);
      }
    }
    CascadeWithin(db.folders, {doomed}, bound);
  }

  /** A folder row away from the settled paths belongs to an unseen object. */
  lemma ElsewhereUnseen(db: Db, scan: seq<Entry>, k: nat, seen: set<nat>, row: Row)
    requires UniqueRows(db.rows) && FoldersSettled(db, scan, k, seen)
    requires row in db.rows && row.kind == FOLDER
    requires forall j :: 0 <= j < k ==> !SameName(scan[j].path, row.path)
    ensures row.id !in seen
  {
    assert forall j :: 0 <= j < k && Holds(db.rows, scan[j], row.id) ==> Settled(db.rows, scan[j], FOLDER, seen);
  }

  // ----- frames of the single statements -----

  lemma RelocateElsewhere(rows: seq<Row>, kind: Kind, id: nat, path: string, ident: Identity, at: string)
    requires UniqueRows(rows) && Relocate(rows, kind, id, path, ident).Some?
    requires RowAt(rows, at).Some? && !IsKey(RowAt(rows, at).value, kind, id)
    ensures RowAt(Relocate(rows, kind, id, path, ident).value, at) == RowAt(rows, at)
  {
    RelocateMembers(rows, kind, id, path, ident);
    RowAtIs(Relocate(rows, kind, id, path, ident).value, at, RowAt(rows, at).value);
  }

  lemma RelocatedRow(rows: seq<Row>, row: Row, path: string, ident: Identity)
    requires UniqueRows(rows) && row in rows
    requires Relocate(rows, row.kind, row.id, path, ident).Some?
    ensures RowAt(Relocate(rows, row.kind, row.id, path, ident).value, path) == Some(Row(row.kind, row.id, path, ident))
  {
    assert IsKey(row, row.kind, row.id);
    RelocateMembers(rows, row.kind, row.id, path, ident);
    RowAtIs(Relocate(rows, row.kind, row.id, path, ident).value, path, Row(row.kind, row.id, path, ident));
  }

  lemma SubsetUnique(rows: seq<Row>, rows': seq<Row>)
    requires UniqueRows(rows) && forall row :: row in rows' ==> row in rows
    ensures UniqueRows(rows')
  {}

  lemma AppendRow(rows: seq<Row>, row: Row, at: string)
    requires UniqueRows(rows) && RowAt(rows, row.path).None?
    requires forall r :: r in rows ==> !IsKey(r, row.kind, row.id)
    ensures UniqueRows(rows + [row])
    ensures RowAt(rows + [row], row.path) == Some(row)
    ensures !SameName(row.path, at) ==> RowAt(rows + [row], at) == RowAt(rows, at)
  {
    var more := rows + [row];
    assert row in more;
    RowAtIs(more, row.path, row);
    if !SameName(row.path, at) {
      var r := RowAt(rows, at);
      if r.Some? {
        assert r.value in more;
        RowAtIs(more, at, r.value);
      }
    }
  }

  lemma RemoveTreeElsewhere(rows: seq<Row>, path: string, at: string)
    requires UniqueRows(rows) && !SameName(path, at) && !Below(path, at)
    ensures RowAt(RemoveTree(rows, path), at) == RowAt(rows, at)
  {
    var r := RowAt(rows, at);
    SubsetUnique(rows, RemoveTree(rows, path));
    if r.Some? {
      BelowSameName(path, path, r.value.path, at);
      assert r.value in RemoveTree(rows, path);
      RowAtIs(RemoveTree(rows, path), at, r.value);
    }
  }

  lemma RemoveKeyElsewhere(rows: seq<Row>, kind: Kind, id: nat, at: string)
    requires UniqueRows(rows) && RowAt(rows, at).Some? && !IsKey(RowAt(rows, at).value, kind, id)
    ensures RowAt(RemoveKey(rows, kind, id), at) == RowAt(rows, at)
  {
    SubsetUnique(rows, RemoveKey(rows, kind, id));
    RowAtIs(RemoveKey(rows, kind, id), at, RowAt(rows, at).value);
  }

  /** Deleting the folder object of an unsettled path leaves the settled folders alone. */
  lemma DeleteFolderFrame(db: Db, scan: seq<Entry>, k: nat, seen: set<nat>, row: Row)
    requires FolderOrder(scan) && UniqueRows(db.rows) && FoldersSettled(db, scan, k, seen)
    requires row.id !in seen && DeleteFolderObject(db, row).Some?
    requires forall j :: 0 <= j < k ==> !SameName(scan[j].path, row.path)
    ensures FoldersFrame(db, DeleteFolderObject(db, row).value, scan, k, seen)
    ensures UniqueRows(DeleteFolderObject(db, row).value.rows)
  {
    var db' := DeleteFolderObject(db, row).value;
    SubsetUnique(db.rows, db'.rows);
    SeenSurvive(db, scan, k, seen, row.id);
    forall j | 0 <= j < k ensures RowAt(db'.rows, scan[j].path) == RowAt(db.rows, scan[j].path) {
      if Below(row.path, scan[j].path) {
        AncestorEarlier(scan, j, row.path);
      }
      RemoveTreeElsewhere(db.rows, row.path, scan[j].path);
    }
  }

  lemma DeleteFileFrame(db: Db, scan: seq<Entry>, k: nat, seen: set<nat>, id: nat)
    requires UniqueRows(db.rows) && FoldersSettled(db, scan, k, seen)
    ensures FoldersFrame(db, DeleteFileObject(db, id), scan, k, seen)
    ensures UniqueRows(DeleteFileObject(db, id).rows)
  {
    SubsetUnique(db.rows, RemoveKey(db.rows, FILE, id));
    forall j | 0 <= j < k ensures RowAt(RemoveKey(db.rows, FILE, id), scan[j].path) == RowAt(db.rows, scan[j].path) {
      assert Settled(db.rows, scan[j], FOLDER, seen);
      RemoveKeyElsewhere(db.rows, FILE, id, scan[j].path);
    }
  }

  lemma RelocateFileFrame(
    db: Db, db': Db, scan: seq<Entry>, k: nat, seen: set<nat>, id: nat, path: string, ident: Identity
  )
    requires UniqueRows(db.rows) && FoldersSettled(db, scan, k, seen)
    requires Relocate(db.rows, FILE, id, path, ident) == Some(db'.rows)
    requires db'.folders == db.folders
    ensures FoldersFrame(db, db', scan, k, seen) && UniqueRows(db'.rows)
  {
    RelocateMembers(db.rows, FILE, id, path, ident);
    forall j | 0 <= j < k ensures RowAt(db'.rows, scan[j].path) == RowAt(db.rows, scan[j].path) {
      assert Settled(db.rows, scan[j], FOLDER, seen);
      RelocateElsewhere(db.rows, FILE, id, path, ident, scan[j].path);
    }
  }

  // ----- settling one more folder -----

  lemma ExtendSettled(db: Db, scan: seq<Entry>, k: nat, seen: set<nat>, id: nat)
    requires FolderOrder(scan) && k < |scan| && FoldersSettled(db, scan, k, seen)
    requires RowAt(db.rows, scan[k].path) == Some(Row(FOLDER, id, scan[k].path, scan[k].ident))
    requires id in db.folders ==> LookupParent(db.rows, scan[k].path) == FoundParent(db.folders[id].parent)
    requires id in db.folders ==> NamedAfter(db.folders[id].name, scan[k].path)
    ensures FoldersSettled(db, scan, k + 1, seen + {id})
  {
    hide NamedAfter, LookupParent, FolderOrder;
    ExtendHeld(db.rows, scan, k, seen, id);
    forall j | 0 <= j < k + 1 ensures Settled(db.rows, scan[j], FOLDER, seen + {id}) && Placed(db, scan[j]) {
      if j < k { assert Settled(db.rows, scan[j], FOLDER, seen) && Placed(db, scan[j]); }
    }
  }

  lemma ExtendHeld(rows: seq<Row>, scan: seq<Entry>, k: nat, seen: set<nat>, id: nat)
    requires k < |scan| && Holds(rows, scan[k], id) && AllHeld(rows, scan, k, seen)
    ensures AllHeld(rows, scan, k + 1, seen + {id})
  {
    forall x | x in seen ensures exists j :: 0 <= j < k + 1 && Holds(rows, scan[j], x) {
      var j :| 0 <= j < k && Holds(rows, scan[j], x);
      assert 0 <= j < k + 1;
    }
  }

  /** The tables after a kept folder's two updates. */
  ghost predicate KeptFolder(db: Db, db': Db, row: Row, e: Entry) {
    && Relocate(db.rows, FOLDER, row.id, e.path, e.ident) == Some(db'.rows)
    && db'.folders.Keys == db.folders.Keys
    && (forall id :: id in db.folders && id != row.id ==> db'.folders[id] == db.folders[id])
    && (row.id in db.folders ==> LookupParent(db.rows, e.path) == FoundParent(db'.folders[row.id].parent))
    && (row.id in db.folders ==> NamedAfter(db'.folders[row.id].name, e.path))
    && db'.files == db.files && db'.nextId == db.nextId
  }

  lemma KeepFolderShape(p: Progress, row: Row, e: Entry)
    requires LookupParent(p.db.rows, e.path).FoundParent? && KeepFolder(p, row, e).Some?
    ensures var q := KeepFolder(p, row, e).value;
            && KeptFolder(p.db, q.db, row, e)
            && q.seen == p.seen + {row.id} && q.clean == p.clean
            && q.hits == (p.hits && row.id in p.db.folders)
  {
    hide UniqueFolderName, NamedAfter, BaseName;
    UniqueNameIsCandidate(p.db.folders, LookupParent(p.db.rows, e.path).folder, e.path, Some(row.id));
  }

  lemma KeptFolderSettles(db: Db, db': Db, scan: seq<Entry>, k: nat, seen: set<nat>, row: Row)
    requires FolderOrder(scan) && k < |scan| && UniqueRows(db.rows) && FoldersSettled(db, scan, k, seen)
    requires RowAt(db.rows, scan[k].path) == Some(row) && row.kind == FOLDER
    requires KeptFolder(db, db', row, scan[k])
    ensures row.id !in seen
    ensures UniqueRows(db'.rows) && FoldersSettled(db', scan, k + 1, seen + {row.id})
  {
    var e := scan[k];
    assert !TopLevel(e.path) ==> ParentBefore(scan, k);
    ElsewhereUnseen(db, scan, k, seen, row);
    RelocateMembers(db.rows, FOLDER, row.id, e.path, e.ident);
    assert FoldersFrame(db, db', scan, k, seen) by {
      forall j | 0 <= j < k ensures RowAt(db'.rows, scan[j].path) == RowAt(db.rows, scan[j].path) {
        assert Settled(db.rows, scan[j], FOLDER, seen);
        RelocateElsewhere(db.rows, FOLDER, row.id, e.path, e.ident, scan[j].path);
      }
    }
    FrameKeepsSettled(db, db', scan, k, seen);
    RelocatedRow(db.rows, row, e.path, e.ident);
    ParentStable(db.rows, db'.rows, scan, k, e.path);
    ExtendSettled(db', scan, k, seen, row.id);
  }

  /** The tables after a new folder was recorded. */
  ghost predicate CreatedFolder(db: Db, db': Db, e: Entry) {
    && db'.rows == db.rows + [Row(FOLDER, db.nextId, e.path, e.ident)]
    && db'.folders.Keys == db.folders.Keys + {db.nextId}
    && (forall id :: id in db.folders && id != db.nextId ==> db'.folders[id] == db.folders[id])
    && LookupParent(db.rows, e.path) == FoundParent(db'.folders[db.nextId].parent)
    && ParentExists(db.folders, db'.folders[db.nextId].parent)
    && NamedAfter(db'.folders[db.nextId].name, e.path)
    && db'.files == db.files && db'.nextId == db.nextId + 1
  }

  /** Outside rejections and swallowed errors a folder is created whenever its parent is mapped. */
  lemma CreateFolderShape(p: Progress, settings: Settings, e: Entry)
    requires LookupParent(p.db.rows, e.path).FoundParent?
    requires CreateFolder(p, settings, e).Some? && CreateFolder(p, settings, e).value.clean
    ensures var q := CreateFolder(p, settings, e).value;
            && CreatedFolder(p.db, q.db, e) && p.clean
            && q.seen == p.seen + {p.db.nextId} && q.hits == p.hits
  {
    CreateFolderCases(p, settings, e);
  }

  lemma InsertedFolder(db: Db, parent: Option<nat>, name: string, e: Entry)
    requires LookupParent(db.rows, e.path) == FoundParent(parent) && ParentExists(db.folders, parent)
    requires NamedAfter(name, e.path)
    ensures CreatedFolder(db, InsertFolder(db, parent, name, e), e)
  {}

  lemma CreateFolderCases(p: Progress, settings: Settings, e: Entry)
    requires CreateFolder(p, settings, e).Some?
    ensures var q := CreateFolder(p, settings, e).value;
            || (q == p && LookupParent(p.db.rows, e.path).MissingParent?)
            || q == p.(clean := false)
            || (q == p.(db := q.db, seen := p.seen + {p.db.nextId}) && CreatedFolder(p.db, q.db, e))
  {
    hide UniqueFolderName, NamedAfter, BaseName, InsertFolder, CreatedFolder;
    var parent := LookupParent(p.db.rows, e.path);
    if parent.FoundParent? && ParentExists(p.db.folders, parent.folder) {
      var name := UniqueFolderName(p.db.folders, parent.folder, BaseName(e.path), None);
      if name.Some? {
        UniqueNameIsCandidate(p.db.folders, parent.folder, e.path, None);
        InsertedFolder(p.db, parent.folder, name.value, e);
      }
    }
  }

  lemma FreshUnseen(db: Db, scan: seq<Entry>, k: nat, seen: set<nat>)
    requires Bounded(db) && FoldersSettled(db, scan, k, seen)
    ensures db.nextId !in seen
  {
    assert forall j :: 0 <= j < k ==> Settled(db.rows, scan[j], FOLDER, seen);
  }

  lemma CreatedFolderBounded(db: Db, db': Db, e: Entry)
    requires Bounded(db) && CreatedFolder(db, db', e)
    ensures Bounded(db')
  {
    hide NamedAfter, LookupParent;
  }

  lemma CreatedFolderRows(db: Db, db': Db, e: Entry, at: string)
    requires UniqueRows(db.rows) && Bounded(db) && CreatedFolder(db, db', e)
    requires RowAt(db.rows, e.path).None?
    ensures UniqueRows(db'.rows)
    ensures RowAt(db'.rows, e.path) == Some(Row(FOLDER, db.nextId, e.path, e.ident))
    ensures !SameName(e.path, at) ==> RowAt(db'.rows, at) == RowAt(db.rows, at)
  {
    AppendRow(db.rows, Row(FOLDER, db.nextId, e.path, e.ident), at);
  }

  lemma CreatedFolderSettles(db: Db, db': Db, scan: seq<Entry>, k: nat, seen: set<nat>)
    requires FolderOrder(scan) && k < |scan| && UniqueRows(db.rows) && Bounded(db)
    requires FoldersSettled(db, scan, k, seen)
    requires RowAt(db.rows, scan[k].path).None?
    requires CreatedFolder(db, db', scan[k])
    ensures UniqueRows(db'.rows) && FoldersSettled(db', scan, k + 1, seen + {db.nextId})
  {
    hide NamedAfter, LookupParent, FoldersSettled, UniqueRows, Bounded;
    var e, id := scan[k], db.nextId;
    assert !TopLevel(e.path) ==> ParentBefore(scan, k);
    FreshUnseen(db, scan, k, seen);
    assert FoldersFrame(db, db', scan, k, seen) by {
      forall j | 0 <= j < k ensures RowAt(db'.rows, scan[j].path) == RowAt(db.rows, scan[j].path) {
        CreatedFolderRows(db, db', e, scan[j].path);
      }
    }
    CreatedFolderRows(db, db', e, e.path);
    FrameKeepsSettled(db, db', scan, k, seen);
    ParentStable(db.rows, db'.rows, scan, k, e.path);
    ExtendSettled(db', scan, k, seen, id);
  }
}

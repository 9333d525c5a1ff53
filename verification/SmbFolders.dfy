/** The folder loop of a pass: it settles every scanned folder. */
module SmbFolders {
  import opened Wrappers
  import opened Text
  import opened SmbTables
  import opened SmbSync
  import opened SmbScan
  import opened SmbSettling
  import opened SmbLinks

  // ----- links under the single statements -----

  /** Rewriting a row's path in another case changes no lookup. */
  lemma InPlaceLookup(rows: seq<Row>, row: Row, path: string, ident: Identity, at: string)
    requires UniqueRows(rows) && row in rows && SameName(row.path, path)
    requires Relocate(rows, row.kind, row.id, path, ident).Some?
    ensures var a, b := RowAt(rows, at), RowAt(Relocate(rows, row.kind, row.id, path, ident).value, at);
            && (a.Some? <==> b.Some?)
            && (a.Some? ==> a.value.kind == b.value.kind && a.value.id == b.value.id)
  {
    var rows' := Relocate(rows, row.kind, row.id, path, ident).value;
    RelocateMembers(rows, row.kind, row.id, path, ident);
    assert IsKey(row, row.kind, row.id);
    var a := RowAt(rows, at);
    if a.Some? {
      if IsKey(a.value, row.kind, row.id) {
        RowAtIs(rows', at, Row(row.kind, row.id, path, ident));
      } else {
        RowAtIs(rows', at, a.value);
      }
    } else {
      assert forall r :: r in rows' && !IsKey(r, row.kind, row.id) ==> r in rows;
      assert !SameName(path, at);
    }
  }

  lemma InPlaceParent(rows: seq<Row>, row: Row, path: string, ident: Identity, at: string)
    requires UniqueRows(rows) && row in rows && SameName(row.path, path)
    requires Relocate(rows, row.kind, row.id, path, ident).Some?
    ensures LookupParent(Relocate(rows, row.kind, row.id, path, ident).value, at) == LookupParent(rows, at)
  {
    InPlaceLookup(rows, row, path, ident, Parent(at));
  }

  lemma KeptFolderFilesLinked(db: Db, db': Db, row: Row, e: Entry)
    requires UniqueRows(db.rows) && FilesLinked(db) && KeptFolder(db, db', row, e)
    requires row in db.rows && row.kind == FOLDER && SameName(row.path, e.path)
    ensures FilesLinked(db')
  {
    RelocateMembers(db.rows, FOLDER, row.id, e.path, e.ident);
    forall r | r in db'.rows && r.kind == FILE ensures FileLinked(db', r) {
      assert r in db.rows && FileLinked(db, r);
      if !TopLevel(r.path) {
        InPlaceLookup(db.rows, row, e.path, e.ident, Parent(r.path));
      }
    }
  }

  lemma CreatedFolderFilesLinked(db: Db, db': Db, e: Entry)
    requires UniqueRows(db.rows) && Bounded(db) && FilesLinked(db) && CreatedFolder(db, db', e)
    requires RowAt(db.rows, e.path).None?
    ensures FilesLinked(db')
  {
    hide NamedAfter, LookupParent, UniqueRows;
    forall r | r in db'.rows && r.kind == FILE ensures FileLinked(db', r) {
      assert r in db.rows && FileLinked(db, r);
      if !TopLevel(r.path) {
        var g := RowAt(db.rows, Parent(r.path)).value;
        if SameName(e.path, Parent(r.path)) {
          RowAtSameName(db.rows, e.path, Parent(r.path));
        }
        CreatedFolderRows(db, db', e, Parent(r.path));
      }
    }
  }

  /** The parent of a row that survives a subtree deletion survives too. */
  lemma ParentSurvives(rows: seq<Row>, path: string, r: Row, g: Row)
    requires UniqueRows(rows) && r in RemoveTree(rows, path)
    requires !TopLevel(r.path) && RowAt(rows, Parent(r.path)) == Some(g)
    ensures RowAt(RemoveTree(rows, path), Parent(r.path)) == Some(g)
  {
    ParentBelow(r.path);
    if SameName(g.path, path) {
      BelowSameName(path, Parent(r.path), r.path, r.path);
      assert false;
    } else if Below(path, g.path) {
      BelowSameName(path, path, g.path, Parent(r.path));
      BelowTransitive(path, Parent(r.path), r.path);
      assert false;
    }
    SubsetUnique(rows, RemoveTree(rows, path));
    RowAtIs(RemoveTree(rows, path), Parent(r.path), g);
  }

  lemma DeleteFolderFilesLinked(db: Db, row: Row)
    requires UniqueRows(db.rows) && FilesLinked(db) && DeleteFolderObject(db, row).Some?
    ensures FilesLinked(DeleteFolderObject(db, row).value)
  {
    var db' := DeleteFolderObject(db, row).value;
    forall r | r in db'.rows && r.kind == FILE ensures FileLinked(db', r) {
      assert r in db.rows && FileLinked(db, r);
      if !TopLevel(r.path) {
        ParentSurvives(db.rows, row.path, r, RowAt(db.rows, Parent(r.path)).value);
      }
    }
  }

  lemma DeleteFileFilesLinked(db: Db, id: nat)
    requires UniqueRows(db.rows) && FilesLinked(db)
    ensures FilesLinked(DeleteFileObject(db, id))
  {
    var db' := DeleteFileObject(db, id);
    forall r | r in db'.rows && r.kind == FILE ensures FileLinked(db', r) {
      assert r in db.rows && FileLinked(db, r);
      if !TopLevel(r.path) {
        RemoveKeyElsewhere(db.rows, FILE, id, Parent(r.path));
      }
    }
  }

  lemma DeleteFolderBounded(db: Db, row: Row)
    requires Bounded(db) && DeleteFolderObject(db, row).Some?
    ensures Bounded(DeleteFolderObject(db, row).value)
  {}

  lemma DeleteFileBounded(db: Db, id: nat)
    requires Bounded(db)
    ensures Bounded(DeleteFileObject(db, id))
  {}

  lemma KeptFolderBounded(db: Db, db': Db, row: Row, e: Entry)
    requires UniqueRows(db.rows) && Bounded(db) && KeptFolder(db, db', row, e) && row in db.rows
    ensures Bounded(db')
  {
    RelocateMembers(db.rows, FOLDER, row.id, e.path, e.ident);
    forall r | r in db'.rows ensures r.id < db'.nextId {
      if IsKey(r, FOLDER, row.id) { assert r.id == row.id; }
    }
  }

  // ----- the loop -----

  ghost predicate FolderInvariant(p: Progress, scan: seq<Entry>, k: nat) {
    && UniqueRows(p.db.rows) && Bounded(p.db) && FilesLinked(p.db)
    && FoldersSettled(p.db, scan, k, p.seen)
    && p.hits == (p.seen <= p.db.folders.Keys)
  }

  lemma ClearFolder(db: Db, seen: set<nat>, scan: seq<Entry>, k: nat, row: Row)
    requires FolderOrder(scan) && k < |scan| && UniqueRows(db.rows) && Bounded(db) && FilesLinked(db)
    requires FoldersSettled(db, scan, k, seen)
    requires RowAt(db.rows, scan[k].path) == Some(row) && row.kind == FOLDER && DeleteFolderObject(db, row).Some?
    ensures var db' := DeleteFolderObject(db, row).value;
            && UniqueRows(db'.rows) && Bounded(db') && FilesLinked(db')
            && FoldersSettled(db', scan, k, seen) && FoldersFrame(db, db', scan, k, seen)
            && RowAt(db'.rows, scan[k].path).None?
  {
    var db' := DeleteFolderObject(db, row).value;
    forall j | 0 <= j < k ensures !SameName(scan[j].path, row.path) {
      assert !SameName(scan[j].path, scan[k].path);
    }
    ElsewhereUnseen(db, scan, k, seen, row);
    DeleteFolderFrame(db, scan, k, seen, row);
    DeleteFolderFilesLinked(db, row);
    DeleteFolderBounded(db, row);
    FrameKeepsSettled(db, db', scan, k, seen);
    assert forall r :: r in db'.rows ==> r in db.rows && r != row;
  }

  lemma ClearFile(db: Db, seen: set<nat>, scan: seq<Entry>, k: nat, row: Row)
    requires FolderOrder(scan) && k < |scan| && UniqueRows(db.rows) && Bounded(db) && FilesLinked(db)
    requires FoldersSettled(db, scan, k, seen)
    requires RowAt(db.rows, scan[k].path) == Some(row) && row.kind == FILE
    ensures var db' := DeleteFileObject(db, row.id);
            && UniqueRows(db'.rows) && Bounded(db') && FilesLinked(db')
            && FoldersSettled(db', scan, k, seen) && FoldersFrame(db, db', scan, k, seen)
            && RowAt(db'.rows, scan[k].path).None?
  {
    var db' := DeleteFileObject(db, row.id);
    DeleteFileFrame(db, scan, k, seen, row.id);
    DeleteFileFilesLinked(db, row.id);
    DeleteFileBounded(db, row.id);
    FrameKeepsSettled(db, db', scan, k, seen);
    RemovedKeyFrees(db.rows, row, scan[k].path);
  }

  lemma RemovedKeyFrees(rows: seq<Row>, row: Row, at: string)
    requires UniqueRows(rows) && RowAt(rows, at) == Some(row)
    ensures RowAt(RemoveKey(rows, row.kind, row.id), at).None?
  {
    assert forall r :: r in RemoveKey(rows, row.kind, row.id) ==> r in rows && r != row;
  }

  /** Clearing a scanned path frees it and leaves the earlier folders settled. */
  lemma ClearFolderPath(db: Db, seen: set<nat>, scan: seq<Entry>, k: nat, db': Db)
    requires FolderOrder(scan) && k < |scan| && UniqueRows(db.rows) && Bounded(db) && FilesLinked(db)
    requires FoldersSettled(db, scan, k, seen)
    requires ClearPath(db, RowAt(db.rows, scan[k].path)) == Some(db')
    ensures UniqueRows(db'.rows) && Bounded(db') && FilesLinked(db')
    ensures FoldersSettled(db', scan, k, seen) && FoldersFrame(db, db', scan, k, seen)
    ensures RowAt(db'.rows, scan[k].path).None?
  {
    var row := RowAt(db.rows, scan[k].path);
    if row.Some? {
      if row.value.kind == FOLDER {
        ClearFolder(db, seen, scan, k, row.value);
      } else {
        ClearFile(db, seen, scan, k, row.value);
      }
    }
  }

  lemma KeepStep(p: Progress, scan: seq<Entry>, k: nat, row: Row)
    requires FolderOrder(scan) && k < |scan| && FolderInvariant(p, scan, k)
    requires RowAt(p.db.rows, scan[k].path) == Some(row) && row.kind == FOLDER
    requires KeepFolder(p, row, scan[k]).Some?
    ensures KeepFolder(p, row, scan[k]).value.clean == p.clean
    ensures FolderInvariant(KeepFolder(p, row, scan[k]).value, scan, k + 1)
  {
    hide KeepFolder, FilesLinked, FoldersSettled, Settled, UniqueRows, KeptFolder, Bounded;
    var e, q := scan[k], KeepFolder(p, row, scan[k]).value;
    assert !TopLevel(e.path) ==> ParentBefore(scan, k);
    SettledParent(p.db, scan, k, p.seen, e.path);
    KeepFolderShape(p, row, e);
    KeptFolderSettles(p.db, q.db, scan, k, p.seen, row);
    assert FilesLinked(q.db) by { KeptFolderFilesLinked(p.db, q.db, row, e); }
    assert Bounded(q.db) by { KeptFolderBounded(p.db, q.db, row, e); }
    KeptHits(p.db.folders.Keys, p.seen, row.id, p.hits);
    KeptFolderKeys(p.db, q.db, row, e);
  }

  lemma KeptFolderKeys(db: Db, db': Db, row: Row, e: Entry)
    requires KeptFolder(db, db', row, e)
    ensures db'.folders.Keys == db.folders.Keys
  {}

  lemma KeptHits(existing: set<nat>, seen: set<nat>, id: nat, hits: bool)
    requires hits == (seen <= existing)
    ensures (hits && id in existing) == (seen + {id} <= existing)
  {
    if seen + {id} <= existing {
      assert id in seen + {id};
    }
  }

  lemma CreateStep(p: Progress, settings: Settings, scan: seq<Entry>, k: nat)
    requires FolderOrder(scan) && k < |scan| && FolderInvariant(p, scan, k)
    requires RowAt(p.db.rows, scan[k].path).None?
    requires CreateFolder(p, settings, scan[k]).Some? && CreateFolder(p, settings, scan[k]).value.clean
    ensures p.clean && FolderInvariant(CreateFolder(p, settings, scan[k]).value, scan, k + 1)
  {
    hide CreateFolder, FilesLinked, FoldersSettled, Settled, UniqueRows;
    var e, q := scan[k], CreateFolder(p, settings, scan[k]).value;
    assert !TopLevel(e.path) ==> ParentBefore(scan, k);
    SettledParent(p.db, scan, k, p.seen, e.path);
    CreateFolderShape(p, settings, e);
    CreatedFolderSettles(p.db, q.db, scan, k, p.seen);
    CreatedFolderFilesLinked(p.db, q.db, e);
    CreatedFolderBounded(p.db, q.db, e);
    FreshUnseen(p.db, scan, k, p.seen);
    CreatedHits(p.db, q.db, e, p.seen, p.hits);
  }

  lemma CreatedHits(db: Db, db': Db, e: Entry, seen: set<nat>, hits: bool)
    requires CreatedFolder(db, db', e) && hits == (seen <= db.folders.Keys)
    requires db.nextId !in seen
    ensures hits == (seen + {db.nextId} <= db'.folders.Keys)
  {}

  lemma ReconcileFolderSettles(p: Progress, settings: Settings, scan: seq<Entry>, k: nat)
    requires FolderOrder(scan) && k < |scan| && FolderInvariant(p, scan, k)
    requires ReconcileFolder(p, settings, scan[k]).Some? && ReconcileFolder(p, settings, scan[k]).value.clean
    ensures p.clean && FolderInvariant(ReconcileFolder(p, settings, scan[k]).value, scan, k + 1)
  {
    hide KeepFolder, CreateFolder, ClearPath, FilesLinked, FoldersSettled, UniqueRows, Bounded, FoldersFrame,
         FolderOrder;
    var row := RowAt(p.db.rows, scan[k].path);
    if row.Some? && row.value.kind == FOLDER && SameIdentity(row.value.ident, scan[k].ident) {
      KeepStep(p, scan, k, row.value);
    } else {
      var db := ClearPath(p.db, row).value;
      ClearFolderPath(p.db, p.seen, scan, k, db);
      CreateStep(p.(db := db), settings, scan, k);
    }
  }

  lemma {:induction false} ReconcileFoldersClean(p: Progress, settings: Settings, scan: seq<Entry>, k: nat)
    requires k <= |scan|
    requires ReconcileFolders(p, settings, scan, k).Some? && ReconcileFolders(p, settings, scan, k).value.clean
    ensures p.clean
    decreases |scan| - k
  {
    if k < |scan| {
      ReconcileFoldersClean(ReconcileFolder(p, settings, scan[k]).value, settings, scan, k + 1);
      ReconcileFolderClean(p, settings, scan[k]);
    }
  }

  lemma {:induction false} ReconcileFoldersSettle(p: Progress, settings: Settings, scan: seq<Entry>, k: nat)
    requires FolderOrder(scan) && k <= |scan| && FolderInvariant(p, scan, k)
    requires ReconcileFolders(p, settings, scan, k).Some? && ReconcileFolders(p, settings, scan, k).value.clean
    ensures FolderInvariant(ReconcileFolders(p, settings, scan, k).value, scan, |scan|)
    decreases |scan| - k
  {
    hide FolderInvariant, FolderOrder, ReconcileFolder;
    if k < |scan| {
      var next := ReconcileFolder(p, settings, scan[k]).value;
      ReconcileFoldersClean(next, settings, scan, k + 1);
      ReconcileFolderSettles(p, settings, scan, k);
      ReconcileFoldersSettle(next, settings, scan, k + 1);
    }
  }

  lemma ReconcileFolderClean(p: Progress, settings: Settings, e: Entry)
    requires ReconcileFolder(p, settings, e).Some? && ReconcileFolder(p, settings, e).value.clean
    ensures p.clean
  {
    hide UniqueFolderName, Relocate, RowAt, UpdateFolder, InsertFolder, DeleteFolderObject, DeleteFileObject, NameTaken,
         LookupParent;
  }

  // ----- the loop, when every link holds -----

  lemma KeptFolderAllLinked(db: Db, db': Db, row: Row, e: Entry)
    requires UniqueRows(db.rows) && AllLinked(db) && KeptFolder(db, db', row, e)
    requires row in db.rows && row.kind == FOLDER && SameName(row.path, e.path)
    ensures UniqueRows(db'.rows) && AllLinked(db')
  {
    RelocateMembers(db.rows, FOLDER, row.id, e.path, e.ident);
    assert Linked(db, row);
    forall r | r in db'.rows ensures Linked(db', r) {
      InPlaceParent(db.rows, row, e.path, e.ident, r.path);
      if !IsKey(r, FOLDER, row.id) {
        assert r in db.rows && Linked(db, r);
      }
    }
  }

  lemma CreatedFolderAllLinked(db: Db, db': Db, e: Entry)
    requires UniqueRows(db.rows) && Bounded(db) && AllLinked(db) && CreatedFolder(db, db', e)
    requires RowAt(db.rows, e.path).None?
    ensures UniqueRows(db'.rows) && AllLinked(db')
  {
    hide NamedAfter, BaseName;
    CreatedFolderRows(db, db', e, e.path);
    forall r | r in db'.rows ensures Linked(db', r) {
      if r in db.rows {
        assert Linked(db, r);
      } else {
        assert r == Row(FOLDER, db.nextId, e.path, e.ident);
      }
      if !TopLevel(r.path) {
        assert LookupParent(db.rows, r.path).FoundParent?;
        if SameName(e.path, Parent(r.path)) {
          RowAtSameName(db.rows, e.path, Parent(r.path));
        }
        CreatedFolderRows(db, db', e, Parent(r.path));
      }
    }
  }

  /** With every link in place, the cascade takes no folder mapped elsewhere. */
  lemma CascadeStaysBelow(db: Db, row: Row, r: Row)
    requires UniqueRows(db.rows) && AllLinked(db) && row in db.rows && row.kind == FOLDER
    requires r in RemoveTree(db.rows, row.path) && r.kind == FOLDER
    ensures r.id !in Cascade(db.folders, {row.id})
  {
    var left := RemoveTree(db.rows, row.path);
    var kept := set x | x in left && x.kind == FOLDER :: x.id;
    var bound := db.folders.Keys - kept + {row.id};
    assert row.id !in kept;
    forall id | id in kept
      ensures id in db.folders && (db.folders[id].parent.Some? ==> db.folders[id].parent.value in kept)
    {
      var x :| x in left && x.kind == FOLDER && x.id == id;
      assert Linked(db, x);
      if !TopLevel(x.path) {
        var g := RowAt(db.rows, Parent(x.path)).value;
        ParentSurvives(db.rows, row.path, x, g);
        assert g in left;
      }
    }
    CascadeWithin(db.folders, {row.id}, bound);
    assert r.id in kept;
  }

  lemma DeleteFolderAllLinked(db: Db, row: Row)
    requires UniqueRows(db.rows) && AllLinked(db) && row in db.rows && row.kind == FOLDER
    requires DeleteFolderObject(db, row).Some?
    ensures UniqueRows(DeleteFolderObject(db, row).value.rows) && AllLinked(DeleteFolderObject(db, row).value)
  {
    var db' := DeleteFolderObject(db, row).value;
    SubsetUnique(db.rows, db'.rows);
    assert Linked(db, row);
    forall r | r in db'.rows ensures Linked(db', r) {
      assert r in db.rows && Linked(db, r);
      if !TopLevel(r.path) {
        var g := RowAt(db.rows, Parent(r.path)).value;
        ParentSurvives(db.rows, row.path, r, g);
        CascadeStaysBelow(db, row, g);
      }
      if r.kind == FOLDER {
        CascadeStaysBelow(db, row, r);
      }
    }
  }

  lemma DeleteFileAllLinked(db: Db, id: nat)
    requires UniqueRows(db.rows) && AllLinked(db)
    ensures UniqueRows(DeleteFileObject(db, id).rows) && AllLinked(DeleteFileObject(db, id))
  {
    var db' := DeleteFileObject(db, id);
    SubsetUnique(db.rows, db'.rows);
    forall r | r in db'.rows ensures Linked(db', r) {
      assert r in db.rows && Linked(db, r);
      if !TopLevel(r.path) {
        RemoveKeyElsewhere(db.rows, FILE, id, Parent(r.path));
      }
    }
  }

  ghost predicate LinkInvariant(db: Db) {
    UniqueRows(db.rows) && Bounded(db) && AllLinked(db)
  }

  lemma ClearPathKeepsLinks(db: Db, path: string, db': Db)
    requires LinkInvariant(db) && ClearPath(db, RowAt(db.rows, path)) == Some(db')
    ensures LinkInvariant(db') && RowAt(db'.rows, path).None?
  {
    var row := RowAt(db.rows, path);
    if row.Some? {
      if row.value.kind == FOLDER {
        DeleteFolderAllLinked(db, row.value);
        DeleteFolderBounded(db, row.value);
      } else {
        DeleteFileAllLinked(db, row.value.id);
        DeleteFileBounded(db, row.value.id);
      }
      assert forall r :: r in db'.rows ==> r in db.rows && r != row.value;
    }
  }

  lemma CreateFolderKeepsLinks(p: Progress, settings: Settings, e: Entry)
    requires LinkInvariant(p.db) && RowAt(p.db.rows, e.path).None?
    requires CreateFolder(p, settings, e).Some?
    ensures LinkInvariant(CreateFolder(p, settings, e).value.db) && CreateFolder(p, settings, e).value.hits == p.hits
  {
    var q := CreateFolder(p, settings, e).value;
    CreateFolderCases(p, settings, e);
    if q.db != p.db {
      CreatedFolderAllLinked(p.db, q.db, e);
      CreatedFolderBounded(p.db, q.db, e);
    }
  }

  lemma ReconcileFolderKeepsLinks(p: Progress, settings: Settings, e: Entry)
    requires LinkInvariant(p.db) && ReconcileFolder(p, settings, e).Some?
    ensures LinkInvariant(ReconcileFolder(p, settings, e).value.db)
    ensures ReconcileFolder(p, settings, e).value.hits == p.hits
  {
    var q, row := ReconcileFolder(p, settings, e).value, RowAt(p.db.rows, e.path);
    if row.Some? && row.value.kind == FOLDER && SameIdentity(row.value.ident, e.ident) {
      assert Linked(p.db, row.value);
      if LookupParent(p.db.rows, e.path).FoundParent? {
        KeepFolderShape(p, row.value, e);
        KeptFolderAllLinked(p.db, q.db, row.value, e);
        KeptFolderBounded(p.db, q.db, row.value, e);
      }
    } else {
      var db := ClearPath(p.db, row).value;
      ClearPathKeepsLinks(p.db, e.path, db);
      CreateFolderKeepsLinks(p.(db := db), settings, e);
    }
  }

  /** From linked tables, every kept folder is found in the database. */
  lemma {:induction false} ReconcileFoldersHit(p: Progress, settings: Settings, scan: seq<Entry>, k: nat)
    requires k <= |scan| && LinkInvariant(p.db) && ReconcileFolders(p, settings, scan, k).Some?
    ensures ReconcileFolders(p, settings, scan, k).value.hits == p.hits
    decreases |scan| - k
  {
    if k < |scan| {
      ReconcileFolderKeepsLinks(p, settings, scan[k]);
      ReconcileFoldersHit(ReconcileFolder(p, settings, scan[k]).value, settings, scan, k + 1);
    }
  }
}

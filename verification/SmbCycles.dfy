/** Reconciliation cycles with web requests between them: whatever is uploaded, created or deleted
    meanwhile, and whatever the passes reject, every cycle's pass starts from consistent tables. */
module SmbCycles {
  import opened Wrappers
  import opened Text
  import opened Sorting
  import opened SmbTables
  import opened SmbSync
  import opened SmbMoves
  import opened SmbScan
  import opened SmbSettling
  import opened SmbLinks
  import opened SmbRows
  import opened SmbOrphans
  import opened SmbAgreement
  import opened SmbRuns
  import opened SmbParentCycles
  import opened SmbRejections

  predicate HasObject(db: Db, row: Row) {
    if row.kind == FOLDER then row.id in db.folders else row.id in db.files
  }

  /** The mappings of objects that were not deleted from the web. */
  function Present(db: Db, rows: seq<Row>): (r: seq<Row>)
    ensures forall row :: row in r <==> row in rows && HasObject(db, row)
  {
    if rows == [] then []
    else (if HasObject(db, rows[0]) then [rows[0]] else []) + Present(db, rows[1..])
  }

  /** removeWebDeletedProjectionEntries */
  function RemoveWebDeleted(db: Db): Db {
    db.(rows := Present(db, db.rows))
  }

  datatype Event =
    | CreateFolder(parent: Option<nat>, name: string)
    | Upload(file: File)
    | DeleteFile(id: nat)
    | DeleteFolder(folder: nat)
    | Project(row: Row)
    | Reproject(row: Row, path: string, ident: Identity)
    | Synchronize(scan: seq<Entry>)

  /** ensureUnmappedDatabaseProjection maps an object below the mapping of its folder, on a free path. */
  ghost predicate MayProject(db: Db, row: Row) {
    && HasObject(db, row) && RowAt(db.rows, row.path).None?
    && (forall r :: r in db.rows ==> !IsKey(r, row.kind, row.id))
    && var parent := if row.kind == FOLDER then db.folders[row.id].parent else db.files[row.id].folder;
       LookupParent(db.rows, row.path) == FoundParent(parent) && ParentExists(db.folders, parent)
  }

  /** applyDatabaseChangesToMappedEntries renames a mapped object below the mapping of its folder,
      and with a folder everything below it. */
  ghost predicate Reprojected(db: Db, row: Row, path: string, ident: Identity, db': Db) {
    && row in db.rows && HasObject(db, row)
    && (var parent := if row.kind == FOLDER then db.folders[row.id].parent else db.files[row.id].folder;
        LookupParent(db.rows, path) == FoundParent(parent) && ParentExists(db.folders, parent))
    && db' == db.(rows := db'.rows)
    && if row.kind == FOLDER
       then !Below(row.path, path) && MoveMappings(db.rows, row, path, ident) == Some(db'.rows)
       else Relocate(db.rows, FILE, row.id, path, ident) == Some(db'.rows)
  }

  /** A cycle removes the mappings of deleted objects and runs a pass that returns. */
  ghost predicate Follows(db: Db, e: Event, db': Db, settings: Settings) {
    match e
    case CreateFolder(parent, name) => db'
        == db.(folders := db.folders[db.nextId := Folder(parent, name)], nextId := db.nextId + 1)
    case Upload(file) => db' == db.(files := db.files[db.nextId := file], nextId := db.nextId + 1)
    case DeleteFile(id) => db' == db.(files := db.files - {id})
    case DeleteFolder(folder) =>
      var gone := Cascade(db.folders, {folder});
      db' == db.(folders := db.folders - gone,
                 files := map id | id in db.files && !InFolders(db.files[id], gone) :: db.files[id])
    case Project(row) => MayProject(db, row) && db' == db.(rows := db.rows + [row])
    case Reproject(row, path, ident) => Reprojected(db, row, path, ident, db')
    case Synchronize(scan) =>
      ValidScan(scan) &&
      var pass := SyncProjection(RemoveWebDeleted(db), settings, scan);
      pass.Some? && pass.value.db == db'
  }

  // ----- the invariant -----

  /** A mapped object that exists lies in the folder mapped at its parent path, which exists too. */
  ghost predicate Anchored(db: Db, row: Row) {
    && Linked(db, row)
    && var parent := LookupParent(db.rows, row.path);
       parent.FoundParent? && ParentExists(db.folders, parent.folder)
  }

  ghost predicate Invariant(db: Db) {
    Constraints(db) && forall row :: row in db.rows && HasObject(db, row) ==> Anchored(db, row)
  }

  lemma ConsistentAnchors(db: Db)
    requires Consistent(db)
    ensures Invariant(db)
  {
    forall row | row in db.rows && HasObject(db, row) ensures Anchored(db, row) {
      assert Linked(db, row);
      if !TopLevel(row.path) {
        assert Linked(db, RowAt(db.rows, Parent(row.path)).value);
      }
    }
  }

  // ----- web requests -----

  /** Rows unchanged, and whatever is left of the objects is unchanged and still has its folder. */
  lemma ObjectsShrink(db: Db, db': Db)
    requires Invariant(db) && db'.rows == db.rows && db'.nextId == db.nextId
    requires db'.folders.Keys <= db.folders.Keys && forall id :: id in db'.folders ==> db'.folders[id] == db.folders[id]
    requires db'.files.Keys <= db.files.Keys && forall id :: id in db'.files ==> db'.files[id] == db.files[id]
    requires forall id :: id in db'.folders && ParentExists(db.folders, db.folders[id].parent) ==>
             ParentExists(db'.folders, db.folders[id].parent)
    requires forall id :: id in db'.files && ParentExists(db.folders, db.files[id].folder) ==>
             ParentExists(db'.folders, db.files[id].folder)
    ensures Invariant(db')
  {
    hide UniqueRows, Distinct, LookupParent;
    forall row | row in db'.rows && HasObject(db', row) ensures Anchored(db', row) {
      assert Anchored(db, row);
    }
  }

  lemma DeletedFolderShrinks(db: Db, folder: nat, db': Db, settings: Settings)
    requires Invariant(db) && Follows(db, DeleteFolder(folder), db', settings)
    ensures Invariant(db')
  {
    var gone := Cascade(db.folders, {folder});
    forall id | id in db.folders && db.folders[id].parent.Some? && db.folders[id].parent.value in gone
        ensures id in gone {
      assert id in Children(db.folders, gone);
    }
    ObjectsShrink(db, db');
  }

  lemma AddedObject(db: Db, db': Db)
    requires Invariant(db) && db'.rows == db.rows && db'.nextId == db.nextId + 1
    requires db.folders.Keys <= db'.folders.Keys <= db.folders.Keys + {db.nextId}
    requires db.files.Keys <= db'.files.Keys <= db.files.Keys + {db.nextId}
    requires forall id :: id in db.folders ==> db'.folders[id] == db.folders[id]
    requires forall id :: id in db.files ==> db'.files[id] == db.files[id]
    ensures Invariant(db')
  {
    hide UniqueRows, Distinct, LookupParent;
    forall row | row in db'.rows && HasObject(db', row) ensures Anchored(db', row) {
      assert Anchored(db, row);
    }
  }

  lemma Projected(db: Db, row: Row)
    requires Invariant(db) && MayProject(db, row)
    ensures Invariant(db.(rows := db.rows + [row]))
  {
    var db' := db.(rows := db.rows + [row]);
    AppendRow(db.rows, row, row.path);
    hide UniqueRows;
    forall r | r in db'.rows && HasObject(db', r) ensures Anchored(db', r) {
      ParentStays(db, row, r);
    }
  }

  lemma ParentStays(db: Db, row: Row, r: Row)
    requires Invariant(db) && MayProject(db, row) && (r == row || (r in db.rows && HasObject(db, r)))
    ensures LookupParent(db.rows + [row], r.path) == LookupParent(db.rows, r.path)
    ensures r != row ==> Anchored(db, r)
  {
    if r != row {
      assert Anchored(db, r);
    }
    if !TopLevel(r.path) {
      if SameName(row.path, Parent(r.path)) {
        RowAtSameName(db.rows, row.path, Parent(r.path));
      } else {
        AppendRow(db.rows, row, Parent(r.path));
      }
    }
  }

  // ----- a cycle -----

  lemma {:induction false} PresentDistinct(db: Db, rows: seq<Row>)
    requires Distinct(rows)
    ensures Distinct(Present(db, rows))
  {
    if rows != [] {
      PresentDistinct(db, rows[1..]);
      HeadNotInTail(rows);
    }
  }

  /** Without the mappings of deleted objects the tables are consistent. */
  lemma RemovedIsConsistent(db: Db)
    requires Invariant(db)
    ensures Consistent(RemoveWebDeleted(db))
  {
    var db' := RemoveWebDeleted(db);
    PresentDistinct(db, db.rows);
    SubsetUnique(db.rows, db'.rows);
    forall row | row in db'.rows ensures Linked(db', row) {
      assert Anchored(db, row);
      if !TopLevel(row.path) {
        var g := RowAt(db.rows, Parent(row.path)).value;
        RowAtIs(db'.rows, Parent(row.path), g);
      }
    }
  }

  /** The pass has room for every scanned folder and takes none that it keeps along with another. */
  predicate KeepsFolders(db: Db, settings: Settings, scan: seq<Entry>) {
    RoomForAll(RemoveWebDeleted(db), settings, scan) && !OrphansFolder(RemoveWebDeleted(db), scan)
  }

  ghost predicate RejectsNothing(db: Db, settings: Settings, scan: seq<Entry>) {
    var pass := SyncProjection(RemoveWebDeleted(db), settings, scan);
    pass.Some? && pass.value.clean
  }

  lemma CycleKeeps(db: Db, scan: seq<Entry>, settings: Settings, db': Db)
    requires Invariant(db) && Follows(db, Synchronize(scan), db', settings) && KeepsFolders(db, settings, scan)
    ensures Consistent(db') && Invariant(db')
    ensures RejectsNothing(db, settings, scan) ==> Agreement(db', scan)
  {
    hide Agreement, Consistent, Invariant, SyncProjection, ValidScan, OrphansFolder, RoomForAll, RemoveWebDeleted;
    RemovedIsConsistent(db);
    RejectionsKeepConsistent(RemoveWebDeleted(db), settings, scan);
    if RejectsNothing(db, settings, scan) {
      CleanPassAgrees(RemoveWebDeleted(db), settings, scan);
    }
    ConsistentAnchors(db');
  }

  // ----- renamed projections -----

  lemma FolderReprojected(db: Db, row: Row, path: string, ident: Identity, db': Db)
    requires Invariant(db) && Reprojected(db, row, path, ident, db') && row.kind == FOLDER
    ensures Invariant(db')
  {
    hide Below, UniqueRows, Distinct, MoveMappings, LookupParent, Rebase;
    var e := Entry(FOLDER, path, ident, 0);
    MoveMappingsResult(db.rows, row, path, ident, db'.rows);
    MoveMappingsConstraints(db, row, path, ident);
    forall r' | r' in db'.rows && HasObject(db', r') ensures Anchored(db', r') {
      var r := RebasedFrom(db.rows, row, path, ident, db'.rows, r');
      OnlyMovedKey(db.rows, row, r);
      assert HasObject(db, r) && Anchored(db, r);
      if r == row {
        MoveKeepsTarget(db, db', row, e);
        RebasedItself(row, path, ident);
      } else {
        MoveKeepsLookup(db, db', row, e, r);
      }
    }
  }

  lemma RebasedItself(row: Row, path: string, ident: Identity)
    requires row.kind == FOLDER
    ensures Rebase(row, row, path, ident) == Row(FOLDER, row.id, path, ident)
  {}

  lemma FileReprojected(db: Db, row: Row, path: string, ident: Identity, db': Db)
    requires Invariant(db) && Reprojected(db, row, path, ident, db') && row.kind == FILE
    ensures Invariant(db')
  {
    hide Distinct, Bounded, LookupParent, Relocate, UniqueRows;
    RelocateConstraints(db, FILE, row.id, path, ident);
    RelocateMembers(db.rows, FILE, row.id, path, ident);
    forall r | r in db'.rows && HasObject(db', r) ensures Anchored(db', r) {
      var at := if IsKey(r, FILE, row.id) then path else r.path;
      if !IsKey(r, FILE, row.id) {
        assert r in db.rows && Anchored(db, r);
      }
      FileMoveKeepsParent(db.rows, row, path, ident, at);
    }
  }

  /** Rewriting a file's mapping changes no folder's. */
  lemma FileMoveKeepsParent(rows: seq<Row>, row: Row, path: string, ident: Identity, at: string)
    requires UniqueRows(rows) && row.kind == FILE && Relocate(rows, FILE, row.id, path, ident).Some?
    requires LookupParent(rows, at).FoundParent?
    ensures LookupParent(Relocate(rows, FILE, row.id, path, ident).value, at) == LookupParent(rows, at)
  {
    if !TopLevel(at) {
      RelocateElsewhere(rows, FILE, row.id, path, ident, Parent(at));
    }
  }

  // ----- steps -----

  /** The passes among the events keep their folders. */
  ghost predicate KeepsIfPass(db: Db, e: Event, settings: Settings) {
    e.Synchronize? ==> KeepsFolders(db, settings, e.scan)
  }

  lemma StepKeepsInvariant(db: Db, e: Event, db': Db, settings: Settings)
    requires Invariant(db) && Follows(db, e, db', settings) && KeepsIfPass(db, e, settings)
    ensures Invariant(db')
  {
    hide Invariant, SyncProjection, ValidScan, MayProject, Cascade, KeepsFolders, Reprojected;
    match e
    case CreateFolder(parent, name) => CreatedObject(db, e, db', settings);
    case Upload(file) => CreatedObject(db, e, db', settings);
    case DeleteFile(id) => ObjectsShrink(db, db');
    case DeleteFolder(folder) => DeletedFolderShrinks(db, folder, db', settings);
    case Project(row) => Projected(db, row);
    case Reproject(row, path, ident) =>
      if row.kind == FOLDER {
        FolderReprojected(db, row, path, ident, db');
      } else {
        FileReprojected(db, row, path, ident, db');
      }
    case Synchronize(scan) => CycleKeeps(db, scan, settings, db');
  }

  lemma CreatedObject(db: Db, e: Event, db': Db, settings: Settings)
    requires Invariant(db) && Follows(db, e, db', settings) && (e.CreateFolder? || e.Upload?)
    ensures Invariant(db')
  {
    assert db.nextId !in db.folders && db.nextId !in db.files;
    hide Linked, UniqueRows;
    AddedObject(db, db');
  }

  /** Unique keys and paths survive every event, whatever its pass rejects or loses. */
  lemma StepKeepsConstraints(db: Db, e: Event, db': Db, settings: Settings)
    requires Constraints(db) && Follows(db, e, db', settings)
    ensures Constraints(db')
  {
    hide SyncProjection, ValidScan, Cascade, UniqueRows, Distinct, MoveMappings, Relocate, LookupParent;
    match e
    case Project(row) => ProjectedConstraints(db, row);
    case Reproject(row, path, ident) =>
      if row.kind == FOLDER {
        MoveMappingsConstraints(db, row, path, ident);
      } else {
        RelocateConstraints(db, FILE, row.id, path, ident);
      }
    case Synchronize(scan) =>
      RemovedConstraints(db);
      PassKeepsConstraints(RemoveWebDeleted(db), settings, scan);
    case _ =>
  }

  lemma ProjectedConstraints(db: Db, row: Row)
    requires Constraints(db) && MayProject(db, row)
    ensures Constraints(db.(rows := db.rows + [row]))
  {
    AppendRow(db.rows, row, row.path);
  }

  lemma RemovedConstraints(db: Db)
    requires Constraints(db)
    ensures Constraints(RemoveWebDeleted(db))
  {
    PresentDistinct(db, db.rows);
    SubsetUnique(db.rows, Present(db, db.rows));
  }

  // ----- runs -----

  ghost predicate IsRun(dbs: seq<Db>, events: seq<Event>, settings: Settings) {
    && |dbs| == |events| + 1 && Consistent(dbs[0])
    && forall i :: 0 <= i < |events| ==> Follows(dbs[i], events[i], dbs[i + 1], settings)
  }

  /** In every state of a run, whatever its passes reject or lose, keys and paths are unique. */
  lemma {:induction false} RunKeepsConstraints(dbs: seq<Db>, events: seq<Event>, settings: Settings, i: nat)
    requires IsRun(dbs, events, settings) && i < |dbs|
    ensures Constraints(dbs[i])
  {
    hide Follows, Constraints, AllLinked, UniqueRows, Distinct, Bounded;
    if i == 0 {
      StartConstraints(dbs[0]);
    } else {
      RunKeepsConstraints(dbs, events, settings, i - 1);
      StepKeepsConstraints(dbs[i - 1], events[i - 1], dbs[i], settings);
    }
  }

  lemma StartConstraints(db: Db)
    requires Consistent(db)
    ensures Constraints(db)
  {}

  lemma {:induction false} RunKeepsInvariant(dbs: seq<Db>, events: seq<Event>, settings: Settings, i: nat)
    requires IsRun(dbs, events, settings) && i < |dbs|
    requires forall j :: 0 <= j < i ==> KeepsIfPass(dbs[j], events[j], settings)
    ensures Invariant(dbs[i])
  {
    hide Follows, Invariant, Consistent, KeepsIfPass;
    if i == 0 {
      ConsistentAnchors(dbs[0]);
    } else {
      RunKeepsInvariant(dbs, events, settings, i - 1);
      StepKeepsInvariant(dbs[i - 1], events[i - 1], dbs[i], settings);
    }
  }

  /** While no pass loses a kept folder or runs out of room for folders, every pass starts from
      consistent tables and leaves such tables, also when it rejects files; and after every pass
      that rejects nothing the tables agree with the disk as it was scanned. */
  lemma EveryCycleAgrees(dbs: seq<Db>, events: seq<Event>, settings: Settings, i: nat)
    requires IsRun(dbs, events, settings) && i < |events| && events[i].Synchronize?
    requires forall j :: 0 <= j <= i ==> KeepsIfPass(dbs[j], events[j], settings)
    ensures Consistent(RemoveWebDeleted(dbs[i])) && Consistent(dbs[i + 1])
    ensures RejectsNothing(dbs[i], settings, events[i].scan) ==> Agreement(dbs[i + 1], events[i].scan)
  {
    hide Invariant, Consistent, Agreement, SyncProjection, ValidScan, KeepsFolders, RemoveWebDeleted, RejectsNothing;
    RunKeepsInvariant(dbs, events, settings, i);
    RemovedIsConsistent(dbs[i]);
    CycleKeeps(dbs[i], events[i].scan, settings, dbs[i + 1]);
  }
}

/** Every step of a pass keeps the constraints of the tables, so passes can follow one another. */
module SmbRuns {
  import opened Wrappers
  import opened Text
  import opened Names
  import opened Sorting
  import opened SmbTables
  import opened SmbSync
  import opened SmbScan
  import opened SmbSettling
  import opened SmbLinks
  import opened SmbRows

  // ----- folders -----

  lemma MoveFolderConstraints(db: Db, moved: Row, e: Entry, r: MoveResult)
    requires Constraints(db) && MoveFolderFromSmb(db, moved, e) == Some(r)
    ensures Constraints(r.db) && r.db.files == db.files && r.db.nextId == db.nextId
  {
    hide MoveFolderFromSmb, MoveMappings, Constraints;
    if r.moved {
      MoveFolderTables(db, moved, e);
      MoveMappingsConstraints(db, moved, e.path, e.ident);
      SameFolderIds(db.(rows := r.db.rows), r.db);
    } else {
      UnmovedSame(db, moved, e);
    }
  }

  lemma SameFolderIds(db: Db, db': Db)
    requires Constraints(db) && db'.rows == db.rows && db'.files.Keys == db.files.Keys && db'.nextId == db.nextId
    requires db'.folders.Keys == db.folders.Keys
    ensures Constraints(db')
  {}

  lemma {:induction false} MoveFoldersConstraints(
    db: Db, stable: set<nat>, scan: seq<Entry>, k: nat, nested: bool, r: FolderMoves
  )
    requires k <= |scan| && Constraints(db) && MoveFolders(db, stable, scan, k, nested) == Some(r)
    ensures Constraints(r.db) && r.db.files == db.files && r.db.nextId == db.nextId
    decreases |scan| - k
  {
    hide MoveFolderFromSmb, Constraints;
    if k < |scan| {
      var moved := LastWithIdentity(db.rows, FOLDER, scan[k].ident);
      if !WantsMove(moved, stable, scan[k]) {
        MoveFoldersConstraints(db, stable, scan, k + 1, nested, r);
      } else {
        var m := MoveFolderFromSmb(db, moved.value, scan[k]).value;
        MoveFolderConstraints(db, moved.value, scan[k], m);
        MoveFoldersConstraints(m.db, stable, scan, k + 1, nested || (m.moved && Below(moved.value.path, scan[k].path)),
                               r);
      }
    }
  }

  /** Files only disappear, identifiers only grow. */
  ghost predicate FilesShrink(db: Db, db': Db) {
    db'.files.Keys <= db.files.Keys && (forall id :: id in db'.files ==> db'.files[id] == db.files[id])
    && db.nextId <= db'.nextId
  }

  lemma KeepFolderConstraints(p: Progress, row: Row, e: Entry, q: Progress)
    requires Constraints(p.db) && KeepFolder(p, row, e) == Some(q)
    ensures Constraints(q.db) && FilesShrink(p.db, q.db)
  {
    hide UniqueFolderName, Relocate, Constraints, NameTaken, LookupParent;
    if q != p {
      RelocateConstraints(p.db, FOLDER, row.id, e.path, e.ident);
      SameFolderIds(p.db.(rows := q.db.rows), q.db);
    }
  }

  lemma CreateFolderConstraints(p: Progress, settings: Settings, e: Entry, q: Progress)
    requires Constraints(p.db) && CreateFolder(p, settings, e) == Some(q)
    ensures Constraints(q.db) && FilesShrink(p.db, q.db)
  {
    hide CreateFolder, Constraints;
    if q.db != p.db {
      CreateFolderCases(p, settings, e);
      CreatedWhereFree(p, settings, e, q);
      AppendConstraints(p.db, Row(FOLDER, p.db.nextId, e.path, e.ident), q.db);
    }
  }

  lemma CreatedWhereFree(p: Progress, settings: Settings, e: Entry, q: Progress)
    requires CreateFolder(p, settings, e) == Some(q) && q.db != p.db
    ensures RowAt(p.db.rows, e.path).None?
  {
    hide UniqueFolderName, NameTaken, LookupParent, InsertFolder;
  }

  lemma ClearPathConstraints(db: Db, row: Option<Row>, db': Db)
    requires Constraints(db) && ClearPath(db, row) == Some(db')
    ensures Constraints(db') && FilesShrink(db, db')
  {
    if row.Some? {
      if row.value.kind == FOLDER {
        DeleteFolderConstraints(db, row.value);
      } else {
        DeleteFileConstraints(db, row.value.id);
      }
    }
  }

  lemma ReconcileFolderConstraints(p: Progress, settings: Settings, e: Entry, q: Progress)
    requires Constraints(p.db) && ReconcileFolder(p, settings, e) == Some(q)
    ensures Constraints(q.db) && FilesShrink(p.db, q.db)
  {
    hide KeepFolder, CreateFolder, ClearPath, Constraints;
    var row := RowAt(p.db.rows, e.path);
    if row.Some? && row.value.kind == FOLDER && SameIdentity(row.value.ident, e.ident) {
      KeepFolderConstraints(p, row.value, e, q);
    } else {
      var db := ClearPath(p.db, row).value;
      ClearPathConstraints(p.db, row, db);
      CreateFolderConstraints(p.(db := db), settings, e, q);
    }
  }

  /** The UNIQUE error that the caller swallows cannot occur: whatever held the path or the name is
      gone by then, and only the limit on folders turns a scanned folder away. */
  lemma OnlyTheLimitRejectsFolders(p: Progress, settings: Settings, e: Entry, q: Progress)
    requires Constraints(p.db) && ReconcileFolder(p, settings, e) == Some(q) && p.clean && !q.clean
    ensures ClearPath(p.db, RowAt(p.db.rows, e.path)).Some?
    ensures |ClearPath(p.db, RowAt(p.db.rows, e.path)).value.folders| >= settings.maxFolders
  {
    hide UniqueFolderName, ClearPath, LookupParent, InsertFolder, Constraints, UpdateFolder, Relocate, BaseName;
    var row := RowAt(p.db.rows, e.path);
    var db := ClearPath(p.db, row).value;
    ClearedPathIsFree(p.db, e.path, db);
    var parent := LookupParent(db.rows, e.path);
    if parent.FoundParent? {
      FreeNameIsNotTaken(db, parent.folder, BaseName(e.path));
    }
  }

  lemma ClearedPathIsFree(db: Db, path: string, db': Db)
    requires Constraints(db) && ClearPath(db, RowAt(db.rows, path)) == Some(db')
    ensures RowAt(db'.rows, path).None?
  {
    var row := RowAt(db.rows, path);
    if row.Some? {
      assert IsKey(row.value, row.value.kind, row.value.id);
    }
  }

  lemma FreeNameIsNotTaken(db: Db, parent: Option<nat>, desired: string)
    ensures var name := UniqueFolderName(db.folders, parent, desired, None);
            name.Some? ==> !NameTaken(db.folders, db.nextId, parent, name.value)
  {
    hide FirstFree, NameBase;
  }

  lemma {:induction false} ReconcileFoldersConstraints(
    p: Progress, settings: Settings, scan: seq<Entry>, k: nat, q: Progress
  )
    requires k <= |scan| && Constraints(p.db) && ReconcileFolders(p, settings, scan, k) == Some(q)
    ensures Constraints(q.db) && FilesShrink(p.db, q.db)
    decreases |scan| - k
  {
    hide ReconcileFolder, Constraints;
    if k < |scan| {
      var next := ReconcileFolder(p, settings, scan[k]).value;
      ReconcileFolderConstraints(p, settings, scan[k], next);
      ReconcileFoldersConstraints(next, settings, scan, k + 1, q);
    }
  }

  // ----- files -----

  /** One file and its mapping were updated. */
  ghost predicate FileRewritten(db: Db, db': Db, id: nat, e: Entry, ident: Identity) {
    && db'.folders == db.folders && db'.nextId == db.nextId && db'.files.Keys == db.files.Keys
    && (forall other :: other in db.files && other != id ==> db'.files[other] == db.files[other])
    && Relocate(db.rows, FILE, id, e.path, ident) == Some(db'.rows)
  }

  lemma RewrittenConstraints(db: Db, db': Db, id: nat, e: Entry, ident: Identity)
    requires Constraints(db) && FileRewritten(db, db', id, e, ident)
    ensures Constraints(db')
  {
    hide Constraints, Relocate;
    RelocateConstraints(db, FILE, id, e.path, ident);
    SameFolderIds(db.(rows := db'.rows), db');
  }

  lemma MoveFileRewrites(db: Db, settings: Settings, mapping: Row, e: Entry, r: FileMove)
    requires MoveFileFromSmb(db, settings, mapping, e) == Some(r)
    ensures if r.moved then FileRewritten(db, r.db, mapping.id, e, e.ident) else r.db == db
  {
    hide LookupParent, FolderOfFile, BaseName, EnforceQuota, Relocate;
  }

  lemma KeepFileRewrites(p: Progress, settings: Settings, row: Row, e: Entry, file: File, q: Progress)
    requires KeepFile(p, settings, row, e, file) == Some(q)
    ensures FileRewritten(p.db, q.db, row.id, e, e.ident) && q.seen == p.seen + {row.id}
  {
    hide LookupParent, FolderOfFile, BaseName, EnforceQuota, Relocate;
  }

  lemma ReplaceFileRewrites(p: Progress, settings: Settings, row: Row, e: Entry, file: File, q: Progress)
    returns (ident: Identity)
    requires ReplaceMappedFile(p, settings, row, e, file) == Some(q)
    ensures FileRewritten(p.db, q.db, row.id, e, ident) && q.seen == p.seen + {row.id}
  {
    hide LookupParent, FolderOfFile, BaseName, EnforceQuota, Relocate;
    ident := if EnforceQuota(p.db, settings, e.size, file.size, false).Some? then file.stored else e.ident;
  }

  lemma ImportFileConstraints(p: Progress, settings: Settings, e: Entry, q: Progress)
    requires Constraints(p.db) && ImportSmbFile(p, settings, e) == Some(q)
    ensures Constraints(q.db)
  {
    hide LookupParent, EnforceQuota, Constraints, RowAt, BaseName;
    if q.db != p.db {
      AppendConstraints(p.db, Row(FILE, p.db.nextId, e.path, e.ident), q.db);
    }
  }

  lemma {:induction false} MoveFilesConstraints(
    m: FileMoves, settings: Settings, stable: set<nat>, k: nat, r: FileMoves
  )
    requires k <= |m.scan| && Constraints(m.db) && MoveFiles(m, settings, stable, k) == Some(r)
    ensures Constraints(r.db)
    decreases |m.scan| - k
  {
    hide MoveFileFromSmb, Constraints;
    if k < |m.scan| {
      var moved := LastWithIdentity(m.db.rows, FILE, m.scan[k].ident);
      if !WantsMove(moved, stable, m.scan[k]) {
        MoveFilesConstraints(m, settings, stable, k + 1, r);
      } else {
        var next := MoveFileFromSmb(m.db, settings, moved.value, m.scan[k]).value;
        MoveFileRewrites(m.db, settings, moved.value, m.scan[k], next);
        if next.moved {
          RewrittenConstraints(m.db, next.db, moved.value.id, m.scan[k], m.scan[k].ident);
        }
        MoveFilesConstraints(FileMoves(next.db, m.scan[k := m.scan[k].(size := next.size)], m.clean && next.clean),
                             settings, stable, k + 1, r);
      }
    }
  }

  /** The file a mapped entry is compared with. */
  function KnownFile(known: map<nat, File>, files: map<nat, File>, id: nat): File
    requires id in known || id in files
  {
    if id in known then known[id] else files[id]
  }

  datatype FileStep = Skip | Rewrite | Import

  /** q comes from p by that kind of step. */
  ghost predicate StepTaken(
    p: Progress, settings: Settings, known: map<nat, File>, e: Entry, q: Progress, step: FileStep
  ) {
    var row := RowAt(p.db.rows, e.path);
    match step
    case Skip => q == p && row.Some? && row.value.kind == FILE
    case Rewrite =>
      row.Some? && row.value.kind == FILE && (row.value.id in known || row.value.id in p.db.files)
      && var file := KnownFile(known, p.db.files, row.value.id);
         KeepFile(p, settings, row.value, e, file) == Some(q)
         || ReplaceMappedFile(p, settings, row.value, e, file) == Some(q)
    case Import =>
      (row.None? || row.value.kind == FOLDER)
      && ClearPath(p.db, row).Some? && ImportSmbFile(p.(db := ClearPath(p.db, row).value), settings, e) == Some(q)
  }

  /** What one step of the file loop does. */
  lemma FileStepCases(
    p: Progress, settings: Settings, known: map<nat, File>, e: Entry, q: Progress
  ) returns (step: FileStep)
    requires ReconcileFile(p, settings, known, e) == Some(q)
    ensures StepTaken(p, settings, known, e, q, step)
  {
    hide KeepFile, ReplaceMappedFile, ImportSmbFile, ClearPath;
    var row := RowAt(p.db.rows, e.path);
    if row.Some? && row.value.kind == FILE {
      step := if row.value.id !in known && row.value.id !in p.db.files then Skip else Rewrite;
    } else {
      step := Import;
    }
  }

  lemma ReconcileFileConstraints(p: Progress, settings: Settings, known: map<nat, File>, e: Entry, q: Progress)
    requires Constraints(p.db) && ReconcileFile(p, settings, known, e) == Some(q)
    ensures Constraints(q.db)
  {
    hide KeepFile, ReplaceMappedFile, ImportSmbFile, ClearPath, Constraints, ReconcileFile;
    var step := FileStepCases(p, settings, known, e, q);
    var row := RowAt(p.db.rows, e.path);
    match step
    case Skip =>
    case Rewrite =>
      var file := KnownFile(known, p.db.files, row.value.id);
      var ident := e.ident;
      if KeepFile(p, settings, row.value, e, file) == Some(q) {
        KeepFileRewrites(p, settings, row.value, e, file, q);
      } else {
        ident := ReplaceFileRewrites(p, settings, row.value, e, file, q);
      }
      RewrittenConstraints(p.db, q.db, row.value.id, e, ident);
    case Import =>
      ClearPathConstraints(p.db, row, ClearPath(p.db, row).value);
      ImportFileConstraints(p.(db := ClearPath(p.db, row).value), settings, e, q);
  }

  lemma {:induction false} ReconcileFilesConstraints(
    p: Progress, settings: Settings, known: map<nat, File>, scan: seq<Entry>, k: nat, q: Progress
  )
    requires k <= |scan| && Constraints(p.db) && ReconcileFiles(p, settings, known, scan, k) == Some(q)
    ensures Constraints(q.db)
    decreases |scan| - k
  {
    hide ReconcileFile, Constraints;
    if k < |scan| {
      var next := ReconcileFile(p, settings, known, scan[k]).value;
      ReconcileFileConstraints(p, settings, known, scan[k], next);
      ReconcileFilesConstraints(next, settings, known, scan, k + 1, q);
    }
  }

  lemma {:induction false} DropFilesConstraints(db: Db, pending: seq<Row>, seen: set<nat>)
    requires Constraints(db)
    ensures Constraints(DropFiles(db, pending, seen)) && FilesShrink(db, DropFiles(db, pending, seen))
    decreases |pending|
  {
    hide Constraints;
    if pending != [] {
      var next := if pending[0].id in seen then db else DeleteFileObject(db, pending[0].id);
      DeleteFileConstraints(db, pending[0].id);
      DropFilesConstraints(next, pending[1..], seen);
    }
  }

  lemma {:induction false} DropFoldersConstraints(db: Db, pending: seq<Row>, seen: set<nat>, r: Db)
    requires Constraints(db) && DropFolders(db, pending, seen) == Some(r)
    ensures Constraints(r) && FilesShrink(db, r)
    decreases |pending|
  {
    hide Constraints;
    if pending != [] {
      if pending[0].id in seen {
        DropFoldersConstraints(db, pending[1..], seen, r);
      } else {
        var next := DeleteFolderObject(db, pending[0]).value;
        DeleteFolderConstraints(db, pending[0]);
        DropFoldersConstraints(next, pending[1..], seen, r);
      }
    }
  }

  // ----- the pass -----

  /** The intermediate tables of a pass that returns. */
  datatype Stages = Stages(moved: Db, folders: Progress, fileMoves: FileMoves, files: Progress, kept: Db)

  ghost function StagesOf(db: Db, settings: Settings, scan: seq<Entry>): Stages
    requires SyncProjection(db, settings, scan).Some?
  {
    var scanFolders, scanFiles := ScanFolders(scan), ScanFiles(scan);
    var moves := MoveFolders(db, StableMappings(db.rows, scanFolders, FOLDER), scanFolders, 0, false).value;
    var p := ReconcileFolders(Progress(moves.db, {}, true, true), settings, scanFolders, 0).value;
    var m := MoveFiles(FileMoves(p.db, scanFiles, p.clean), settings, StableMappings(p.db.rows, scanFiles, FILE),
                       0).value;
    var q := ReconcileFiles(Progress(m.db, {}, m.clean, p.hits), settings, m.db.files, m.scan, 0).value;
    Stages(moves.db, p, m, q, DropFiles(q.db, RowsOfKind(q.db.rows, FILE), q.seen))
  }

  /** Whatever the scan, a pass that returns leaves tables that satisfy their constraints. */
  lemma PassKeepsConstraints(db: Db, settings: Settings, scan: seq<Entry>)
    requires Constraints(db) && SyncProjection(db, settings, scan).Some?
    ensures Constraints(SyncProjection(db, settings, scan).value.db)
  {
    hide Constraints, MoveFolders, ReconcileFolders, MoveFiles, ReconcileFiles, DropFiles, DropFolders;
    var scanFolders, scanFiles := ScanFolders(scan), ScanFiles(scan);
    var s := StagesOf(db, settings, scan);
    var stable := StableMappings(db.rows, scanFolders, FOLDER);
    MoveFoldersConstraints(db, stable, scanFolders, 0, false, MoveFolders(db, stable, scanFolders, 0, false).value);
    ReconcileFoldersConstraints(Progress(s.moved, {}, true, true), settings, scanFolders, 0, s.folders);
    MoveFilesConstraints(FileMoves(s.folders.db, scanFiles, s.folders.clean), settings,
                         StableMappings(s.folders.db.rows, scanFiles, FILE), 0, s.fileMoves);
    ReconcileFilesConstraints(Progress(s.fileMoves.db, {}, s.fileMoves.clean, s.folders.hits), settings,
                              s.fileMoves.db.files, s.fileMoves.scan, 0, s.files);
    DropFilesConstraints(s.files.db, RowsOfKind(s.files.db.rows, FILE), s.files.seen);
    DropFoldersConstraints(s.kept, Sort(RowsOfKind(s.kept.rows, FOLDER), ShallownessOf()), s.folders.seen,
                           SyncProjection(db, settings, scan).value.db);
  }
}

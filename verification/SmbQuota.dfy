/** A pass never takes the recorded usage over a limit that it respected before. */
module SmbQuota {
  import opened Wrappers
  import opened Text
  import opened Names
  import opened Sorting
  import opened Totals
  import opened QuotaLimits
  import opened SmbTables
  import opened SmbSync
  import opened SmbScan
  import opened SmbSettling
  import opened SmbRows
  import opened SmbRuns

  /** The recorded bytes and files of the repository and of the server respect the limits. */
  ghost predicate WithinLimits(files: map<nat, File>, settings: Settings) {
    Respects(RepositoryUsage(files), settings)
  }

  predicate Respects(here: Usage, settings: Settings) {
    && !settings.limits.repositoryBytes.Exceeded(here.size)
    && !settings.limits.repositoryCount.Exceeded(here.count)
    && !settings.limits.totalBytes.Exceeded(here.size + settings.elsewhere.size)
    && !settings.limits.totalCount.Exceeded(here.count + settings.elsewhere.count)
  }

  // ----- single changes of the files table -----

  lemma FewerFilesWithin(files: map<nat, File>, fewer: map<nat, File>, settings: Settings)
    requires WithinLimits(files, settings)
    requires fewer.Keys <= files.Keys && forall id :: id in fewer ==> fewer[id] == files[id]
    ensures WithinLimits(fewer, settings)
  {
    TotalSubset(fewer, files, SizeOf());
    SubsetSize(fewer.Keys, files.Keys);
    assert |fewer| == |fewer.Keys| && |files| == |files.Keys|;
  }

  lemma ResizedFileWithin(db: Db, settings: Settings, id: nat, file: File)
    requires WithinLimits(db.files, settings) && id in db.files
    requires file.size > db.files[id].size ==> EnforceQuota(db, settings, file.size, db.files[id].size, false).None?
    ensures WithinLimits(db.files[id := file], settings)
  {
    TotalUpdate(db.files, SizeOf(), id, file);
    assert db.files[id := file].Keys == db.files.Keys;
    assert |db.files[id := file]| == |db.files[id := file].Keys| && |db.files| == |db.files.Keys|;
  }

  lemma AddedFileWithin(db: Db, settings: Settings, id: nat, file: File)
    requires WithinLimits(db.files, settings) && id !in db.files
    requires EnforceQuota(db, settings, file.size, 0, true).None?
    ensures WithinLimits(db.files[id := file], settings)
  {
    TotalInsert(db.files, SizeOf(), id, file);
    assert db.files[id := file].Keys == db.files.Keys + {id};
    assert |db.files[id := file]| == |db.files[id := file].Keys| && |db.files| == |db.files.Keys|;
  }

  lemma MoveFileWithin(db: Db, settings: Settings, mapping: Row, e: Entry, r: FileMove)
    requires WithinLimits(db.files, settings) && MoveFileFromSmb(db, settings, mapping, e) == Some(r)
    ensures WithinLimits(r.db.files, settings)
  {
    hide WithinLimits, LookupParent, FolderOfFile, BaseName, EnforceQuota, Relocate;
    if r.db.files != db.files {
      ResizedFileWithin(db, settings, mapping.id, r.db.files[mapping.id]);
    }
  }

  lemma KeepFileWithin(p: Progress, settings: Settings, row: Row, e: Entry, file: File, q: Progress)
    requires WithinLimits(p.db.files, settings) && KeepFile(p, settings, row, e, file) == Some(q)
    requires row.id in p.db.files ==> p.db.files[row.id].size == file.size
    ensures WithinLimits(q.db.files, settings)
  {
    hide WithinLimits, LookupParent, FolderOfFile, BaseName, EnforceQuota, Relocate;
    if q.db.files != p.db.files {
      ResizedFileWithin(p.db, settings, row.id, q.db.files[row.id]);
    }
  }

  lemma ReplaceFileWithin(p: Progress, settings: Settings, row: Row, e: Entry, file: File, q: Progress)
    requires WithinLimits(p.db.files, settings) && ReplaceMappedFile(p, settings, row, e, file) == Some(q)
    requires row.id in p.db.files ==> p.db.files[row.id].size == file.size
    ensures WithinLimits(q.db.files, settings)
  {
    hide WithinLimits, LookupParent, FolderOfFile, BaseName, EnforceQuota, Relocate;
    if q.db.files != p.db.files {
      ResizedFileWithin(p.db, settings, row.id, q.db.files[row.id]);
    }
  }

  lemma ImportFileWithin(p: Progress, settings: Settings, e: Entry, q: Progress)
    requires WithinLimits(p.db.files, settings) && Bounded(p.db) && ImportSmbFile(p, settings, e) == Some(q)
    ensures WithinLimits(q.db.files, settings)
  {
    hide WithinLimits, LookupParent, BaseName, EnforceQuota, RowAt;
    if q.db.files != p.db.files {
      AddedFileWithin(p.db, settings, p.db.nextId, q.db.files[p.db.nextId]);
    }
  }

  lemma {:induction false} MoveFilesWithin(m: FileMoves, settings: Settings, stable: set<nat>, k: nat, r: FileMoves)
    requires k <= |m.scan| && WithinLimits(m.db.files, settings) && MoveFiles(m, settings, stable, k) == Some(r)
    ensures WithinLimits(r.db.files, settings) && |r.scan| == |m.scan|
    ensures forall j :: 0 <= j < |m.scan| ==> r.scan[j].path == m.scan[j].path
    decreases |m.scan| - k
  {
    hide MoveFileFromSmb, WithinLimits;
    if k < |m.scan| {
      var moved := LastWithIdentity(m.db.rows, FILE, m.scan[k].ident);
      if !WantsMove(moved, stable, m.scan[k]) {
        MoveFilesWithin(m, settings, stable, k + 1, r);
      } else {
        var next := MoveFileFromSmb(m.db, settings, moved.value, m.scan[k]).value;
        MoveFileWithin(m.db, settings, moved.value, m.scan[k], next);
        MoveFilesWithin(FileMoves(next.db, m.scan[k := m.scan[k].(size := next.size)], m.clean && next.clean),
                        settings, stable, k + 1, r);
      }
    }
  }

  // ----- the file loop and its snapshot -----

  /** The sizes read before the loop still hold for every file that was not visited yet. */
  ghost predicate SnapshotHolds(db: Db, known: map<nat, File>, seen: set<nat>) {
    && (forall id :: id in known ==> id < db.nextId)
    && (forall id :: id in known && id in db.files && id !in seen ==> db.files[id] == known[id])
  }

  /** Rows of visited files lie at visited paths. */
  ghost predicate SeenBehind(rows: seq<Row>, seen: set<nat>, scan: seq<Entry>, k: nat) {
    forall row :: row in rows && row.kind == FILE && row.id in seen ==> VisitedPath(row.path, scan, k)
  }

  ghost predicate VisitedPath(path: string, scan: seq<Entry>, k: nat) {
    exists j :: 0 <= j < k && j < |scan| && SameName(path, scan[j].path)
  }

  lemma NotVisited(path: string, scan: seq<Entry>, k: nat)
    requires PathsDistinct(scan) && k < |scan| && SameName(path, scan[k].path)
    ensures !VisitedPath(path, scan, k)
  {}

  lemma VisitedNext(path: string, scan: seq<Entry>, k: nat)
    requires k < |scan| && (VisitedPath(path, scan, k) || SameName(path, scan[k].path))
    ensures VisitedPath(path, scan, k + 1)
  {
    if VisitedPath(path, scan, k) {
      var j :| 0 <= j < k && j < |scan| && SameName(path, scan[j].path);
      assert j < k + 1;
    }
  }

  lemma RewrittenBehind(db: Db, db': Db, seen: set<nat>, scan: seq<Entry>, k: nat, id: nat, ident: Identity)
    requires k < |scan| && FileRewritten(db, db', id, scan[k], ident) && SeenBehind(db.rows, seen, scan, k)
    ensures SeenBehind(db'.rows, seen + {id}, scan, k + 1)
  {
    hide Relocate;
    forall row | row in db'.rows && row.kind == FILE && row.id in seen + {id}
        ensures VisitedPath(row.path, scan, k + 1) {
      var i :| 0 <= i < |db'.rows| && db'.rows[i] == row;
      assert db.rows[i] in db.rows;
      VisitedNext(row.path, scan, k);
    }
  }

  lemma ImportedBehind(
    rows: seq<Row>, rows': seq<Row>, seen: set<nat>, seen': set<nat>, id: nat, scan: seq<Entry>, k: nat
  )
    requires k < |scan| && SeenBehind(rows, seen, scan, k)
    requires forall row :: row in rows' ==> row in rows || (row.id == id && row.path == scan[k].path)
    requires seen' == seen || (seen' == seen + {id} && forall row :: row in rows ==> row.id != id)
    ensures SeenBehind(rows', seen', scan, k + 1)
  {
    forall row | row in rows' && row.kind == FILE && row.id in seen' ensures VisitedPath(row.path, scan, k + 1) {
      VisitedNext(row.path, scan, k);
    }
  }

  lemma SkippedBehind(rows: seq<Row>, seen: set<nat>, scan: seq<Entry>, k: nat)
    requires k < |scan| && SeenBehind(rows, seen, scan, k)
    ensures SeenBehind(rows, seen, scan, k + 1)
  {
    ImportedBehind(rows, rows, seen, seen, 0, scan, k);
  }

  ghost predicate LoopState(p: Progress, settings: Settings, known: map<nat, File>, scan: seq<Entry>, k: nat) {
    && Constraints(p.db) && WithinLimits(p.db.files, settings)
    && SnapshotHolds(p.db, known, p.seen) && SeenBehind(p.db.rows, p.seen, scan, k)
  }

  lemma RewriteStep(
    p: Progress, settings: Settings, known: map<nat, File>, scan: seq<Entry>, k: nat, row: Row, q: Progress
  )
    requires PathsDistinct(scan) && k < |scan| && LoopState(p, settings, known, scan, k)
    requires RowAt(p.db.rows, scan[k].path) == Some(row) && row.kind == FILE
    requires row.id in known || row.id in p.db.files
    requires var file := KnownFile(known, p.db.files, row.id);
             KeepFile(p, settings, row, scan[k], file) == Some(q)
             || ReplaceMappedFile(p, settings, row, scan[k], file) == Some(q)
    ensures LoopState(q, settings, known, scan, k + 1)
  {
    hide KeepFile, ReplaceMappedFile, Constraints, WithinLimits, SeenBehind, Relocate;
    var file := KnownFile(known, p.db.files, row.id);
    UnseenRow(p.db.rows, p.seen, scan, k, row);
    assert row.id in p.db.files ==> p.db.files[row.id].size == file.size;
    var ident := scan[k].ident;
    if KeepFile(p, settings, row, scan[k], file) == Some(q) {
      KeepFileRewrites(p, settings, row, scan[k], file, q);
      KeepFileWithin(p, settings, row, scan[k], file, q);
    } else {
      ident := ReplaceFileRewrites(p, settings, row, scan[k], file, q);
      ReplaceFileWithin(p, settings, row, scan[k], file, q);
    }
    RewrittenConstraints(p.db, q.db, row.id, scan[k], ident);
    RewrittenBehind(p.db, q.db, p.seen, scan, k, row.id, ident);
  }

  lemma UnseenRow(rows: seq<Row>, seen: set<nat>, scan: seq<Entry>, k: nat, row: Row)
    requires PathsDistinct(scan) && k < |scan| && SeenBehind(rows, seen, scan, k)
    requires RowAt(rows, scan[k].path) == Some(row) && row.kind == FILE
    ensures row.id !in seen
  {
    NotVisited(row.path, scan, k);
  }

  lemma ImportStep(
    p: Progress, settings: Settings, known: map<nat, File>, scan: seq<Entry>, k: nat, db: Db, q: Progress
  )
    requires k < |scan| && LoopState(p, settings, known, scan, k)
    requires ClearPath(p.db, RowAt(p.db.rows, scan[k].path)) == Some(db)
    requires ImportSmbFile(p.(db := db), settings, scan[k]) == Some(q)
    ensures LoopState(q, settings, known, scan, k + 1)
  {
    hide Constraints, WithinLimits, SeenBehind, RowAt, ImportSmbFile, ClearPath, BaseName;
    var row := RowAt(p.db.rows, scan[k].path);
    ClearPathConstraints(p.db, row, db);
    FewerFilesWithin(p.db.files, db.files, settings);
    ClearedRows(p.db, row, db);
    var p' := p.(db := db);
    ImportFileConstraints(p', settings, scan[k], q);
    ConstraintsBound(db);
    ImportFileWithin(p', settings, scan[k], q);
    ImportedShape(p', settings, scan[k], q);
    ImportedBehind(p.db.rows, q.db.rows, p.seen, q.seen, p.db.nextId, scan, k);
  }

  lemma ConstraintsBound(db: Db)
    requires Constraints(db)
    ensures Bounded(db)
  {}

  lemma ClearedRows(db: Db, row: Option<Row>, db': Db)
    requires ClearPath(db, row) == Some(db') && Constraints(db)
    ensures db'.nextId == db.nextId && (forall r :: r in db'.rows ==> r in db.rows)
    ensures forall r :: r in db.rows ==> r.id != db.nextId
  {}

  lemma ImportedShape(p: Progress, settings: Settings, e: Entry, q: Progress)
    requires ImportSmbFile(p, settings, e) == Some(q)
    ensures (q.db == p.db && q.seen == p.seen)
            || (q.db == InsertFile(p.db, q.db.files[p.db.nextId].folder, e) && q.seen == p.seen + {p.db.nextId})
  {
    hide EnforceQuota, LookupParent, RowAt, BaseName;
  }

  lemma ReconcileFileWithin(
    p: Progress, settings: Settings, known: map<nat, File>, scan: seq<Entry>, k: nat, q: Progress
  )
    requires PathsDistinct(scan) && k < |scan| && LoopState(p, settings, known, scan, k)
    requires ReconcileFile(p, settings, known, scan[k]) == Some(q)
    ensures LoopState(q, settings, known, scan, k + 1)
  {
    hide ReconcileFile, KeepFile, ReplaceMappedFile, ImportSmbFile, ClearPath, Constraints, WithinLimits, SnapshotHolds;
    var step := FileStepCases(p, settings, known, scan[k], q);
    match step
    case Skip => SkippedBehind(p.db.rows, p.seen, scan, k);
    case Rewrite => RewriteStep(p, settings, known, scan, k, RowAt(p.db.rows, scan[k].path).value, q);
    case Import => ImportStep(p, settings, known, scan, k, ClearPath(p.db, RowAt(p.db.rows, scan[k].path)).value, q);
  }

  lemma {:induction false} ReconcileFilesWithin(
    p: Progress, settings: Settings, known: map<nat, File>, scan: seq<Entry>, k: nat, q: Progress
  )
    requires k <= |scan| && PathsDistinct(scan) && LoopState(p, settings, known, scan, k)
    requires ReconcileFiles(p, settings, known, scan, k) == Some(q)
    ensures WithinLimits(q.db.files, settings)
    decreases |scan| - k
  {
    hide ReconcileFile, PathsDistinct;
    if k < |scan| {
      var next := ReconcileFile(p, settings, known, scan[k]).value;
      ReconcileFileWithin(p, settings, known, scan, k, next);
      ReconcileFilesWithin(next, settings, known, scan, k + 1, q);
    }
  }

  lemma LoopStart(db: Db, settings: Settings, scan: seq<Entry>, clean: bool, hits: bool)
    requires Constraints(db) && WithinLimits(db.files, settings)
    ensures LoopState(Progress(db, {}, clean, hits), settings, db.files, scan, 0)
  {
    hide WithinLimits;
  }

  lemma ShrunkWithin(db: Db, db': Db, settings: Settings)
    requires WithinLimits(db.files, settings) && FilesShrink(db, db')
    ensures WithinLimits(db'.files, settings)
  {
    FewerFilesWithin(db.files, db'.files, settings);
  }

  lemma SamePathsDistinct(scan: seq<Entry>, kept: seq<Entry>)
    requires PathsDistinct(scan) && |kept| == |scan|
    requires forall j :: 0 <= j < |scan| ==> kept[j].path == scan[j].path
    ensures PathsDistinct(kept)
  {}

  /** Imports, replacements, moves with growth, growth in place and deletions: no pass that
      returns takes the recorded bytes or the number of files over a limit. */
  lemma PassKeepsQuota(db: Db, settings: Settings, scan: seq<Entry>)
    requires Constraints(db) && PathsDistinct(ScanFiles(scan)) && WithinLimits(db.files, settings)
    requires SyncProjection(db, settings, scan).Some?
    ensures WithinLimits(SyncProjection(db, settings, scan).value.db.files, settings)
  {
    hide Constraints, WithinLimits, PathsDistinct, LoopState, FilesShrink;
    hide MoveFolders, ReconcileFolders, MoveFiles, ReconcileFiles, DropFiles, DropFolders;
    var scanFolders, scanFiles := ScanFolders(scan), ScanFiles(scan);
    var s := StagesOf(db, settings, scan);
    var stable := StableMappings(db.rows, scanFolders, FOLDER);
    MoveFoldersConstraints(db, stable, scanFolders, 0, false, MoveFolders(db, stable, scanFolders, 0, false).value);
    ReconcileFoldersConstraints(Progress(s.moved, {}, true, true), settings, scanFolders, 0, s.folders);
    ShrunkWithin(s.moved, s.folders.db, settings);
    var stableFiles := StableMappings(s.folders.db.rows, scanFiles, FILE);
    MoveFilesConstraints(FileMoves(s.folders.db, scanFiles, s.folders.clean), settings, stableFiles, 0, s.fileMoves);
    MoveFilesWithin(FileMoves(s.folders.db, scanFiles, s.folders.clean), settings, stableFiles, 0, s.fileMoves);
    SamePathsDistinct(scanFiles, s.fileMoves.scan);
    LoopStart(s.fileMoves.db, settings, s.fileMoves.scan, s.fileMoves.clean, s.folders.hits);
    var start := Progress(s.fileMoves.db, {}, s.fileMoves.clean, s.folders.hits);
    ReconcileFilesWithin(start, settings, s.fileMoves.db.files, s.fileMoves.scan, 0, s.files);
    DropsWithin(db, settings, scan, s);
  }

  lemma DropsWithin(db: Db, settings: Settings, scan: seq<Entry>, s: Stages)
    requires SyncProjection(db, settings, scan).Some? && s == StagesOf(db, settings, scan)
    requires Constraints(s.fileMoves.db) && WithinLimits(s.files.db.files, settings)
    ensures WithinLimits(SyncProjection(db, settings, scan).value.db.files, settings)
  {
    hide Constraints, WithinLimits, FilesShrink;
    hide MoveFolders, ReconcileFolders, MoveFiles, ReconcileFiles, DropFiles, DropFolders;
    var r := SyncProjection(db, settings, scan).value.db;
    var start := Progress(s.fileMoves.db, {}, s.fileMoves.clean, s.folders.hits);
    ReconcileFilesConstraints(start, settings, s.fileMoves.db.files, s.fileMoves.scan, 0, s.files);
    DropFilesConstraints(s.files.db, RowsOfKind(s.files.db.rows, FILE), s.files.seen);
    ShrunkWithin(s.files.db, s.kept, settings);
    DropFoldersConstraints(s.kept, Sort(RowsOfKind(s.kept.rows, FOLDER), ShallownessOf()), s.folders.seen, r);
    ShrunkWithin(s.kept, r, settings);
  }
}

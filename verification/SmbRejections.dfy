/** A pass whose file loops reject what a quota forbids: the tables it leaves are consistent all the
    same, so that the next pass can start from them. */
module SmbRejections {
  import opened Wrappers
  import opened Text
  import opened Sorting
  import opened SmbTables
  import opened SmbSync
  import opened SmbScan
  import opened SmbSettling
  import opened SmbLinks
  import opened SmbFolders
  import opened SmbFiles
  import opened SmbRows
  import opened SmbOrphans
  import opened SmbAgreement
  import opened SmbRuns
  import opened SmbParentCycles

  /** All folders are settled and exist. */
  ghost predicate FoldersStand(db: Db, folders: seq<Entry>, seenFolders: set<nat>) {
    TablesReady(db, folders, seenFolders) && seenFolders <= db.folders.Keys
  }

  // ----- steps on files -----

  /** A file that stays at its path stays in its folder. */
  lemma FolderInPlace(db: Db, row: Row, e: Entry)
    requires UniqueRows(db.rows) && FilesLinked(db) && row in db.rows && row.kind == FILE && row.id in db.files
    requires SameName(row.path, e.path)
    ensures LookupParent(db.rows, e.path) == FoundParent(db.files[row.id].folder)
  {
    assert FileLinked(db, row);
    SameParent(row.path, e.path);
    RowAtSameName(db.rows, Parent(row.path), Parent(e.path));
  }

  lemma KeptFileRelinks(p: Progress, settings: Settings, row: Row, e: Entry, file: File, q: Progress)
    requires KeepFile(p, settings, row, e, file) == Some(q)
    requires LookupParent(p.db.rows, e.path) == FoundParent(FolderOfFile(p.db.rows, e.path))
    requires row.id in p.db.files ==> LookupParent(p.db.rows, e.path) == FoundParent(p.db.files[row.id].folder)
    ensures FileRelinked(p.db, q.db, row, e, e.ident)
  {
    hide LookupParent, FolderOfFile, BaseName, EnforceQuota, Relocate;
  }

  lemma ReplacedFileRelinks(p: Progress, settings: Settings, row: Row, e: Entry, file: File, q: Progress)
    returns (ident: Identity)
    requires ReplaceMappedFile(p, settings, row, e, file) == Some(q)
    requires LookupParent(p.db.rows, e.path) == FoundParent(FolderOfFile(p.db.rows, e.path))
    requires row.id in p.db.files ==> LookupParent(p.db.rows, e.path) == FoundParent(p.db.files[row.id].folder)
    ensures FileRelinked(p.db, q.db, row, e, ident)
  {
    hide LookupParent, FolderOfFile, BaseName, EnforceQuota, Relocate;
    ident := if EnforceQuota(p.db, settings, e.size, file.size, false).Some? then file.stored else e.ident;
  }

  lemma MovedFileRelinks(db: Db, settings: Settings, row: Row, e: Entry, r: FileMove)
    requires MoveFileFromSmb(db, settings, row, e) == Some(r)
    ensures !r.moved ==> r.db == db
    ensures r.moved ==>
             FileRelinked(db, r.db, row, e, e.ident) && row.id in db.files && LookupParent(db.rows, e.path).FoundParent?
  {
    hide LookupParent, FolderOfFile, BaseName, EnforceQuota, Relocate;
  }

  lemma ImportedOrNot(p: Progress, settings: Settings, e: Entry, q: Progress)
    requires ImportSmbFile(p, settings, e) == Some(q)
    ensures q.db == p.db || (FileImported(p.db, q.db, e) && RowAt(p.db.rows, e.path).None?)
  {
    hide LookupParent, EnforceQuota, RowAt, FileImported, InsertFile;
    var parent := LookupParent(p.db.rows, e.path);
    if parent.FoundParent? {
      InsertedFile(p.db, parent.folder, e);
    }
  }

  lemma MappedFileStands(
    p: Progress, settings: Settings, file: File, row: Row, folders: seq<Entry>, seenFolders: set<nat>,
        files: seq<Entry>, k: nat,
    e: Entry, q: Progress
  )
    requires FolderOrder(folders) && FileList(folders, files) && k < |files| && e.path == files[k].path
    requires FoldersStand(p.db, folders, seenFolders)
    requires RowAt(p.db.rows, e.path) == Some(row) && row.kind == FILE
    requires KeepFile(p, settings, row, e, file) == Some(q) || ReplaceMappedFile(p, settings, row, e, file) == Some(q)
    ensures FoldersStand(q.db, folders, seenFolders)
  {
    hide FolderOrder, FileList, FoldersSettled, KeepFile, ReplaceMappedFile, LookupParent, UniqueRows, Bounded,
         FilesLinked;
    ListedParent(p.db, folders, seenFolders, files, k);
    if row.id in p.db.files {
      FolderInPlace(p.db, row, e);
    }
    var ident := e.ident;
    if KeepFile(p, settings, row, e, file) == Some(q) {
      KeptFileRelinks(p, settings, row, e, file, q);
    } else {
      ident := ReplacedFileRelinks(p, settings, row, e, file, q);
    }
    RelinkedReady(p.db, q.db, folders, seenFolders, row, e, ident);
  }

  lemma ClearedFileStands(
    p: Progress, settings: Settings, folders: seq<Entry>, seenFolders: set<nat>, files: seq<Entry>, k: nat, e: Entry,
        q: Progress
  )
    requires FolderOrder(folders) && FileList(folders, files) && k < |files| && e.path == files[k].path
    requires FoldersStand(p.db, folders, seenFolders)
    requires RowAt(p.db.rows, e.path).Some? ==> RowAt(p.db.rows, e.path).value.kind == FOLDER
    requires ClearPath(p.db, RowAt(p.db.rows, e.path)).Some?
    requires ImportSmbFile(p.(db := ClearPath(p.db, RowAt(p.db.rows, e.path)).value), settings, e) == Some(q)
    ensures FoldersStand(q.db, folders, seenFolders)
  {
    hide FolderOrder, FileList, FoldersSettled, ImportSmbFile, UniqueRows, Bounded, FilesLinked, DeleteFolderObject,
         FoldersFrame;
    var row := RowAt(p.db.rows, e.path);
    var db := ClearPath(p.db, row).value;
    if row.Some? {
      PathElsewhere(folders, files, k, row.value.path);
      ReplacedFolderReady(p.db, db, folders, seenFolders, row.value);
    }
    ImportedOrNot(p.(db := db), settings, e, q);
    if q.db != db {
      FileImportedReady(db, q.db, folders, seenFolders, e);
    }
  }

  lemma FileStepStands(
    p: Progress, settings: Settings, known: map<nat, File>, folders: seq<Entry>, seenFolders: set<nat>,
        files: seq<Entry>, k: nat,
    e: Entry, q: Progress
  )
    requires FolderOrder(folders) && FileList(folders, files) && k < |files| && e.path == files[k].path
    requires FoldersStand(p.db, folders, seenFolders) && ReconcileFile(p, settings, known, e) == Some(q)
    ensures FoldersStand(q.db, folders, seenFolders)
  {
    hide FolderOrder, FileList, FoldersStand, KeepFile, ReplaceMappedFile, ImportSmbFile, ReconcileFile, ClearPath;
    var step := FileStepCases(p, settings, known, e, q);
    var row := RowAt(p.db.rows, e.path);
    match step
    case Skip =>
    case Rewrite =>
      MappedFileStands(p, settings, KnownFile(known, p.db.files, row.value.id), row.value, folders, seenFolders, files,
                       k, e, q);
    case Import => ClearedFileStands(p, settings, folders, seenFolders, files, k, e, q);
  }

  // ----- the loops -----

  lemma {:induction false} MoveFilesStand(
    m: FileMoves, settings: Settings, stable: set<nat>, k: nat, folders: seq<Entry>, seenFolders: set<nat>, r: FileMoves
  )
    requires FolderOrder(folders) && k <= |m.scan| && FoldersStand(m.db, folders, seenFolders)
    requires MoveFiles(m, settings, stable, k) == Some(r)
    ensures FoldersStand(r.db, folders, seenFolders)
    decreases |m.scan| - k
  {
    hide TablesReady, FolderOrder, MoveFileFromSmb, FileRelinked, LookupParent;
    if k < |m.scan| {
      var moved := LastWithIdentity(m.db.rows, FILE, m.scan[k].ident);
      if !WantsMove(moved, stable, m.scan[k]) {
        MoveFilesStand(m, settings, stable, k + 1, folders, seenFolders, r);
      } else {
        var next := MoveFileFromSmb(m.db, settings, moved.value, m.scan[k]).value;
        MovedFileRelinks(m.db, settings, moved.value, m.scan[k], next);
        if next.moved {
          RelinkedReady(m.db, next.db, folders, seenFolders, moved.value, m.scan[k], m.scan[k].ident);
          RelinkedFolders(m.db, next.db, moved.value, m.scan[k], m.scan[k].ident);
        }
        MoveFilesStand(FileMoves(next.db, m.scan[k := m.scan[k].(size := next.size)], m.clean && next.clean),
                       settings, stable, k + 1, folders, seenFolders, r);
      }
    }
  }

  lemma RelinkedFolders(db: Db, db': Db, row: Row, e: Entry, ident: Identity)
    requires FileRelinked(db, db', row, e, ident)
    ensures db'.folders == db.folders
  {}

  lemma {:induction false} ReconcileFilesStand(
    p: Progress, settings: Settings, known: map<nat, File>, folders: seq<Entry>, seenFolders: set<nat>,
        files: seq<Entry>,
    scan: seq<Entry>, k: nat, q: Progress
  )
    requires FolderOrder(folders) && FileList(folders, files) && SamePaths(files, scan) && k <= |files|
    requires FoldersStand(p.db, folders, seenFolders) && ReconcileFiles(p, settings, known, scan, k) == Some(q)
    ensures FoldersStand(q.db, folders, seenFolders)
    decreases |files| - k
  {
    hide FolderOrder, FileList, FoldersStand, ReconcileFile;
    if k < |files| {
      var next := ReconcileFile(p, settings, known, scan[k]).value;
      FileStepStands(p, settings, known, folders, seenFolders, files, k, scan[k], next);
      ReconcileFilesStand(next, settings, known, folders, seenFolders, files, scan, k + 1, q);
    }
  }

  lemma DroppedFileStands(db: Db, id: nat, folders: seq<Entry>, seenFolders: set<nat>)
    requires FolderOrder(folders) && FoldersStand(db, folders, seenFolders)
    ensures FoldersStand(DeleteFileObject(db, id), folders, seenFolders)
  {
    hide FolderOrder, FoldersSettled, UniqueRows, Bounded, FilesLinked, FoldersFrame;
    DeleteFileFrame(db, folders, |folders|, seenFolders, id);
    FrameKeepsSettled(db, DeleteFileObject(db, id), folders, |folders|, seenFolders);
    DeleteFileFilesLinked(db, id);
    DeleteFileBounded(db, id);
  }

  lemma {:induction false} DropFilesStand(
    db: Db, pending: seq<Row>, seen: set<nat>, folders: seq<Entry>, seenFolders: set<nat>
  )
    requires FolderOrder(folders) && FoldersStand(db, folders, seenFolders)
    ensures FoldersStand(DropFiles(db, pending, seen), folders, seenFolders)
    decreases |pending|
  {
    hide FolderOrder, FoldersStand;
    if pending != [] {
      DroppedFileStands(db, pending[0].id, folders, seenFolders);
      DropFilesStand(if pending[0].id in seen then db
                     else DeleteFileObject(db, pending[0].id), pending[1..], seen, folders, seenFolders);
    }
  }

  lemma DropFoldersStand(db: Db, folders: seq<Entry>, seenFolders: set<nat>, r: Db)
    requires FolderOrder(folders) && FoldersStand(db, folders, seenFolders)
    requires DropFolders(db, Sort(RowsOfKind(db.rows, FOLDER), ShallownessOf()), seenFolders) == Some(r)
    ensures FoldersStand(r, folders, seenFolders)
    ensures forall row :: row in r.rows && row.kind == FOLDER ==> row.id in seenFolders
  {
    hide TablesReady, DropFolders, FolderOrder;
    NoFilesListed(db, folders, seenFolders);
    DropUnseenFolders(db, folders, seenFolders, [], {}, r);
    ReadyPart(r, folders, seenFolders);
  }

  lemma NoFilesListed(db: Db, folders: seq<Entry>, seenFolders: set<nat>)
    requires TablesReady(db, folders, seenFolders)
    ensures FileList(folders, []) && FileInvariant(db, folders, seenFolders, [], 0, {})
  {
    hide TablesReady;
  }

  lemma ReadyPart(db: Db, folders: seq<Entry>, seenFolders: set<nat>)
    requires FileInvariant(db, folders, seenFolders, [], 0, {})
    ensures TablesReady(db, folders, seenFolders)
  {}

  // ----- the end -----

  /** When only seen folders are left and all exist, every mapped object is in its place. */
  lemma StandingIsLinked(db: Db, folders: seq<Entry>, seenFolders: set<nat>)
    requires FoldersStand(db, folders, seenFolders)
    requires forall row :: row in db.rows && row.kind == FOLDER ==> row.id in seenFolders
    ensures AllLinked(db)
  {
    hide FoldersSettled, UniqueRows, Bounded;
    forall row | row in db.rows ensures Linked(db, row) {
      if row.kind == FOLDER {
        var e := SeenFolderScanned(db, folders, seenFolders, row);
      } else {
        assert FileLinked(db, row);
      }
    }
  }

  lemma FoldersStandAfterLoop(db: Db, settings: Settings, folders: seq<Entry>, p: Progress)
    requires LoopState(db, settings, folders, |folders|, p) && !Orphans(db, folders)
    ensures FoldersStand(p.db, folders, p.seen)
  {
    hide FoldersSettled, Tracks, Constraints;
    NoneLostYet(db, folders, |folders|, p);
  }

  lemma RestStands(p: Progress, settings: Settings, folders: seq<Entry>, files: seq<Entry>, s: Stages, r: Db)
    requires FolderOrder(folders) && FileList(folders, files) && FoldersStand(p.db, folders, p.seen)
    requires MoveFiles(FileMoves(p.db, files, p.clean), settings, StableMappings(p.db.rows, files, FILE), 0)
             == Some(s.fileMoves)
    requires ReconcileFiles(Progress(s.fileMoves.db, {}, s.fileMoves.clean, p.hits), settings, s.fileMoves.db.files,
                            s.fileMoves.scan, 0)
             == Some(s.files)
    requires s.kept == DropFiles(s.files.db, RowsOfKind(s.files.db.rows, FILE), s.files.seen)
    requires DropFolders(s.kept, Sort(RowsOfKind(s.kept.rows, FOLDER), ShallownessOf()), p.seen) == Some(r)
    ensures AllLinked(r)
  {
    hide FolderOrder, FileList, FoldersStand, MoveFiles, ReconcileFiles, DropFiles, DropFolders, AllLinked;
    var stable := StableMappings(p.db.rows, files, FILE);
    MoveFilesStand(FileMoves(p.db, files, p.clean), settings, stable, 0, folders, p.seen, s.fileMoves);
    MoveFilesOnFolders(FileMoves(p.db, files, p.clean), settings, stable, 0, s.fileMoves);
    var start := Progress(s.fileMoves.db, {}, s.fileMoves.clean, p.hits);
    ReconcileFilesStand(start, settings, s.fileMoves.db.files, folders, p.seen, files, s.fileMoves.scan, 0, s.files);
    DropFilesStand(s.files.db, RowsOfKind(s.files.db.rows, FILE), s.files.seen, folders, p.seen);
    DropFoldersStand(s.kept, folders, p.seen, r);
    StandingIsLinked(r, folders, p.seen);
  }

  /** With room for every scanned folder, and none of those kept taken along, a pass that returns
      leaves consistent tables, whatever files it had to reject. */
  lemma RejectionsKeepConsistent(db: Db, settings: Settings, scan: seq<Entry>)
    requires Consistent(db) && ValidScan(scan) && RoomForAll(db, settings, scan) && !OrphansFolder(db, scan)
    requires SyncProjection(db, settings, scan).Some?
    ensures Consistent(SyncProjection(db, settings, scan).value.db)
  {
    hide MoveFolders, ReconcileFolders, ValidScan, Complete, LoopState, FolderOrder, FileList, Orphans,
         FoldersMeetCycle, ReplacesCycle, MoveFiles, ReconcileFiles, DropFiles, DropFolders, ScanFolders, ScanFiles,
         AllLinked, UniqueRows, Distinct, Bounded, FoldersStand;
    var folders, moved, s := ScanFolders(scan), MovesOf(db, scan).value.db, StagesOf(db, settings, scan);
    ScanFoldersOrdered(scan);
    ScanFilesListed(scan);
    RoomAtStart(db, settings, scan);
    FolderLoopMeetsCycle(moved, settings, folders, 0, Progress(moved, {}, true, true));
    FoldersStandAfterLoop(moved, settings, folders, s.folders);
    RestStands(s.folders, settings, folders, ScanFiles(scan), s, SyncProjection(db, settings, scan).value.db);
    PassKeepsConstraints(db, settings, scan);
  }
}

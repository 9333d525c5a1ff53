/** The main result about a projection pass: when mappings, scan and database agree at its end. */
module SmbAgreement {
  import opened Wrappers
  import opened Text
  import opened Sorting
  import opened SmbTables
  import opened ParentChains
  import opened SmbSync
  import opened SmbScan
  import opened SmbSettling
  import opened SmbLinks
  import opened SmbFolders
  import opened SmbFiles
  import opened SmbOrphans
  import opened SmbAnchors

  /** The row maps the entry; the object is named after it, and a file has the scanned size. */
  ghost predicate Maps(db: Db, row: Row, e: Entry) {
    && row.kind == e.kind && row.path == e.path && row.ident == e.ident
    && (row.kind == FOLDER ==> row.id in db.folders && NamedAfter(db.folders[row.id].name, e.path))
    && (row.kind == FILE ==>
          row.id in db.files && db.files[row.id].size == e.size && db.files[row.id].name == BaseName(e.path))
  }

  /** Mappings are one-to-one with scanned entries (type, path, inode), and every mapped
      object exists with the folder mapped at its parent path as its database parent. */
  ghost predicate Agreement(db: Db, scan: seq<Entry>) {
    && UniqueRows(db.rows)
    && (forall e :: e in scan ==> IsMapped(db, e))
    && (forall row :: row in db.rows ==> IsScanned(db, row, scan))
    && AllLinked(db)
  }

  ghost predicate IsMapped(db: Db, e: Entry) {
    exists row :: row in db.rows && Maps(db, row, e)
  }

  ghost predicate IsScanned(db: Db, row: Row, scan: seq<Entry>) {
    exists e :: e in scan && Maps(db, row, e)
  }

  // ----- dropping what was not seen -----

  lemma DeleteUnseenFile(db: Db, id: nat, folders: seq<Entry>, seenFolders: set<nat>, files: seq<Entry>, seen: set<nat>)
    requires FolderOrder(folders) && FileList(folders, files) && id !in seen
    requires FileInvariant(db, folders, seenFolders, files, |files|, seen)
    ensures FileInvariant(DeleteFileObject(db, id), folders, seenFolders, files, |files|, seen)
  {
    var db' := DeleteFileObject(db, id);
    DeleteFileFrame(db, folders, |folders|, seenFolders, id);
    FrameKeepsSettled(db, db', folders, |folders|, seenFolders);
    assert FilesLinked(db') by { DeleteFileFilesLinked(db, id); }
    if seenFolders <= db.folders.Keys {
      forall j | 0 <= j < |files| ensures RowAt(db'.rows, files[j].path) == RowAt(db.rows, files[j].path) {
        assert FileSettled(db, files[j], seen);
        RemoveKeyElsewhere(db.rows, FILE, id, files[j].path);
      }
      FrameKeepsFiles(db, db', folders, seenFolders, files, |files|, seen);
    }
  }

  lemma {:induction false} DropFilesKeep(
    db: Db, pending: seq<Row>, folders: seq<Entry>, seenFolders: set<nat>, files: seq<Entry>, seen: set<nat>
  )
    requires FolderOrder(folders) && FileList(folders, files)
    requires FileInvariant(db, folders, seenFolders, files, |files|, seen)
    ensures var r := DropFiles(db, pending, seen);
            && FileInvariant(r, folders, seenFolders, files, |files|, seen) && r.folders == db.folders
            && (forall row :: row in r.rows ==> row in db.rows)
            && (forall row, p :: row in r.rows && p in pending && p.id !in seen ==> !IsKey(row, FILE, p.id))
    decreases |pending|
  {
    if pending != [] {
      var p := pending[0];
      if p.id in seen {
        DropFilesKeep(db, pending[1..], folders, seenFolders, files, seen);
      } else {
        DeleteUnseenFile(db, p.id, folders, seenFolders, files, seen);
        DropFilesKeep(DeleteFileObject(db, p.id), pending[1..], folders, seenFolders, files, seen);
      }
    }
  }

  /** A path that no scanned folder has, and no scanned file either when files are settled. */
  ghost predicate Off(path: string, folders: seq<Entry>, files: seq<Entry>, withFiles: bool) {
    && (forall i :: 0 <= i < |folders| ==> !SameName(folders[i].path, path))
    && (withFiles ==> forall j :: 0 <= j < |files| ==> !SameName(files[j].path, path))
  }

  lemma DeleteUnseenFolder(
    db: Db, row: Row, folders: seq<Entry>, seenFolders: set<nat>, files: seq<Entry>, seen: set<nat>
  )
    requires FolderOrder(folders) && FileList(folders, files) && row.id !in seenFolders
    requires FileInvariant(db, folders, seenFolders, files, |files|, seen)
    requires Off(row.path, folders, files, seenFolders <= db.folders.Keys)
    requires DeleteFolderObject(db, row).Some?
    ensures FileInvariant(DeleteFolderObject(db, row).value, folders, seenFolders, files, |files|, seen)
    ensures seenFolders <= DeleteFolderObject(db, row).value.folders.Keys <==> seenFolders <= db.folders.Keys
  {
    var db' := DeleteFolderObject(db, row).value;
    DeleteFolderFrame(db, folders, |folders|, seenFolders, row);
    FrameKeepsSettled(db, db', folders, |folders|, seenFolders);
    DeleteFolderFilesLinked(db, row);
    DeleteFolderBounded(db, row);
    if seenFolders <= db.folders.Keys {
      DeleteFolderFilesFrame(db, folders, seenFolders, files, |files|, seen, row);
      FrameKeepsFiles(db, db', folders, seenFolders, files, |files|, seen);
    }
  }

  lemma {:induction false} DropFoldersRows(db: Db, pending: seq<Row>, seenFolders: set<nat>, r: Db)
    requires DropFolders(db, pending, seenFolders) == Some(r)
    ensures forall row :: row in r.rows ==> row in db.rows
    ensures forall row, p :: row in r.rows && p in pending && p.id !in seenFolders ==> !SameName(row.path, p.path)
    decreases |pending|
  {
    if pending != [] {
      var p := pending[0];
      if p.id in seenFolders {
        DropFoldersRows(db, pending[1..], seenFolders, r);
      } else {
        DropFoldersRows(DeleteFolderObject(db, p).value, pending[1..], seenFolders, r);
      }
    }
  }

  lemma {:induction false} DropFoldersKeep(
    db: Db, pending: seq<Row>, folders: seq<Entry>, seenFolders: set<nat>, files: seq<Entry>, seen: set<nat>, r: Db
  )
    requires FolderOrder(folders) && FileList(folders, files)
    requires FileInvariant(db, folders, seenFolders, files, |files|, seen)
    requires forall p :: p in pending && p.id !in seenFolders ==>
             Off(p.path, folders, files, seenFolders <= db.folders.Keys)
    requires DropFolders(db, pending, seenFolders) == Some(r)
    ensures FileInvariant(r, folders, seenFolders, files, |files|, seen)
    ensures seenFolders <= r.folders.Keys <==> seenFolders <= db.folders.Keys
    decreases |pending|
  {
    if pending != [] {
      var p, rest := pending[0], pending[1..];
      assert forall x :: x in rest ==> x in pending;
      if p.id in seenFolders {
        DropFoldersKeep(db, rest, folders, seenFolders, files, seen, r);
      } else {
        assert p in pending;
        DeleteUnseenFolder(db, p, folders, seenFolders, files, seen);
        DropFoldersKeep(DeleteFolderObject(db, p).value, rest, folders, seenFolders, files, seen, r);
      }
    }
  }

  lemma UnseenOff(db: Db, row: Row, folders: seq<Entry>, seenFolders: set<nat>, files: seq<Entry>, seen: set<nat>)
    requires FileInvariant(db, folders, seenFolders, files, |files|, seen)
    requires row in db.rows && row.kind == FOLDER && row.id !in seenFolders
    ensures Off(row.path, folders, files, seenFolders <= db.folders.Keys)
  {
    assert forall i :: 0 <= i < |folders| ==> Settled(db.rows, folders[i], FOLDER, seenFolders);
    if seenFolders <= db.folders.Keys {
      assert forall j :: 0 <= j < |files| ==> FileSettled(db, files[j], seen);
    }
  }

  // ----- the end of a pass -----

  /** Every row that is left belongs to a seen object. */
  ghost predicate OnlySeen(db: Db, seenFolders: set<nat>, seenFiles: set<nat>) {
    forall row :: row in db.rows ==> row.id in (if row.kind == FOLDER then seenFolders else seenFiles)
  }

  lemma DropUnseenFolders(db: Db, folders: seq<Entry>, seenFolders: set<nat>, files: seq<Entry>, seen: set<nat>, r: Db)
    requires FolderOrder(folders) && FileList(folders, files)
    requires FileInvariant(db, folders, seenFolders, files, |files|, seen)
    requires DropFolders(db, Sort(RowsOfKind(db.rows, FOLDER), ShallownessOf()), seenFolders) == Some(r)
    ensures FileInvariant(r, folders, seenFolders, files, |files|, seen)
    ensures seenFolders <= r.folders.Keys <==> seenFolders <= db.folders.Keys
    ensures forall row :: row in r.rows ==> row in db.rows && (row.kind == FOLDER ==> row.id in seenFolders)
  {
    var pending := Sort(RowsOfKind(db.rows, FOLDER), ShallownessOf());
    SortMembers(RowsOfKind(db.rows, FOLDER), ShallownessOf());
    forall p | p in pending && p.id !in seenFolders
      ensures Off(p.path, folders, files, seenFolders <= db.folders.Keys)
    {
      UnseenOff(db, p, folders, seenFolders, files, seen);
    }
    DropFoldersKeep(db, pending, folders, seenFolders, files, seen, r);
    DropFoldersRows(db, pending, seenFolders, r);
    forall row | row in r.rows && row.kind == FOLDER ensures row.id in seenFolders {
      assert row in pending;
    }
  }

  lemma DropUnseenFiles(db: Db, folders: seq<Entry>, seenFolders: set<nat>, files: seq<Entry>, seen: set<nat>)
    requires FolderOrder(folders) && FileList(folders, files)
    requires FileInvariant(db, folders, seenFolders, files, |files|, seen)
    ensures var kept := DropFiles(db, RowsOfKind(db.rows, FILE), seen);
            && FileInvariant(kept, folders, seenFolders, files, |files|, seen) && kept.folders == db.folders
            && (forall row :: row in kept.rows && row.kind == FILE ==> row.id in seen)
  {
    var pending := RowsOfKind(db.rows, FILE);
    var kept := DropFiles(db, pending, seen);
    DropFilesKeep(db, pending, folders, seenFolders, files, seen);
    forall row | row in kept.rows && row.kind == FILE ensures row.id in seen {
      assert row in pending && IsKey(row, FILE, row.id);
    }
  }

  lemma DropUnseen(
    db: Db, folders: seq<Entry>, seenFolders: set<nat>, files: seq<Entry>, seen: set<nat>, kept: Db, r: Db
  )
    requires FolderOrder(folders) && FileList(folders, files)
    requires FileInvariant(db, folders, seenFolders, files, |files|, seen)
    requires kept == DropFiles(db, RowsOfKind(db.rows, FILE), seen)
    requires DropFolders(kept, Sort(RowsOfKind(kept.rows, FOLDER), ShallownessOf()), seenFolders) == Some(r)
    ensures FileInvariant(r, folders, seenFolders, files, |files|, seen)
    ensures seenFolders <= r.folders.Keys <==> seenFolders <= db.folders.Keys
    ensures OnlySeen(r, seenFolders, seen)
  {
    hide FileInvariant, FolderOrder, FileList;
    DropUnseenFiles(db, folders, seenFolders, files, seen);
    DropUnseenFolders(kept, folders, seenFolders, files, seen, r);
    SeenRowsRemain(kept, r, seenFolders, seen);
  }

  lemma SeenRowsRemain(kept: Db, r: Db, seenFolders: set<nat>, seen: set<nat>)
    requires forall row :: row in kept.rows && row.kind == FILE ==> row.id in seen
    requires forall row :: row in r.rows ==> row in kept.rows && (row.kind == FOLDER ==> row.id in seenFolders)
    ensures OnlySeen(r, seenFolders, seen)
  {}

  lemma SettledFoldersMapped(db: Db, folders: seq<Entry>, seenFolders: set<nat>, e: Entry)
    requires FoldersSettled(db, folders, |folders|, seenFolders) && seenFolders <= db.folders.Keys
    requires e in folders && e.kind == FOLDER
    ensures IsMapped(db, e)
  {
    var j :| 0 <= j < |folders| && folders[j] == e;
    assert Settled(db.rows, folders[j], FOLDER, seenFolders);
    assert Maps(db, RowAt(db.rows, e.path).value, e);
  }

  lemma SettledFilesMapped(db: Db, files: seq<Entry>, seen: set<nat>, e: Entry)
    requires FilesSettled(db, files, |files|, seen)
    requires e in files && e.kind == FILE
    ensures IsMapped(db, e)
  {
    var j :| 0 <= j < |files| && files[j] == e;
    assert FileSettled(db, files[j], seen);
    assert Maps(db, RowAt(db.rows, e.path).value, e);
  }

  lemma SeenFolderScanned(db: Db, folders: seq<Entry>, seenFolders: set<nat>, row: Row) returns (e: Entry)
    requires UniqueRows(db.rows) && FoldersSettled(db, folders, |folders|, seenFolders)
    requires row in db.rows && row.kind == FOLDER && row.id in seenFolders
    ensures e in folders && row.path == e.path && row.ident == e.ident
    ensures row.id in db.folders ==>
             FolderLinked(db.rows, db.folders, row) && NamedAfter(db.folders[row.id].name, e.path)
  {
    var j :| 0 <= j < |folders| && Holds(db.rows, folders[j], row.id);
    assert Settled(db.rows, folders[j], FOLDER, seenFolders);
    assert RowAt(db.rows, folders[j].path).value == row;
    e := folders[j];
  }

  lemma SeenFileScanned(db: Db, files: seq<Entry>, seen: set<nat>, row: Row) returns (e: Entry)
    requires UniqueRows(db.rows) && FilesSettled(db, files, |files|, seen)
    requires row in db.rows && row.kind == FILE && row.id in seen
    ensures e in files && row.path == e.path && row.ident == e.ident
    ensures Linked(db, row) && db.files[row.id].size == e.size && db.files[row.id].name == BaseName(e.path)
  {
    hide LookupParent, BaseName, SameName;
    var j :| 0 <= j < |files| && Holds(db.rows, files[j], row.id);
    assert FileSettled(db, files[j], seen);
    assert RowAt(db.rows, files[j].path).value == row;
    e := files[j];
  }

  lemma SettledRowAgrees(db: Db, scan: seq<Entry>, seenFolders: set<nat>, seen: set<nat>, row: Row)
    requires ValidScan(scan) && seenFolders <= db.folders.Keys
    requires FileInvariant(db, ScanFolders(scan), seenFolders, ScanFiles(scan), |ScanFiles(scan)|, seen)
    requires OnlySeen(db, seenFolders, seen) && row in db.rows
    ensures IsScanned(db, row, scan) && Linked(db, row)
  {
    ScanFoldersOrdered(scan);
    ScanFilesListed(scan);
    if row.kind == FOLDER {
      var e := SeenFolderScanned(db, ScanFolders(scan), seenFolders, row);
      assert Maps(db, row, e);
    } else {
      var e := SeenFileScanned(db, ScanFiles(scan), seen, row);
      assert Maps(db, row, e);
    }
  }

  lemma SettledEntryMapped(db: Db, scan: seq<Entry>, seenFolders: set<nat>, seen: set<nat>, e: Entry)
    requires ValidScan(scan) && seenFolders <= db.folders.Keys && e in scan
    requires FileInvariant(db, ScanFolders(scan), seenFolders, ScanFiles(scan), |ScanFiles(scan)|, seen)
    ensures IsMapped(db, e)
  {
    ScanFoldersOrdered(scan);
    ScanFilesListed(scan);
    if e.kind == FOLDER {
      SettledFoldersMapped(db, ScanFolders(scan), seenFolders, e);
    } else {
      SettledFilesMapped(db, ScanFiles(scan), seen, e);
    }
  }

  /** Agreement needs every seen folder to exist. */
  lemma AgreementNeedsFolders(db: Db, folders: seq<Entry>, seenFolders: set<nat>)
    requires FoldersSettled(db, folders, |folders|, seenFolders) && AllLinked(db)
    ensures seenFolders <= db.folders.Keys
  {
    forall id | id in seenFolders ensures id in db.folders {
      var j :| 0 <= j < |folders| && Holds(db.rows, folders[j], id);
      assert Settled(db.rows, folders[j], FOLDER, seenFolders);
      assert Linked(db, RowAt(db.rows, folders[j].path).value);
    }
  }

  lemma InvariantParts(db: Db, folders: seq<Entry>, seenFolders: set<nat>, files: seq<Entry>, seen: set<nat>)
    requires FileInvariant(db, folders, seenFolders, files, |files|, seen)
    ensures UniqueRows(db.rows) && FoldersSettled(db, folders, |folders|, seenFolders)
  {}

  lemma SettledAgrees(db: Db, scan: seq<Entry>, seenFolders: set<nat>, seen: set<nat>)
    requires ValidScan(scan)
    requires FileInvariant(db, ScanFolders(scan), seenFolders, ScanFiles(scan), |ScanFiles(scan)|, seen)
    requires OnlySeen(db, seenFolders, seen)
    ensures Agreement(db, scan) <==> seenFolders <= db.folders.Keys
  {
    hide FileInvariant, FoldersSettled, Linked, IsMapped, IsScanned, Maps, OnlySeen, ValidScan, UniqueRows;
    InvariantParts(db, ScanFolders(scan), seenFolders, ScanFiles(scan), seen);
    if seenFolders <= db.folders.Keys {
      forall e | e in scan ensures IsMapped(db, e) {
        SettledEntryMapped(db, scan, seenFolders, seen, e);
      }
      forall row | row in db.rows ensures IsScanned(db, row, scan) && Linked(db, row) {
        SettledRowAgrees(db, scan, seenFolders, seen, row);
      }
    }
    if Agreement(db, scan) {
      AgreementNeedsFolders(db, ScanFolders(scan), seenFolders);
    }
  }

  /** The tables a pass may start from: unique keys and paths, fresh identifiers, and every
      mapped object present under the folder mapped at its parent path. */
  ghost predicate Consistent(db: Db) {
    UniqueRows(db.rows) && Distinct(db.rows) && Bounded(db) && AllLinked(db)
  }

  /** After the folder loops of a clean pass every scanned folder is settled. */
  lemma FolderStage(db: Db, settings: Settings, folders: seq<Entry>, stable: set<nat>, p: Progress)
    requires FolderOrder(folders) && Consistent(db)
    requires MoveFolders(db, stable, folders, 0, false).Some?
    requires ReconcileFolders(Progress(MoveFolders(db, stable, folders, 0, false).value.db, {}, true, true), settings,
                              folders, 0) == Some(p)
    requires p.clean
    ensures FolderInvariant(p, folders, |folders|)
  {
    AllLinkedFiles(db);
    MoveFoldersKeep(db, stable, folders, 0, false);
    ReconcileFoldersSettle(Progress(MoveFolders(db, stable, folders, 0, false).value.db, {}, true, true), settings,
                           folders, 0);
  }

  /** After the file loops every scanned file is settled, provided the seen folders exist. */
  lemma FileStage(
    db: Db, seenFolders: set<nat>, hits: bool, settings: Settings, folders: seq<Entry>, files: seq<Entry>,
    stable: set<nat>, m: FileMoves, q: Progress
  )
    requires FolderOrder(folders) && FileList(folders, files) && TablesReady(db, folders, seenFolders)
    requires MoveFiles(FileMoves(db, files, true), settings, stable, 0) == Some(m)
    requires ReconcileFiles(Progress(m.db, {}, m.clean, hits), settings, m.db.files, m.scan, 0) == Some(q)
    requires q.clean
    ensures FileInvariant(q.db, folders, seenFolders, files, |files|, q.seen)
    ensures seenFolders <= q.db.folders.Keys <==> seenFolders <= db.folders.Keys
  {
    ReconcileFilesClean(Progress(m.db, {}, m.clean, hits), settings, m.db.files, m.scan, 0);
    MoveFilesKeep(FileMoves(db, files, true), settings, stable, 0, folders, seenFolders);
    ReconcileFilesSettle(Progress(m.db, {}, m.clean, hits), settings, m.db.files, folders, seenFolders, files, 0);
  }

  /** A clean pass was clean after its folder loops already. */
  lemma CleanFromTheStart(
    p: Progress, settings: Settings, files: seq<Entry>, stable: set<nat>, m: FileMoves, q: Progress
  )
    requires MoveFiles(FileMoves(p.db, files, p.clean), settings, stable, 0) == Some(m)
    requires ReconcileFiles(Progress(m.db, {}, m.clean, p.hits), settings, m.db.files, m.scan, 0) == Some(q)
    requires q.clean
    ensures p.clean
  {
    ReconcileFilesClean(Progress(m.db, {}, m.clean, p.hits), settings, m.db.files, m.scan, 0);
    MoveFilesClean(FileMoves(p.db, files, p.clean), settings, stable, 0);
  }

  /** Agreement fails only through a kept folder that is gone. */
  lemma AgreesWhenFound(db: Db, settings: Settings, scan: seq<Entry>)
    requires ValidScan(scan) && Consistent(db)
    requires SyncProjection(db, settings, scan).Some? && SyncProjection(db, settings, scan).value.clean
    ensures var pass := SyncProjection(db, settings, scan).value;
            Agreement(pass.db, scan) <==> pass.hits
  {
    var folders, files := ScanFolders(scan), ScanFiles(scan);
    ScanFoldersOrdered(scan);
    ScanFilesListed(scan);
    var stable := StableMappings(db.rows, folders, FOLDER);
    var moves := MoveFolders(db, stable, folders, 0, false).value;
    var p := ReconcileFolders(Progress(moves.db, {}, true, true), settings, folders, 0).value;
    var stableFiles := StableMappings(p.db.rows, files, FILE);
    var m := MoveFiles(FileMoves(p.db, files, p.clean), settings, stableFiles, 0).value;
    var q := ReconcileFiles(Progress(m.db, {}, m.clean, p.hits), settings, m.db.files, m.scan, 0).value;
    var kept := DropFiles(q.db, RowsOfKind(q.db.rows, FILE), q.seen);
    var pass := SyncProjection(db, settings, scan).value;
    CleanFromTheStart(p, settings, files, stableFiles, m, q);
    FolderStage(db, settings, folders, stable, p);
    FileStage(p.db, p.seen, p.hits, settings, folders, files, stableFiles, m, q);
    DropUnseen(q.db, folders, p.seen, files, q.seen, kept, pass.db);
    SettledAgrees(pass.db, scan, p.seen, q.seen);
  }

  lemma CleanAfterFolders(db: Db, settings: Settings, scan: seq<Entry>, p: Progress)
    requires SyncProjection(db, settings, scan).Some? && SyncProjection(db, settings, scan).value.clean
    requires ReconcileFolders(Progress(MovesOf(db, scan).value.db, {}, true, true), settings, ScanFolders(scan), 0)
             == Some(p)
    ensures p.clean && p.hits == SyncProjection(db, settings, scan).value.hits
  {
    hide MoveFolders, ReconcileFolders, MoveFiles, ReconcileFiles;
    var files := ScanFiles(scan);
    var stableFiles := StableMappings(p.db.rows, files, FILE);
    var m := MoveFiles(FileMoves(p.db, files, p.clean), settings, stableFiles, 0).value;
    var q := ReconcileFiles(Progress(m.db, {}, m.clean, p.hits), settings, m.db.files, m.scan, 0).value;
    CleanFromTheStart(p, settings, files, stableFiles, m, q);
  }

  /** The first loop of a pass. */
  function MovesOf(db: Db, scan: seq<Entry>): Option<FolderMoves> {
    MoveFolders(db, StableMappings(db.rows, ScanFolders(scan), FOLDER), ScanFolders(scan), 0, false)
  }

  lemma ConsistentIsComplete(db: Db)
    requires Consistent(db)
    ensures Complete(db) && MoveInvariant(db)
  {
    AllLinkedFiles(db);
    forall row | row in db.rows && row.kind == FOLDER ensures row.id in db.folders {
      assert Linked(db, row);
    }
  }

  /** A pass that returns without a rejection ends in agreement if and only if no folder that it
      keeps is taken along by the replacement of another, which db and scan alone decide. */
  lemma CleanPassAgrees(db: Db, settings: Settings, scan: seq<Entry>)
    requires ValidScan(scan) && Consistent(db)
    requires SyncProjection(db, settings, scan).Some? && SyncProjection(db, settings, scan).value.clean
    ensures Agreement(SyncProjection(db, settings, scan).value.db, scan) <==> !OrphansFolder(db, scan)
  {
    hide SyncProjection, MoveFolders, ReconcileFolders, Agreement, ValidScan, Consistent, Complete, MoveInvariant,
         Orphans, FolderOrder;
    var folders := ScanFolders(scan);
    var stable := StableMappings(db.rows, folders, FOLDER);
    ScanFoldersOrdered(scan);
    AgreesWhenFound(db, settings, scan);
    ConsistentIsComplete(db);
    PassMoves(db, settings, scan);
    MoveFoldersKeep(db, stable, folders, 0, false);
    MoveFoldersComplete(db, stable, folders, 0, false);
    MovableParts(MovesOf(db, scan).value.db);
    var p := ReconcileFolders(Progress(MovesOf(db, scan).value.db, {}, true, true), settings, folders, 0).value;
    CleanAfterFolders(db, settings, scan, p);
    HitsUnlessOrphaned(MovesOf(db, scan).value.db, settings, folders);
  }

  lemma PassMoves(db: Db, settings: Settings, scan: seq<Entry>)
    requires SyncProjection(db, settings, scan).Some?
    ensures MovesOf(db, scan).Some? && MovesOf(db, scan).value.nested == SyncProjection(db, settings, scan).value.nested
    ensures ReconcileFolders(Progress(MovesOf(db, scan).value.db, {}, true, true), settings, ScanFolders(scan), 0).Some?
  {
    hide MoveFolders, ReconcileFolders, MoveFiles, ReconcileFiles;
  }

  lemma AnchorsAtStart(rows: seq<Row>, scan: seq<Entry>)
    requires Anchored(rows, scan)
    ensures SameObjects(rows, rows) && AnchorsHold(rows, scan, rows)
  {}

  /** Where moved folders only lie below folders that are in their places or new, the moves keep
      every mapped object in the folder mapped at its parent path. */
  lemma AnchoredMovesKeepLinks(db: Db, scan: seq<Entry>)
    requires ValidScan(scan) && Consistent(db) && MovesAnchored(db, scan) && MovesOf(db, scan).Some?
    ensures var moved := MovesOf(db, scan).value.db;
            LinkInvariant(moved) && UniqueRows(moved.rows) && Distinct(moved.rows) && Bounded(moved) && AllLinked(moved)
  {
    hide MoveFolders, ValidScan, MoveInvariant, FolderOrder, Anchored, AnchorsHold, SameObjects;
    var folders := ScanFolders(scan);
    var stable := StableMappings(db.rows, folders, FOLDER);
    ScanFoldersOrdered(scan);
    ConsistentIsComplete(db);
    AnchorsAtStart(db.rows, folders);
    AnchoredMovesAreNotNested(db.rows, db, folders, 0);
    MoveFoldersKeep(db, stable, folders, 0, false);
    MoveFoldersKeepLinks(db, stable, folders, 0, false);
    MovableParts(MovesOf(db, scan).value.db);
  }

  /** So every folder that the pass keeps is found. */
  lemma AnchoredPassFindsFolders(db: Db, settings: Settings, scan: seq<Entry>)
    requires ValidScan(scan) && Consistent(db) && MovesAnchored(db, scan)
    requires SyncProjection(db, settings, scan).Some?
    ensures SyncProjection(db, settings, scan).value.hits
  {
    hide SyncProjection, MoveFolders, ReconcileFolders, ValidScan, Consistent, MovesAnchored, LinkInvariant;
    PassMoves(db, settings, scan);
    AnchoredMovesKeepLinks(db, scan);
    ReconcileFoldersHit(Progress(MovesOf(db, scan).value.db, {}, true, true), settings, ScanFolders(scan), 0);
    PassHits(db, settings, scan);
  }

  lemma PassHits(db: Db, settings: Settings, scan: seq<Entry>)
    requires SyncProjection(db, settings, scan).Some?
    ensures ReconcileFolders(Progress(MovesOf(db, scan).value.db, {}, true, true), settings, ScanFolders(scan), 0).Some?
    ensures SyncProjection(db, settings, scan).value.hits
            == ReconcileFolders(Progress(MovesOf(db, scan).value.db, {}, true, true), settings, ScanFolders(scan),
                                0).value.hits
  {
    hide MoveFolders, ReconcileFolders, MoveFiles, ReconcileFiles;
  }

  /** So such a pass ends in agreement. */
  lemma AnchoredPassAgrees(db: Db, settings: Settings, scan: seq<Entry>)
    requires ValidScan(scan) && Consistent(db) && MovesAnchored(db, scan)
    requires SyncProjection(db, settings, scan).Some? && SyncProjection(db, settings, scan).value.clean
    ensures Agreement(SyncProjection(db, settings, scan).value.db, scan) && !OrphansFolder(db, scan)
  {
    hide SyncProjection, Agreement, ValidScan, Consistent, MovesAnchored, OrphansFolder;
    AnchoredPassFindsFolders(db, settings, scan);
    AgreesWhenFound(db, settings, scan);
    CleanPassAgrees(db, settings, scan);
  }

  // ----- the mapped folders form a forest -----

  lemma {:induction false} ChainReachesRoot(db: Db, row: Row)
    requires UniqueRows(db.rows) && AllLinked(db) && row in db.rows && row.kind == FOLDER
    ensures Climb(db.folders, Some(row.id), Depth(row.path)) == None
    ensures forall n :: 0 < n ==> Climb(db.folders, Some(row.id), n) != Some(row.id)
    decreases |row.path|
  {
    assert Linked(db, row);
    var parent := db.folders[row.id].parent;
    if TopLevel(row.path) {
      assert parent == None;
      SlashesPrefix(row.path, 0);
      assert Depth(row.path) == 1;
      forall n | 0 < n ensures Climb(db.folders, Some(row.id), n) != Some(row.id) {
        assert Climb(db.folders, Some(row.id), n) == Climb(db.folders, None, n - 1);
      }
    } else {
      var g := RowAt(db.rows, Parent(row.path)).value;
      assert |g.path| == |Lower(g.path)| == |Lower(Parent(row.path))| == |Parent(row.path)|;
      ChainReachesRoot(db, g);
      ParentIsShallower(row.path);
      SameDepth(g.path, Parent(row.path));
      forall n | 0 < n ensures Climb(db.folders, Some(row.id), n) != Some(row.id) {
        AncestorsAreShorter(db, g, n - 1);
      }
    }
  }

  /** Ancestors of a mapped folder are mapped, at paths no longer than its own. */
  lemma {:induction false} AncestorsAreShorter(db: Db, row: Row, n: nat)
    requires UniqueRows(db.rows) && AllLinked(db) && row in db.rows && row.kind == FOLDER
    ensures var up := Climb(db.folders, Some(row.id), n);
            up.Some? ==> forall r :: r in db.rows && r.kind == FOLDER && r.id == up.value ==> |r.path| <= |row.path|
    decreases n
  {
    assert Linked(db, row);
    if n > 0 {
      if TopLevel(row.path) {
        assert Climb(db.folders, Some(row.id), n) == Climb(db.folders, None, n - 1);
      } else {
        var g := RowAt(db.rows, Parent(row.path)).value;
        assert |g.path| == |Lower(g.path)| == |Lower(Parent(row.path))| == |Parent(row.path)|;
        AncestorsAreShorter(db, g, n - 1);
      }
    }
  }

  lemma {:induction false} SameDepth(p: string, q: string)
    requires SameName(p, q)
    ensures Depth(p) == Depth(q)
    decreases |p|
  {
    assert |Lower(p)| == |Lower(q)|;
    if p != "" {
      var n := |p| - 1;
      SlashAt(p, q, n);
      SameNameSlice(p, q, 0, n);
      SameDepth(p[..n], q[..n]);
    }
  }

  /** After a pass in agreement no mapped folder is its own ancestor, and each is as many
      steps from the root as its path has components. */
  lemma AgreementIsForest(db: Db, scan: seq<Entry>, row: Row)
    requires Agreement(db, scan) && row in db.rows && row.kind == FOLDER
    ensures Climb(db.folders, Some(row.id), Depth(row.path)) == None
    ensures forall n :: 0 < n ==> Climb(db.folders, Some(row.id), n) != Some(row.id)
  {
    ChainReachesRoot(db, row);
  }
}

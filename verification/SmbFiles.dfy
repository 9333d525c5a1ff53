/** The file loops of a pass: they settle every scanned file and disturb no settled folder. */
module SmbFiles {
  import opened Wrappers
  import opened Text
  import opened SmbTables
  import opened SmbSync
  import opened SmbScan
  import opened SmbSettling
  import opened SmbLinks
  import opened SmbFolders

  /** All folders are settled, the tables are consistent. */
  ghost predicate TablesReady(db: Db, folders: seq<Entry>, seen: set<nat>) {
    && UniqueRows(db.rows) && Bounded(db) && FilesLinked(db)
    && FoldersSettled(db, folders, |folders|, seen)
  }

  /** The file's row, its database folder and its recorded size are those of the entry. */
  ghost predicate FileSettled(db: Db, e: Entry, seen: set<nat>) {
    && Settled(db.rows, e, FILE, seen)
    && var id := RowAt(db.rows, e.path).value.id;
       && id in db.files
       && LookupParent(db.rows, e.path) == FoundParent(db.files[id].folder)
       && db.files[id].size == e.size && db.files[id].name == BaseName(e.path)
  }

  ghost predicate FilesSettled(db: Db, files: seq<Entry>, k: nat, seen: set<nat>) {
    && k <= |files|
    && (forall j :: 0 <= j < k ==> FileSettled(db, files[j], seen))
    && (forall id :: id in seen ==> exists j :: 0 <= j < k && Holds(db.rows, files[j], id))
  }

  ghost predicate FilesFrame(db: Db, db': Db, files: seq<Entry>, k: nat, seen: set<nat>)
    requires k <= |files|
  {
    && (forall j :: 0 <= j < k ==> RowAt(db'.rows, files[j].path) == RowAt(db.rows, files[j].path))
    && (forall id :: id in seen && id in db.files ==>
          id in db'.files && db'.files[id] == db.files[id])
  }

  lemma FrameKeepsFiles(
    db: Db, db': Db, folders: seq<Entry>, seenFolders: set<nat>, files: seq<Entry>, k: nat, seen: set<nat>
  )
    requires FolderOrder(folders) && FileList(folders, files) && k <= |files|
    requires FoldersFrame(db, db', folders, |folders|, seenFolders)
    requires FilesSettled(db, files, k, seen) && FilesFrame(db, db', files, k, seen)
    ensures FilesSettled(db', files, k, seen)
  {
    hide FolderOrder, LookupParent, BaseName, SameName;
    forall j | 0 <= j < k ensures FileSettled(db', files[j], seen) {
      assert FileSettled(db, files[j], seen);
      assert !TopLevel(files[j].path) ==> ParentListed(folders, files[j].path);
      ParentStable(db.rows, db'.rows, folders, |folders|, files[j].path);
    }
    forall id | id in seen ensures exists j :: 0 <= j < k && Holds(db'.rows, files[j], id) {
      var j :| 0 <= j < k && Holds(db.rows, files[j], id);
      assert Holds(db'.rows, files[j], id);
    }
  }

  lemma ListedParent(db: Db, folders: seq<Entry>, seenFolders: set<nat>, files: seq<Entry>, k: nat)
    requires FileList(folders, files) && k < |files| && FoldersSettled(db, folders, |folders|, seenFolders)
    ensures var parent := LookupParent(db.rows, files[k].path);
            && parent.FoundParent?
            && (TopLevel(files[k].path) ==> parent.folder == None)
            && (!TopLevel(files[k].path) ==> parent.folder.Some? && parent.folder.value in seenFolders)
            && FolderOfFile(db.rows, files[k].path) == parent.folder
  {
    assert !TopLevel(files[k].path) ==> ParentListed(folders, files[k].path);
    SettledParent(db, folders, |folders|, seenFolders, files[k].path);
  }

  // ----- updating a mapped file -----

  /** One file's mapping was rewritten, and its folder is the one mapped at the entry's parent path. */
  ghost predicate FileRelinked(db: Db, db': Db, row: Row, e: Entry, ident: Identity) {
    && Relocate(db.rows, FILE, row.id, e.path, ident) == Some(db'.rows)
    && db'.folders == db.folders && db'.nextId == db.nextId
    && db'.files.Keys == db.files.Keys
    && (forall id :: id in db.files && id != row.id ==> db'.files[id] == db.files[id])
    && (row.id in db.files ==> LookupParent(db.rows, e.path) == FoundParent(db'.files[row.id].folder))
  }

  /** The tables after one UPDATE of files and one of the mapping. */
  ghost predicate FileUpdated(db: Db, db': Db, row: Row, e: Entry) {
    && FileRelinked(db, db', row, e, e.ident)
    && (row.id in db.files ==> db'.files[row.id].size == e.size && db'.files[row.id].name == BaseName(e.path))
  }

  lemma RelinkedLinked(db: Db, db': Db, row: Row, e: Entry, ident: Identity)
    requires UniqueRows(db.rows) && FilesLinked(db) && FileRelinked(db, db', row, e, ident)
    requires row in db.rows && row.kind == FILE && LookupParent(db.rows, e.path).FoundParent?
    requires row.id in db.files || SameName(row.path, e.path)
    ensures FilesLinked(db')
  {
    RelocateMembers(db.rows, FILE, row.id, e.path, ident);
    forall r | r in db'.rows && r.kind == FILE ensures FileLinked(db', r) {
      if !TopLevel(r.path) && RowAt(db.rows, Parent(r.path)).Some?
          && RowAt(db.rows, Parent(r.path)).value.kind == FOLDER {
        RelocateElsewhere(db.rows, FILE, row.id, e.path, ident, Parent(r.path));
      }
      if IsKey(r, FILE, row.id) {
        assert r == Row(FILE, row.id, e.path, ident);
        if row.id !in db.files {
          assert FileLinked(db, row);
          SameParent(row.path, e.path);
          RowAtSameName(db.rows, Parent(row.path), Parent(e.path));
        }
      } else {
        assert r in db.rows && FileLinked(db, r);
      }
    }
  }

  lemma RelinkedBounded(db: Db, db': Db, row: Row, e: Entry, ident: Identity)
    requires UniqueRows(db.rows) && Bounded(db) && FileRelinked(db, db', row, e, ident) && row in db.rows
    ensures Bounded(db')
  {
    RelocateMembers(db.rows, FILE, row.id, e.path, ident);
    forall r | r in db'.rows ensures r.id < db'.nextId {
      if IsKey(r, FILE, row.id) { assert r.id == row.id; }
    }
  }

  lemma RelinkedReady(
    db: Db, db': Db, folders: seq<Entry>, seenFolders: set<nat>, row: Row, e: Entry, ident: Identity
  )
    requires FolderOrder(folders) && TablesReady(db, folders, seenFolders) && FileRelinked(db, db', row, e, ident)
    requires row in db.rows && row.kind == FILE && LookupParent(db.rows, e.path).FoundParent?
    requires row.id in db.files || SameName(row.path, e.path)
    ensures TablesReady(db', folders, seenFolders) && FoldersFrame(db, db', folders, |folders|, seenFolders)
  {
    hide FolderOrder, FoldersSettled, FoldersFrame;
    RelocateFileFrame(db, db', folders, |folders|, seenFolders, row.id, e.path, ident);
    assert FilesLinked(db') by { RelinkedLinked(db, db', row, e, ident); }
    assert Bounded(db') by { RelinkedBounded(db, db', row, e, ident); }
    RelocateMembers(db.rows, FILE, row.id, e.path, ident);
    FrameKeepsSettled(db, db', folders, |folders|, seenFolders);
  }

  // ----- file moves -----

  lemma MoveFileShape(db: Db, settings: Settings, row: Row, e: Entry)
    requires MoveFileFromSmb(db, settings, row, e).Some? && MoveFileFromSmb(db, settings, row, e).value.clean
    ensures var r := MoveFileFromSmb(db, settings, row, e).value;
            && r.size == e.size
            && (!r.moved ==> r.db == db)
            && (r.moved ==>
                FileUpdated(db, r.db, row, e) && row.id in db.files && LookupParent(db.rows, e.path).FoundParent?)
  {}

  lemma {:induction false} MoveFilesClean(m: FileMoves, settings: Settings, stable: set<nat>, k: nat)
    requires k <= |m.scan|
    requires MoveFiles(m, settings, stable, k).Some? && MoveFiles(m, settings, stable, k).value.clean
    ensures m.clean
    decreases |m.scan| - k
  {
    if k < |m.scan| {
      var moved := LastWithIdentity(m.db.rows, FILE, m.scan[k].ident);
      if !WantsMove(moved, stable, m.scan[k]) {
        MoveFilesClean(m, settings, stable, k + 1);
      } else {
        var r := MoveFileFromSmb(m.db, settings, moved.value, m.scan[k]).value;
        MoveFilesClean(FileMoves(r.db, m.scan[k := m.scan[k].(size := r.size)], m.clean && r.clean), settings, stable,
                       k + 1);
      }
    }
  }

  lemma {:induction false} MoveFilesKeep(
    m: FileMoves, settings: Settings, stable: set<nat>, k: nat, folders: seq<Entry>, seenFolders: set<nat>
  )
    requires FolderOrder(folders) && k <= |m.scan| && TablesReady(m.db, folders, seenFolders)
    requires MoveFiles(m, settings, stable, k).Some? && MoveFiles(m, settings, stable, k).value.clean
    ensures var r := MoveFiles(m, settings, stable, k).value;
            && r.scan == m.scan && TablesReady(r.db, folders, seenFolders)
            && (seenFolders <= r.db.folders.Keys <==> seenFolders <= m.db.folders.Keys)
    decreases |m.scan| - k
  {
    hide TablesReady, FolderOrder, MoveFileFromSmb, FileRelinked;
    if k < |m.scan| {
      var moved := LastWithIdentity(m.db.rows, FILE, m.scan[k].ident);
      if !WantsMove(moved, stable, m.scan[k]) {
        MoveFilesKeep(m, settings, stable, k + 1, folders, seenFolders);
      } else {
        var e := m.scan[k];
        var r := MoveFileFromSmb(m.db, settings, moved.value, e).value;
        var next := FileMoves(r.db, m.scan[k := e.(size := r.size)], m.clean && r.clean);
        MoveFilesClean(next, settings, stable, k + 1);
        MoveFileShape(m.db, settings, moved.value, e);
        assert next.scan == m.scan;
        if r.moved {
          RelinkedReady(m.db, r.db, folders, seenFolders, moved.value, e, e.ident);
        }
        MoveFilesKeep(next, settings, stable, k + 1, folders, seenFolders);
      }
    }
  }

  // ----- settling one more file -----

  ghost predicate FileInvariant(
    db: Db, folders: seq<Entry>, seenFolders: set<nat>, files: seq<Entry>, k: nat, seen: set<nat>
  ) {
    && TablesReady(db, folders, seenFolders)
    && (seenFolders <= db.folders.Keys ==> FilesSettled(db, files, k, seen))
  }

  lemma ExtendFiles(db: Db, files: seq<Entry>, k: nat, seen: set<nat>, id: nat)
    requires k < |files| && FilesSettled(db, files, k, seen)
    requires FileSettled(db, files[k], {id})
    ensures FilesSettled(db, files, k + 1, seen + {id})
  {
    var seen' := seen + {id};
    forall j | 0 <= j < k + 1 ensures FileSettled(db, files[j], seen') {
      if j < k { assert FileSettled(db, files[j], seen); }
    }
    forall x | x in seen' ensures exists j :: 0 <= j < k + 1 && Holds(db.rows, files[j], x) {
      if x in seen {
        var j :| 0 <= j < k && Holds(db.rows, files[j], x);
        assert 0 <= j < k + 1;
      } else {
        assert Holds(db.rows, files[k], x);
      }
    }
  }

  /** When every seen folder exists, a file mapped at a scanned path exists too. */
  lemma MappedFileExists(db: Db, folders: seq<Entry>, seenFolders: set<nat>, files: seq<Entry>, k: nat, row: Row)
    requires FileList(folders, files) && k < |files| && TablesReady(db, folders, seenFolders)
    requires seenFolders <= db.folders.Keys
    requires RowAt(db.rows, files[k].path) == Some(row) && row.kind == FILE
    ensures row.id in db.files
  {
    ListedParent(db, folders, seenFolders, files, k);
    assert FileLinked(db, row);
    SameParent(row.path, files[k].path);
    RowAtSameName(db.rows, Parent(row.path), Parent(files[k].path));
  }

  /** The rows of two scanned files are two rows. */
  lemma OtherFile(rows: seq<Row>, files: seq<Entry>, j: nat, k: nat, row: Row)
    requires UniqueRows(rows) && j < k < |files| && PathsDistinct(files)
    requires RowAt(rows, files[k].path) == Some(row) && row.kind == FILE
    requires RowAt(rows, files[j].path).Some?
    ensures !IsKey(RowAt(rows, files[j].path).value, FILE, row.id)
  {
    assert !SameName(files[j].path, files[k].path);
  }

  lemma FileUpdatedFrame(db: Db, db': Db, files: seq<Entry>, k: nat, seen: set<nat>, row: Row)
    requires UniqueRows(db.rows) && FilesSettled(db, files, k, seen) && k < |files| && PathsDistinct(files)
    requires RowAt(db.rows, files[k].path) == Some(row) && row.kind == FILE
    requires FileUpdated(db, db', row, files[k])
    ensures FilesFrame(db, db', files, k, seen)
  {
    hide LookupParent, BaseName, Relocate, UniqueRows, SameName, PathsDistinct;
    forall j | 0 <= j < k ensures RowAt(db'.rows, files[j].path) == RowAt(db.rows, files[j].path) {
      assert FileSettled(db, files[j], seen);
      OtherFile(db.rows, files, j, k, row);
      RelocateElsewhere(db.rows, FILE, row.id, files[k].path, files[k].ident, files[j].path);
    }
    forall id | id in seen ensures id != row.id {
      var j :| 0 <= j < k && Holds(db.rows, files[j], id);
      assert FileSettled(db, files[j], seen);
      OtherFile(db.rows, files, j, k, row);
    }
  }

  lemma FileUpdatedSettles(
    db: Db, db': Db, folders: seq<Entry>, seenFolders: set<nat>, files: seq<Entry>, k: nat, seen: set<nat>, row: Row
  )
    requires FolderOrder(folders) && FileList(folders, files) && k < |files|
    requires FileInvariant(db, folders, seenFolders, files, k, seen)
    requires RowAt(db.rows, files[k].path) == Some(row) && row.kind == FILE
    requires FileUpdated(db, db', row, files[k])
    ensures FileInvariant(db', folders, seenFolders, files, k + 1, seen + {row.id})
    ensures seenFolders <= db'.folders.Keys <==> seenFolders <= db.folders.Keys
  {
    var e := files[k];
    ListedParent(db, folders, seenFolders, files, k);
    RelinkedReady(db, db', folders, seenFolders, row, e, e.ident);
    if seenFolders <= db.folders.Keys {
      MappedFileExists(db, folders, seenFolders, files, k, row);
      FileUpdatedFrame(db, db', files, k, seen, row);
      FrameKeepsFiles(db, db', folders, seenFolders, files, k, seen);
      RelocatedRow(db.rows, row, e.path, e.ident);
      assert !TopLevel(e.path) ==> ParentListed(folders, e.path);
      ParentStable(db.rows, db'.rows, folders, |folders|, e.path);
      ExtendFiles(db', files, k, seen, row.id);
    }
  }

  // ----- importing a file -----

  ghost predicate FileImported(db: Db, db': Db, e: Entry) {
    && db'.rows == db.rows + [Row(FILE, db.nextId, e.path, e.ident)]
    && db'.folders == db.folders && db'.nextId == db.nextId + 1
    && db'.files.Keys == db.files.Keys + {db.nextId}
    && (forall id :: id in db.files && id != db.nextId ==> db'.files[id] == db.files[id])
    && LookupParent(db.rows, e.path) == FoundParent(db'.files[db.nextId].folder)
    && db'.files[db.nextId].size == e.size && db'.files[db.nextId].name == BaseName(e.path)
  }

  lemma FileImportedRows(db: Db, db': Db, e: Entry, at: string)
    requires UniqueRows(db.rows) && Bounded(db) && FileImported(db, db', e) && RowAt(db.rows, e.path).None?
    ensures UniqueRows(db'.rows)
    ensures RowAt(db'.rows, e.path) == Some(Row(FILE, db.nextId, e.path, e.ident))
    ensures RowAt(db.rows, at).Some? ==> RowAt(db'.rows, at) == RowAt(db.rows, at)
  {
    AppendRow(db.rows, Row(FILE, db.nextId, e.path, e.ident), at);
    if SameName(e.path, at) {
      RowAtSameName(db.rows, e.path, at);
    }
  }

  lemma FileImportedLinked(db: Db, db': Db, e: Entry)
    requires UniqueRows(db.rows) && Bounded(db) && FilesLinked(db) && FileImported(db, db', e)
    requires RowAt(db.rows, e.path).None?
    ensures FilesLinked(db')
  {
    forall r | r in db'.rows && r.kind == FILE ensures FileLinked(db', r) {
      if r in db.rows {
        assert FileLinked(db, r);
      } else {
        assert r == Row(FILE, db.nextId, e.path, e.ident);
      }
      if !TopLevel(r.path) {
        FileImportedRows(db, db', e, Parent(r.path));
      }
    }
  }

  lemma FileImportedReady(db: Db, db': Db, folders: seq<Entry>, seenFolders: set<nat>, e: Entry)
    requires FolderOrder(folders) && TablesReady(db, folders, seenFolders) && FileImported(db, db', e)
    requires RowAt(db.rows, e.path).None?
    ensures TablesReady(db', folders, seenFolders) && FoldersFrame(db, db', folders, |folders|, seenFolders)
  {
    hide NamedAfter, BaseName;
    FileImportedRows(db, db', e, e.path);
    assert FilesLinked(db') by { FileImportedLinked(db, db', e); }
    forall j | 0 <= j < |folders| ensures RowAt(db'.rows, folders[j].path) == RowAt(db.rows, folders[j].path) {
      assert Settled(db.rows, folders[j], FOLDER, seenFolders);
      FileImportedRows(db, db', e, folders[j].path);
    }
    FrameKeepsSettled(db, db', folders, |folders|, seenFolders);
  }

  lemma FreshFile(db: Db, files: seq<Entry>, k: nat, seen: set<nat>)
    requires Bounded(db) && FilesSettled(db, files, k, seen)
    ensures db.nextId !in seen
  {
    assert forall j :: 0 <= j < k ==> FileSettled(db, files[j], seen);
  }

  lemma FileImportedSettles(
    db: Db, db': Db, folders: seq<Entry>, seenFolders: set<nat>, files: seq<Entry>, k: nat, seen: set<nat>
  )
    requires FolderOrder(folders) && FileList(folders, files) && k < |files|
    requires FileInvariant(db, folders, seenFolders, files, k, seen)
    requires RowAt(db.rows, files[k].path).None? && FileImported(db, db', files[k])
    ensures FileInvariant(db', folders, seenFolders, files, k + 1, seen + {db.nextId})
    ensures seenFolders <= db'.folders.Keys <==> seenFolders <= db.folders.Keys
  {
    var e := files[k];
    FileImportedReady(db, db', folders, seenFolders, e);
    if seenFolders <= db.folders.Keys {
      FreshFile(db, files, k, seen);
      forall j | 0 <= j < k ensures RowAt(db'.rows, files[j].path) == RowAt(db.rows, files[j].path) {
        assert FileSettled(db, files[j], seen);
        FileImportedRows(db, db', e, files[j].path);
      }
      assert FilesFrame(db, db', files, k, seen);
      FrameKeepsFiles(db, db', folders, seenFolders, files, k, seen);
      FileImportedRows(db, db', e, e.path);
      assert !TopLevel(e.path) ==> ParentListed(folders, e.path);
      ParentStable(db.rows, db'.rows, folders, |folders|, e.path);
      ExtendFiles(db', files, k, seen, db.nextId);
    }
  }

  // ----- a stale folder where a file is now -----

  lemma NotAbove(folders: seq<Entry>, files: seq<Entry>, j: nat, path: string)
    requires FolderOrder(folders) && FileList(folders, files) && j < |files|
    requires forall i :: 0 <= i < |folders| ==> !SameName(folders[i].path, path)
    ensures !Below(path, files[j].path)
  {
    if Below(path, files[j].path) {
      assert !TopLevel(files[j].path) ==> ParentListed(folders, files[j].path);
      AncestorOfListed(folders, files[j].path, path);
    }
  }

  lemma DeleteFolderFilesFrame(
    db: Db, folders: seq<Entry>, seenFolders: set<nat>, files: seq<Entry>, k: nat, seen: set<nat>, row: Row
  )
    requires FolderOrder(folders) && FileList(folders, files) && k <= |files|
    requires TablesReady(db, folders, seenFolders) && FilesSettled(db, files, k, seen)
    requires row.id !in seenFolders && DeleteFolderObject(db, row).Some?
    requires forall i :: 0 <= i < |folders| ==> !SameName(folders[i].path, row.path)
    requires forall j :: 0 <= j < k ==> !SameName(files[j].path, row.path)
    ensures FilesFrame(db, DeleteFolderObject(db, row).value, files, k, seen)
  {
    hide FoldersSettled, FolderOrder, LookupParent, BaseName, FilesLinked, UniqueRows, Bounded, Cascade;
    var db' := DeleteFolderObject(db, row).value;
    forall j | 0 <= j < k ensures RowAt(db'.rows, files[j].path) == RowAt(db.rows, files[j].path) {
      NotAbove(folders, files, j, row.path);
      RemoveTreeElsewhere(db.rows, row.path, files[j].path);
    }
    SeenSurvive(db, folders, |folders|, seenFolders, row.id);
    forall id | id in seen && id in db.files ensures id in db'.files {
      var j :| 0 <= j < k && Holds(db.rows, files[j], id);
      assert FileSettled(db, files[j], seen);
      ListedParent(db, folders, seenFolders, files, j);
    }
  }

  lemma PathElsewhere(folders: seq<Entry>, files: seq<Entry>, k: nat, path: string)
    requires FileList(folders, files) && k < |files| && SameName(path, files[k].path)
    ensures forall i :: 0 <= i < |folders| ==> !SameName(folders[i].path, path)
    ensures forall j :: 0 <= j < k ==> !SameName(files[j].path, path)
  {}

  lemma ReplaceFolderWithFile(
    db: Db, folders: seq<Entry>, seenFolders: set<nat>, files: seq<Entry>, k: nat, seen: set<nat>, row: Row
  )
    requires FolderOrder(folders) && FileList(folders, files) && k < |files|
    requires FileInvariant(db, folders, seenFolders, files, k, seen)
    requires RowAt(db.rows, files[k].path) == Some(row) && row.kind == FOLDER && DeleteFolderObject(db, row).Some?
    ensures var db' := DeleteFolderObject(db, row).value;
            && FileInvariant(db', folders, seenFolders, files, k, seen)
            && RowAt(db'.rows, files[k].path).None?
            && (seenFolders <= db'.folders.Keys <==> seenFolders <= db.folders.Keys)
  {
    var db' := DeleteFolderObject(db, row).value;
    PathElsewhere(folders, files, k, row.path);
    ReplacedFolderReady(db, db', folders, seenFolders, row);
    PathCleared(db.rows, row, files[k].path);
    if seenFolders <= db.folders.Keys {
      ReplacedFolderFiles(db, db', folders, seenFolders, files, k, seen, row);
    }
  }

  lemma PathCleared(rows: seq<Row>, row: Row, path: string)
    requires UniqueRows(rows) && RowAt(rows, path) == Some(row)
    ensures RowAt(RemoveTree(rows, row.path), path).None?
  {}

  lemma ReplacedFolderFiles(
    db: Db, db': Db, folders: seq<Entry>, seenFolders: set<nat>, files: seq<Entry>, k: nat, seen: set<nat>, row: Row
  )
    requires FolderOrder(folders) && FileList(folders, files) && k <= |files|
    requires TablesReady(db, folders, seenFolders) && FilesSettled(db, files, k, seen)
    requires row.id !in seenFolders && DeleteFolderObject(db, row) == Some(db')
    requires forall i :: 0 <= i < |folders| ==> !SameName(folders[i].path, row.path)
    requires forall j :: 0 <= j < k ==> !SameName(files[j].path, row.path)
    requires FoldersFrame(db, db', folders, |folders|, seenFolders)
    ensures FilesSettled(db', files, k, seen)
  {
    DeleteFolderFilesFrame(db, folders, seenFolders, files, k, seen, row);
    FrameKeepsFiles(db, db', folders, seenFolders, files, k, seen);
  }

  lemma ReplacedFolderReady(db: Db, db': Db, folders: seq<Entry>, seenFolders: set<nat>, row: Row)
    requires FolderOrder(folders) && TablesReady(db, folders, seenFolders)
    requires row in db.rows && row.kind == FOLDER && DeleteFolderObject(db, row) == Some(db')
    requires forall i :: 0 <= i < |folders| ==> !SameName(folders[i].path, row.path)
    ensures TablesReady(db', folders, seenFolders) && FoldersFrame(db, db', folders, |folders|, seenFolders)
    ensures seenFolders <= db'.folders.Keys <==> seenFolders <= db.folders.Keys
    ensures row.id !in seenFolders
  {
    ElsewhereUnseen(db, folders, |folders|, seenFolders, row);
    DeleteFolderFrame(db, folders, |folders|, seenFolders, row);
    FrameKeepsSettled(db, db', folders, |folders|, seenFolders);
    DeleteFolderFilesLinked(db, row);
    DeleteFolderBounded(db, row);
  }

  // ----- the loop -----

  lemma KeepFileShape(p: Progress, settings: Settings, row: Row, e: Entry, file: File)
    requires KeepFile(p, settings, row, e, file).Some? && KeepFile(p, settings, row, e, file).value.clean
    requires LookupParent(p.db.rows, e.path).FoundParent?
    requires FolderOfFile(p.db.rows, e.path) == LookupParent(p.db.rows, e.path).folder
    ensures var q := KeepFile(p, settings, row, e, file).value;
            && FileUpdated(p.db, q.db, row, e) && q.seen == p.seen + {row.id} && p.clean && q.hits == p.hits
  {
    hide LookupParent, FolderOfFile, BaseName, EnforceQuota, Relocate;
  }

  lemma ReplaceFileShape(p: Progress, settings: Settings, row: Row, e: Entry, file: File)
    requires ReplaceMappedFile(p, settings, row, e, file).Some?
    requires ReplaceMappedFile(p, settings, row, e, file).value.clean
    requires LookupParent(p.db.rows, e.path).FoundParent?
    requires FolderOfFile(p.db.rows, e.path) == LookupParent(p.db.rows, e.path).folder
    ensures var q := ReplaceMappedFile(p, settings, row, e, file).value;
            && FileUpdated(p.db, q.db, row, e) && q.seen == p.seen + {row.id} && p.clean && q.hits == p.hits
  {
    hide LookupParent, FolderOfFile, BaseName, EnforceQuota, Relocate;
  }

  lemma ImportFileShape(p: Progress, settings: Settings, e: Entry)
    requires ImportSmbFile(p, settings, e).Some? && ImportSmbFile(p, settings, e).value.clean
    requires LookupParent(p.db.rows, e.path).FoundParent?
    ensures var q := ImportSmbFile(p, settings, e).value;
            && FileImported(p.db, q.db, e) && q.seen == p.seen + {p.db.nextId} && p.clean && q.hits == p.hits
            && RowAt(p.db.rows, e.path).None?
  {
    InsertedFile(p.db, LookupParent(p.db.rows, e.path).folder, e);
  }

  lemma InsertedFile(db: Db, folder: Option<nat>, e: Entry)
    requires LookupParent(db.rows, e.path) == FoundParent(folder)
    ensures FileImported(db, InsertFile(db, folder, e), e)
  {}

  /** A file row whose object is in neither view of the table is skipped. */
  ghost predicate Skipped(p: Progress, known: map<nat, File>, e: Entry) {
    var row := RowAt(p.db.rows, e.path);
    row.Some? && row.value.kind == FILE && row.value.id !in known && row.value.id !in p.db.files
  }

  /** What one step of the file loop establishes. */
  ghost predicate FileStep(
    p: Progress, q: Progress, folders: seq<Entry>, seenFolders: set<nat>, files: seq<Entry>, k: nat
  ) {
    && p.clean && q.hits == p.hits
    && FileInvariant(q.db, folders, seenFolders, files, k + 1, q.seen)
    && (seenFolders <= q.db.folders.Keys <==> seenFolders <= p.db.folders.Keys)
  }

  lemma SkippedStep(
    p: Progress, known: map<nat, File>, folders: seq<Entry>, seenFolders: set<nat>, files: seq<Entry>, k: nat
  )
    requires FolderOrder(folders) && FileList(folders, files) && k < |files| && p.clean
    requires FileInvariant(p.db, folders, seenFolders, files, k, p.seen)
    requires Skipped(p, known, files[k])
    ensures FileStep(p, p, folders, seenFolders, files, k)
  {
    if seenFolders <= p.db.folders.Keys {
      MappedFileExists(p.db, folders, seenFolders, files, k, RowAt(p.db.rows, files[k].path).value);
      assert false;
    }
  }

  lemma MappedStep(
    p: Progress, settings: Settings, file: File, row: Row, folders: seq<Entry>, seenFolders: set<nat>,
    files: seq<Entry>, k: nat, q: Progress
  )
    requires FolderOrder(folders) && FileList(folders, files) && k < |files| && q.clean
    requires FileInvariant(p.db, folders, seenFolders, files, k, p.seen)
    requires RowAt(p.db.rows, files[k].path) == Some(row) && row.kind == FILE
    requires KeepFile(p, settings, row, files[k], file) == Some(q)
             || ReplaceMappedFile(p, settings, row, files[k], file) == Some(q)
    ensures FileStep(p, q, folders, seenFolders, files, k)
  {
    ListedParent(p.db, folders, seenFolders, files, k);
    if KeepFile(p, settings, row, files[k], file) == Some(q) {
      KeepFileShape(p, settings, row, files[k], file);
    } else {
      ReplaceFileShape(p, settings, row, files[k], file);
    }
    FileUpdatedSettles(p.db, q.db, folders, seenFolders, files, k, p.seen, row);
  }

  lemma ImportStep(
    p: Progress, settings: Settings, folders: seq<Entry>, seenFolders: set<nat>, files: seq<Entry>, k: nat
  )
    requires FolderOrder(folders) && FileList(folders, files) && k < |files|
    requires FileInvariant(p.db, folders, seenFolders, files, k, p.seen)
    requires ImportSmbFile(p, settings, files[k]).Some? && ImportSmbFile(p, settings, files[k]).value.clean
    ensures FileStep(p, ImportSmbFile(p, settings, files[k]).value, folders, seenFolders, files, k)
  {
    ListedParent(p.db, folders, seenFolders, files, k);
    ImportFileShape(p, settings, files[k]);
    FileImportedSettles(p.db, ImportSmbFile(p, settings, files[k]).value.db, folders, seenFolders, files, k, p.seen);
  }

  lemma ClearedStep(
    p: Progress, settings: Settings, db: Db, folders: seq<Entry>, seenFolders: set<nat>, files: seq<Entry>, k: nat,
    q: Progress
  )
    requires FolderOrder(folders) && FileList(folders, files) && k < |files| && q.clean
    requires FileInvariant(p.db, folders, seenFolders, files, k, p.seen)
    requires RowAt(p.db.rows, files[k].path).Some? ==> RowAt(p.db.rows, files[k].path).value.kind == FOLDER
    requires ClearPath(p.db, RowAt(p.db.rows, files[k].path)) == Some(db)
    requires ImportSmbFile(p.(db := db), settings, files[k]) == Some(q)
    ensures FileStep(p, q, folders, seenFolders, files, k)
  {
    var row := RowAt(p.db.rows, files[k].path);
    if row.Some? {
      ReplaceFolderWithFile(p.db, folders, seenFolders, files, k, p.seen, row.value);
    }
    ImportStep(p.(db := db), settings, folders, seenFolders, files, k);
  }

  /** The three ways one step of the file loop can go. */
  lemma ReconcileFileCases(p: Progress, settings: Settings, known: map<nat, File>, e: Entry, q: Progress)
    requires ReconcileFile(p, settings, known, e) == Some(q)
    ensures var row := RowAt(p.db.rows, e.path);
            || (Skipped(p, known, e) && q == p)
            || (row.Some? && row.value.kind == FILE && exists file ::
                  KeepFile(p, settings, row.value, e, file) == Some(q)
                  || ReplaceMappedFile(p, settings, row.value, e, file) == Some(q))
            || ((row.Some? ==> row.value.kind == FOLDER) && ClearPath(p.db, row).Some?
                && ImportSmbFile(p.(db := ClearPath(p.db, row).value), settings, e) == Some(q))
  {}

  lemma ReconcileFileSettles(
    p: Progress, settings: Settings, known: map<nat, File>, folders: seq<Entry>, seenFolders: set<nat>,
    files: seq<Entry>, k: nat, q: Progress
  )
    requires FolderOrder(folders) && FileList(folders, files) && k < |files|
    requires FileInvariant(p.db, folders, seenFolders, files, k, p.seen)
    requires ReconcileFile(p, settings, known, files[k]) == Some(q) && q.clean
    ensures FileStep(p, q, folders, seenFolders, files, k)
  {
    var e := files[k];
    var row := RowAt(p.db.rows, e.path);
    ReconcileFileCases(p, settings, known, e, q);
    ReconcileFileClean(p, settings, known, e);
    if Skipped(p, known, e) && q == p {
      SkippedStep(p, known, folders, seenFolders, files, k);
    } else if row.Some? && row.value.kind == FILE {
      var file :| KeepFile(p, settings, row.value, e, file) == Some(q)
                  || ReplaceMappedFile(p, settings, row.value, e, file) == Some(q);
      MappedStep(p, settings, file, row.value, folders, seenFolders, files, k, q);
    } else {
      ClearedStep(p, settings, ClearPath(p.db, row).value, folders, seenFolders, files, k, q);
    }
  }

  lemma ReconcileFileClean(p: Progress, settings: Settings, known: map<nat, File>, e: Entry)
    requires ReconcileFile(p, settings, known, e).Some? && ReconcileFile(p, settings, known, e).value.clean
    ensures p.clean
  {
    var q := ReconcileFile(p, settings, known, e).value;
    var row := RowAt(p.db.rows, e.path);
    ReconcileFileCases(p, settings, known, e, q);
    if row.Some? && row.value.kind == FILE {
      forall file | KeepFile(p, settings, row.value, e, file) == Some(q)
                    || ReplaceMappedFile(p, settings, row.value, e, file) == Some(q)
        ensures p.clean
      {
        MappedClean(p, settings, row.value, e, file, q);
      }
    } else {
      ImportClean(p.(db := ClearPath(p.db, row).value), settings, e, q);
    }
  }

  lemma MappedClean(p: Progress, settings: Settings, row: Row, e: Entry, file: File, q: Progress)
    requires KeepFile(p, settings, row, e, file) == Some(q) || ReplaceMappedFile(p, settings, row, e, file) == Some(q)
    ensures q.clean ==> p.clean
  {}

  lemma ImportClean(p: Progress, settings: Settings, e: Entry, q: Progress)
    requires ImportSmbFile(p, settings, e) == Some(q)
    ensures q.clean ==> p.clean
  {}

  lemma {:induction false} ReconcileFilesClean(
    p: Progress, settings: Settings, known: map<nat, File>, files: seq<Entry>, k: nat
  )
    requires k <= |files|
    requires ReconcileFiles(p, settings, known, files, k).Some?
    requires ReconcileFiles(p, settings, known, files, k).value.clean
    ensures p.clean
    decreases |files| - k
  {
    if k < |files| {
      ReconcileFilesClean(ReconcileFile(p, settings, known, files[k]).value, settings, known, files, k + 1);
      ReconcileFileClean(p, settings, known, files[k]);
    }
  }

  lemma {:induction false} ReconcileFilesSettle(
    p: Progress, settings: Settings, known: map<nat, File>, folders: seq<Entry>, seenFolders: set<nat>,
    files: seq<Entry>, k: nat
  )
    requires FolderOrder(folders) && FileList(folders, files) && k <= |files|
    requires FileInvariant(p.db, folders, seenFolders, files, k, p.seen)
    requires ReconcileFiles(p, settings, known, files, k).Some?
    requires ReconcileFiles(p, settings, known, files, k).value.clean
    ensures var q := ReconcileFiles(p, settings, known, files, k).value;
            && FileInvariant(q.db, folders, seenFolders, files, |files|, q.seen)
            && (seenFolders <= q.db.folders.Keys <==> seenFolders <= p.db.folders.Keys)
    decreases |files| - k
  {
    if k < |files| {
      var next := ReconcileFile(p, settings, known, files[k]).value;
      ReconcileFilesClean(next, settings, known, files, k + 1);
      ReconcileFileSettles(p, settings, known, folders, seenFolders, files, k, next);
      ReconcileFilesSettle(next, settings, known, folders, seenFolders, files, k + 1);
    }
  }
}

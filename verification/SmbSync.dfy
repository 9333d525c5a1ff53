/** syncProjectionToDatabase as a function of the tables and the scan. None stands for a
    pass that throws or does not return. */
module SmbSync {
  import opened Wrappers
  import opened Text
  import opened Sorting
  import opened SmbTables

  // ----- the scan -----

  function OfKind(scan: seq<Entry>, kind: Kind): (r: seq<Entry>)
    ensures forall e :: e in r <==> e in scan && e.kind == kind
    ensures |r| <= |scan|
  {
    if scan == [] then []
    else (if scan[0].kind == kind then [scan[0]] else []) + OfKind(scan[1..], kind)
  }

  function DepthOf(): Entry -> int {
    (e: Entry) => Depth(e.path)
  }

  /** scanFolders: parents come before what they contain. */
  function ScanFolders(scan: seq<Entry>): seq<Entry> {
    Sort(OfKind(scan, FOLDER), DepthOf())
  }

  function ScanFiles(scan: seq<Entry>): seq<Entry> {
    OfKind(scan, FILE)
  }

  /** new Map(scan.map(path -> entry)).get(path): the last entry of that path. */
  function LastAt(scan: seq<Entry>, path: string): (r: Option<Entry>)
    ensures r.Some? ==> exists i :: 0 <= i < |scan| && scan[i] == r.value && IsLastAt(scan, path, i)
    ensures r.None? ==> forall e :: e in scan ==> !SameName(e.path, path)
  {
    if scan == [] then None
    else if SameName(scan[|scan| - 1].path, path) then Some(scan[|scan| - 1])
    else LastAt(scan[..|scan| - 1], path)
  }

  ghost predicate IsLastAt(scan: seq<Entry>, path: string, i: nat)
    requires i < |scan|
  {
    SameName(scan[i].path, path) && forall j :: i < j < |scan| ==> !SameName(scan[j].path, path)
  }

  /** Objects whose mapped path still holds the mapped inode. */
  function StableMappings(rows: seq<Row>, scan: seq<Entry>, kind: Kind): set<nat> {
    set row | row in rows && row.kind == kind && IsStable(row, scan) :: row.id
  }

  predicate IsStable(row: Row, scan: seq<Entry>) {
    var e := LastAt(scan, row.path);
    e.Some? && SameIdentity(e.value.ident, row.ident)
  }

  // ----- folder moves -----

  function RowsBelow(rows: seq<Row>, path: string): (r: seq<Row>)
    ensures forall row :: row in r <==> row in rows && Below(path, row.path)
  {
    if rows == [] then []
    else
      LikeMatchesDescendants(path, rows[0].path);
      (if Like(DescendantPattern(path), rows[0].path) then [rows[0]] else []) + RowsBelow(rows[1..], path)
  }

  function PathLength(): Row -> int {
    (row: Row) => |row.path|
  }

  /** ORDER BY LENGTH(relative_path) ASC */
  function Descendants(rows: seq<Row>, path: string): seq<Row> {
    Sort(RowsBelow(rows, path), PathLength())
  }

  /** UPDATE ... SET relative_path only. */
  function RenameRow(rows: seq<Row>, row: Row, path: string): Option<seq<Row>> {
    Relocate(rows, row.kind, row.id, path, row.ident)
  }

  function RebasedPath(oldPath: string, newPath: string, path: string): string
    requires |oldPath| <= |path|
  {
    newPath + path[|oldPath|..]
  }

  /** One UPDATE per descendant, shortest path first. */
  function RebaseRows(rows: seq<Row>, pending: seq<Row>, oldPath: string, newPath: string): Option<seq<Row>>
    requires forall row :: row in pending ==> Below(oldPath, row.path)
    decreases |pending|
  {
    if pending == [] then Some(rows)
    else
      assert Below(oldPath, pending[0].path);
      var next := RenameRow(rows, pending[0], RebasedPath(oldPath, newPath, pending[0].path));
      if next.None? then None else RebaseRows(next.value, pending[1..], oldPath, newPath)
  }

  /** updateMappingPath on the folder, then the descendants (also updateFolderMappingPrefix). */
  function MoveMappings(rows: seq<Row>, moved: Row, newPath: string, ident: Identity): Option<seq<Row>> {
    SortMembers(RowsBelow(rows, moved.path), PathLength());
    var first := Relocate(rows, FOLDER, moved.id, newPath, ident);
    if first.None? then None
    else RebaseRows(first.value, Descendants(rows, moved.path), moved.path, newPath)
  }

  datatype MoveResult = MoveResult(db: Db, moved: bool)

  function MoveFolderFromSmb(db: Db, mapping: Row, e: Entry): Option<MoveResult> {
    var parent := LookupParent(db.rows, e.path);
    if parent.MissingParent? then Some(MoveResult(db, false))
    else
      var name := UniqueFolderName(db.folders, parent.folder, BaseName(e.path), Some(mapping.id));
      if name.None? then None
      else
        var folders := UpdateFolder(db.folders, mapping.id, parent.folder, name.value);
        var rows := MoveMappings(db.rows, mapping, e.path, e.ident);
        if folders.None? || rows.None? then None
        else Some(MoveResult(db.(folders := folders.value, rows := rows.value), true))
  }

  /** nested records that some folder was moved below its own mapped path. */
  datatype FolderMoves = FolderMoves(db: Db, nested: bool)

  predicate WantsMove(moved: Option<Row>, stable: set<nat>, e: Entry) {
    moved.Some? && moved.value.id !in stable && !SameName(moved.value.path, e.path)
  }

  function MoveFolders(db: Db, stable: set<nat>, scan: seq<Entry>, k: nat, nested: bool): Option<FolderMoves>
    requires k <= |scan|
    decreases |scan| - k
  {
    if k == |scan| then Some(FolderMoves(db, nested))
    else
      var moved := LastWithIdentity(db.rows, FOLDER, scan[k].ident);
      if !WantsMove(moved, stable, scan[k]) then MoveFolders(db, stable, scan, k + 1, nested)
      else
        var r := MoveFolderFromSmb(db, moved.value, scan[k]);
        if r.None? then None
        else
          MoveFolders(r.value.db, stable, scan, k + 1,
                      nested || (r.value.moved && Below(moved.value.path, scan[k].path)))
  }

  // ----- folders -----

  /** seen: objects accounted for. clean: nothing was rejected, no error swallowed.
      hits: every UPDATE folders of a kept folder found its row. */
  datatype Progress = Progress(db: Db, seen: set<nat>, clean: bool, hits: bool)

  function KeepFolder(p: Progress, row: Row, e: Entry): Option<Progress> {
    var parent := LookupParent(p.db.rows, e.path);
    if parent.MissingParent? then Some(p)
    else
      var name := UniqueFolderName(p.db.folders, parent.folder, BaseName(e.path), Some(row.id));
      if name.None? then None
      else
        var folders := UpdateFolder(p.db.folders, row.id, parent.folder, name.value);
        var rows := Relocate(p.db.rows, FOLDER, row.id, e.path, e.ident);
        if folders.None? || rows.None? then None
        else Some(Progress(p.db.(folders := folders.value, rows := rows.value), p.seen + {row.id},
                           p.clean, p.hits && row.id in p.db.folders))
  }

  /** createSmbFolderRecord. A UNIQUE error is swallowed by the caller. */
  function CreateFolder(p: Progress, settings: Settings, e: Entry): Option<Progress> {
    var parent := LookupParent(p.db.rows, e.path);
    if parent.MissingParent? then Some(p)
    else if |p.db.folders| >= settings.maxFolders then Some(p.(clean := false))
    else
      var name := UniqueFolderName(p.db.folders, parent.folder, BaseName(e.path), None);
      if name.None? || !ParentExists(p.db.folders, parent.folder) then None
      else
        if NameTaken(p.db.folders, p.db.nextId, parent.folder, name.value) || RowAt(p.db.rows, e.path).Some? then
          Some(p.(clean := false))
        else
          Some(p.(db := InsertFolder(p.db, parent.folder, name.value, e), seen := p.seen + {p.db.nextId}))
  }

  /** The new folder and its mapping. */
  function InsertFolder(db: Db, parent: Option<nat>, name: string, e: Entry): Db {
    Db(db.folders[db.nextId := Folder(parent, name)], db.files,
       db.rows + [Row(FOLDER, db.nextId, e.path, e.ident)], db.nextId + 1)
  }

  /** What held the path before: a stale folder takes its subtree along, a file only itself. */
  function ClearPath(db: Db, row: Option<Row>): Option<Db> {
    if row.None? then Some(db)
    else if row.value.kind == FOLDER then DeleteFolderObject(db, row.value)
    else Some(DeleteFileObject(db, row.value.id))
  }

  function ReconcileFolder(p: Progress, settings: Settings, e: Entry): Option<Progress> {
    var row := RowAt(p.db.rows, e.path);
    if row.Some? && row.value.kind == FOLDER && SameIdentity(row.value.ident, e.ident) then
      KeepFolder(p, row.value, e)
    else
      var db := ClearPath(p.db, row);
      if db.None? then None else CreateFolder(p.(db := db.value), settings, e)
  }

  function ReconcileFolders(p: Progress, settings: Settings, scan: seq<Entry>, k: nat): Option<Progress>
    requires k <= |scan|
    decreases |scan| - k
  {
    if k == |scan| then Some(p)
    else
      var next := ReconcileFolder(p, settings, scan[k]);
      if next.None? then None else ReconcileFolders(next.value, settings, scan, k + 1)
  }

  // ----- file moves -----

  /** UPDATE files SET folder_id, original_name, size WHERE id. */
  function UpdateFile(
    db: Db, id: nat, folder: Option<nat>, name: string, size: nat, stored: Identity
  ): Option<map<nat, File>> {
    if id !in db.files then Some(db.files)
    else if !ParentExists(db.folders, folder) then None
    else Some(db.files[id := File(folder, name, size, stored)])
  }

  datatype FileMove = FileMove(db: Db, moved: bool, size: nat, clean: bool)

  ghost function MoveFileFromSmb(db: Db, settings: Settings, mapping: Row, e: Entry): Option<FileMove> {
    var parent := LookupParent(db.rows, e.path);
    if parent.MissingParent? || mapping.id !in db.files then Some(FileMove(db, false, e.size, true))
    else
      var file := db.files[mapping.id];
      var rejected := e.size > file.size && EnforceQuota(db, settings, e.size, file.size, false).Some?;
      var size := if rejected then file.size else e.size;
      var files := UpdateFile(db, mapping.id, parent.folder, BaseName(e.path), size, file.stored);
      var rows := Relocate(db.rows, FILE, mapping.id, e.path, e.ident);
      if files.None? || rows.None? then None
      else Some(FileMove(db.(files := files.value, rows := rows.value), true, size, !rejected))
  }

  /** The moves may truncate scanned files, so the scan is part of the result. */
  datatype FileMoves = FileMoves(db: Db, scan: seq<Entry>, clean: bool)

  ghost function MoveFiles(m: FileMoves, settings: Settings, stable: set<nat>, k: nat): Option<FileMoves>
    requires k <= |m.scan|
    decreases |m.scan| - k
  {
    if k == |m.scan| then Some(m)
    else
      var moved := LastWithIdentity(m.db.rows, FILE, m.scan[k].ident);
      if !WantsMove(moved, stable, m.scan[k]) then MoveFiles(m, settings, stable, k + 1)
      else
        var r := MoveFileFromSmb(m.db, settings, moved.value, m.scan[k]);
        if r.None? then None
        else
          MoveFiles(FileMoves(r.value.db, m.scan[k := m.scan[k].(size := r.value.size)], m.clean && r.value.clean),
                    settings, stable, k + 1)
  }

  // ----- files -----

  /** replaceMappedFile, and the restoration of the stored inode when the quota rejects it. */
  ghost function ReplaceMappedFile(p: Progress, settings: Settings, row: Row, e: Entry, file: File): Option<Progress> {
    if EnforceQuota(p.db, settings, e.size, file.size, false).Some? then
      var rows := Relocate(p.db.rows, FILE, row.id, e.path, file.stored);
      if rows.None? then None
      else Some(p.(db := p.db.(rows := rows.value), seen := p.seen + {row.id}, clean := false))
    else
      var files := UpdateFile(p.db, row.id, FolderOfFile(p.db.rows, e.path), BaseName(e.path), e.size, e.ident);
      var rows := Relocate(p.db.rows, FILE, row.id, e.path, e.ident);
      if files.None? || rows.None? then None
      else Some(p.(db := p.db.(files := files.value, rows := rows.value), seen := p.seen + {row.id}))
  }

  /** folderIdForParentPath as the file statements use it: a missing parent is NULL. */
  function FolderOfFile(rows: seq<Row>, path: string): Option<nat> {
    if TopLevel(path) then None else FolderIdAt(rows, Parent(path))
  }

  /** The file is still the mapped inode; growth may be rejected. */
  ghost function KeepFile(p: Progress, settings: Settings, row: Row, e: Entry, file: File): Option<Progress> {
    var rejected := e.size > file.size && EnforceQuota(p.db, settings, e.size, file.size, false).Some?;
    var files := if rejected then Some(p.db.files)
                 else UpdateFile(p.db, row.id, FolderOfFile(p.db.rows, e.path), BaseName(e.path), e.size, file.stored);
    var rows := Relocate(p.db.rows, FILE, row.id, e.path, e.ident);
    if files.None? || rows.None? then None
    else Some(p.(db := p.db.(files := files.value, rows := rows.value), seen := p.seen + {row.id},
                 clean := p.clean && !rejected))
  }

  ghost function ImportSmbFile(p: Progress, settings: Settings, e: Entry): Option<Progress> {
    var parent := LookupParent(p.db.rows, e.path);
    if parent.MissingParent? then Some(p)
    else if EnforceQuota(p.db, settings, e.size, 0, true).Some? then Some(p.(clean := false))
    else if !ParentExists(p.db.folders, parent.folder) || RowAt(p.db.rows, e.path).Some? then None
    else
      Some(p.(db := InsertFile(p.db, parent.folder, e), seen := p.seen + {p.db.nextId}))
  }

  /** The new file and its mapping. */
  function InsertFile(db: Db, folder: Option<nat>, e: Entry): Db {
    Db(db.folders, db.files[db.nextId := File(folder, BaseName(e.path), e.size, e.ident)],
       db.rows + [Row(FILE, db.nextId, e.path, e.ident)], db.nextId + 1)
  }

  /** known is the files table as it was read before this loop. */
  ghost function ReconcileFile(p: Progress, settings: Settings, known: map<nat, File>, e: Entry): Option<Progress> {
    var row := RowAt(p.db.rows, e.path);
    if row.Some? && row.value.kind == FILE then
      var id := row.value.id;
      if id !in known && id !in p.db.files then Some(p)
      else
        var file := if id in known then known[id] else p.db.files[id];
        if SameIdentity(row.value.ident, e.ident) then KeepFile(p, settings, row.value, e, file)
        else ReplaceMappedFile(p, settings, row.value, e, file)
    else
      var db := ClearPath(p.db, row);
      if db.None? then None else ImportSmbFile(p.(db := db.value), settings, e)
  }

  ghost function ReconcileFiles(
    p: Progress, settings: Settings, known: map<nat, File>, scan: seq<Entry>, k: nat
  ): Option<Progress>
    requires k <= |scan|
    decreases |scan| - k
  {
    if k == |scan| then Some(p)
    else
      var next := ReconcileFile(p, settings, known, scan[k]);
      if next.None? then None else ReconcileFiles(next.value, settings, known, scan, k + 1)
  }

  // ----- what the scan no longer holds -----

  function RowsOfKind(rows: seq<Row>, kind: Kind): (r: seq<Row>)
    ensures forall row :: row in r <==> row in rows && row.kind == kind
  {
    if rows == [] then []
    else (if rows[0].kind == kind then [rows[0]] else []) + RowsOfKind(rows[1..], kind)
  }

  function DropFiles(db: Db, pending: seq<Row>, seen: set<nat>): Db
    decreases |pending|
  {
    if pending == [] then db
    else DropFiles(if pending[0].id in seen then db else DeleteFileObject(db, pending[0].id), pending[1..], seen)
  }

  function ShallownessOf(): Row -> int {
    (row: Row) => 0 - Depth(row.path)
  }

  function DropFolders(db: Db, pending: seq<Row>, seen: set<nat>): Option<Db>
    decreases |pending|
  {
    if pending == [] then Some(db)
    else if pending[0].id in seen then DropFolders(db, pending[1..], seen)
    else
      var next := DeleteFolderObject(db, pending[0]);
      if next.None? then None else DropFolders(next.value, pending[1..], seen)
  }

  // ----- the pass -----

  datatype Pass = Pass(db: Db, clean: bool, hits: bool, nested: bool)

  ghost function SyncProjection(db: Db, settings: Settings, scan: seq<Entry>): Option<Pass> {
    var scanFolders, scanFiles := ScanFolders(scan), ScanFiles(scan);
    var moves := MoveFolders(db, StableMappings(db.rows, scanFolders, FOLDER), scanFolders, 0, false);
    if moves.None? then None
    else
      var folders := ReconcileFolders(Progress(moves.value.db, {}, true, true), settings, scanFolders, 0);
      if folders.None? then None
      else
        var p := folders.value;
        var fileMoves := MoveFiles(FileMoves(p.db, scanFiles, p.clean), settings,
                                   StableMappings(p.db.rows, scanFiles, FILE), 0);
        if fileMoves.None? then None
        else
          var m := fileMoves.value;
          var files := ReconcileFiles(Progress(m.db, {}, m.clean, p.hits), settings, m.db.files, m.scan, 0);
          if files.None? then None
          else
            var q := files.value;
            var kept := DropFiles(q.db, RowsOfKind(q.db.rows, FILE), q.seen);
            var final := DropFolders(kept, Sort(RowsOfKind(kept.rows, FOLDER), ShallownessOf()), p.seen);
            if final.None? then None else Some(Pass(final.value, q.clean, p.hits, moves.value.nested))
  }
}

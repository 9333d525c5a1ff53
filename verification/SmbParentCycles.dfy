/** Exactly when a pass asks for the tree of a folder that is its own ancestor, a query that does
    not end: a condition on the tables and the scan that can be checked before the pass. */
module SmbParentCycles {
  import opened Wrappers
  import opened Text
  import Names
  import opened Sorting
  import opened SmbTables
  import opened ParentChains
  import opened SmbSync
  import opened SmbScan
  import opened SmbSettling
  import opened SmbLinks
  import opened SmbFolders
  import opened SmbFiles
  import opened SmbOrphans
  import opened SmbAnchors
  import opened SmbAgreement
  import opened SmbRows
  import opened SmbRuns

  // ----- meeting a cycle -----

  /** Clearing the path means deleting a folder on a cycle. */
  predicate ClearsCycle(db: Db, e: Entry) {
    var row := RowAt(db.rows, e.path);
    row.Some? && row.value.kind == FOLDER && OnCycle(db.folders, row.value.id)
  }

  ghost predicate FoldersMeetCycle(p: Progress, settings: Settings, scan: seq<Entry>, k: nat)
    requires k <= |scan|
    decreases |scan| - k
  {
    k < |scan|
    && ((Stale(p.db.rows, scan[k]) && ClearsCycle(p.db, scan[k]))
        || var next := ReconcileFolder(p, settings, scan[k]);
           next.Some? && FoldersMeetCycle(next.value, settings, scan, k + 1))
  }

  ghost predicate FilesMeetCycle(p: Progress, settings: Settings, known: map<nat, File>, scan: seq<Entry>, k: nat)
    requires k <= |scan|
    decreases |scan| - k
  {
    k < |scan|
    && (ClearsCycle(p.db, scan[k])
        || var next := ReconcileFile(p, settings, known, scan[k]);
           next.Some? && FilesMeetCycle(next.value, settings, known, scan, k + 1))
  }

  ghost predicate DropsMeetCycle(db: Db, pending: seq<Row>, seen: set<nat>)
    decreases |pending|
  {
    pending != []
    && if pending[0].id in seen then DropsMeetCycle(db, pending[1..], seen)
       else
         OnCycle(db.folders, pending[0].id)
         || DropsMeetCycle(DeleteFolderObject(db, pending[0]).value, pending[1..], seen)
  }

  /** The loops after the folder loop. */
  ghost predicate RestMeetsCycle(p: Progress, settings: Settings, files: seq<Entry>) {
    var moves := MoveFiles(FileMoves(p.db, files, p.clean), settings, StableMappings(p.db.rows, files, FILE), 0);
    moves.Some? &&
    var m := moves.value;
    var start := Progress(m.db, {}, m.clean, p.hits);
    var q := ReconcileFiles(start, settings, m.db.files, m.scan, 0);
    || FilesMeetCycle(start, settings, m.db.files, m.scan, 0)
    || (q.Some? &&
        var kept := DropFiles(q.value.db, RowsOfKind(q.value.db.rows, FILE), q.value.seen);
        DropsMeetCycle(kept, Sort(RowsOfKind(kept.rows, FOLDER), ShallownessOf()), p.seen))
  }

  /** The pass reaches the deletion of a folder on a cycle. */
  ghost predicate PassMeetsCycle(db: Db, settings: Settings, scan: seq<Entry>) {
    var moves := MovesOf(db, scan);
    moves.Some? &&
    var start := Progress(moves.value.db, {}, true, true);
    var p := ReconcileFolders(start, settings, ScanFolders(scan), 0);
    || FoldersMeetCycle(start, settings, ScanFolders(scan), 0)
    || (p.Some? && RestMeetsCycle(p.value, settings, ScanFiles(scan)))
  }

  // ----- the condition -----

  /** The folder that the j-th entry replaces is on a cycle among those not kept before it. */
  predicate ReplacesCycle(db: Db, scan: seq<Entry>, j: nat)
    requires j < |scan|
  {
    Replaced(db.rows, scan, j) && OnCycle(db.folders - KeptIds(db.rows, scan, j), IdAt(db.rows, scan[j]))
  }

  /** A folder is mapped at the path of some scanned file above this one. */
  predicate BelowFile(rows: seq<Row>, files: seq<Entry>, path: string) {
    exists f :: f in files && FolderIdAt(rows, f.path).Some? && Below(f.path, path)
  }

  /** A mapped folder that no scanned folder accounts for and nothing above it takes along. */
  predicate LeftOver(rows: seq<Row>, folders: seq<Entry>, files: seq<Entry>, row: Row) {
    && row.kind == FOLDER && (forall e :: e in folders ==> !SameName(e.path, row.path))
    && !Swept(rows, folders, |folders|, row.path) && !BelowFile(rows, files, row.path)
  }

  predicate ParentCycle(db: Db, folders: seq<Entry>, files: seq<Entry>) {
    || (exists j :: 0 <= j < |folders| && ReplacesCycle(db, folders, j))
    || (exists row :: row in db.rows && LeftOver(db.rows, folders, files, row)
                      && OnCycle(db.folders - KeptIds(db.rows, folders, |folders|), row.id))
  }

  /** After the folder moves, a mapped folder that the pass will delete is its own ancestor, with
      no folder in between that the pass keeps before. */
  predicate CycleForeseen(db: Db, scan: seq<Entry>) {
    var moves := MovesOf(db, scan);
    moves.Some? && ParentCycle(moves.value.db, ScanFolders(scan), ScanFiles(scan))
  }

  /** No scanned folder can be turned away by the limit. */
  predicate RoomForAll(db: Db, settings: Settings, scan: seq<Entry>) {
    |db.folders| + |ScanFolders(scan)| <= settings.maxFolders
  }

  // ----- cycles before and after the steps of the folder loop -----

  /** A cycle of folders not accounted for yet was there before the loop, away from kept folders. */
  lemma CycleWasThere(db: Db, scan: seq<Entry>, n: nat, now: map<nat, Folder>, seen: set<nat>, id: nat)
    requires n <= |scan| && UnseenUnchanged(db.folders, now, seen) && KeptIds(db.rows, scan, n) <= seen
    requires forall y :: y in now && y in seen && now[y].parent.Some? ==> now[y].parent.value in seen
    requires OnCycle(now, id) && id !in seen
    ensures OnCycle(db.folders - KeptIds(db.rows, scan, n), id)
  {
    hide KeptIds;
    var left := db.folders - KeptIds(db.rows, scan, n);
    forall x | OnCycle(now, x) && id in Cascade(now, {x}) ensures SameAt(now, left, Some(x)) {
      CycleStaysOutside(now, seen, id, x);
    }
    SameCycle(now, left, id);
  }

  lemma KeptIdsGrow(rows: seq<Row>, scan: seq<Entry>, j: nat, n: nat)
    requires j <= n <= |scan|
    ensures KeptIds(rows, scan, j) <= KeptIds(rows, scan, n)
  {
    hide Kept;
  }

  /** If a cycle away from kept folders lost a folder, an earlier replacement was on a cycle. */
  lemma LostFromCycle(db: Db, scan: seq<Entry>, n: nat, x: nat) returns (j: nat)
    requires n <= |scan| && OnCycle(db.folders - KeptIds(db.rows, scan, n), x) && Lost(db, scan, n, x)
    ensures j < n && ReplacesCycle(db, scan, j)
  {
    hide KeptIds, Swept;
    j :| 0 <= j < n && Replaced(db.rows, scan, j) && x in SweptAway(db, scan, j);
    var left, more := db.folders - KeptIds(db.rows, scan, n), db.folders - KeptIds(db.rows, scan, j);
    KeptIdsGrow(db.rows, scan, j, n);
    SameCycle(left, more, x);
    RootIsOnCycle(more, IdAt(db.rows, scan[j]), x);
  }

  /** So it is still there. */
  lemma CycleIsThere(db: Db, scan: seq<Entry>, n: nat, now: map<nat, Folder>, seen: set<nat>, id: nat)
    requires n <= |scan| && FoldersTracked(db, scan, n, now) && UnseenUnchanged(db.folders, now, seen)
    requires forall y :: y in seen && y in db.folders ==> y in KeptIds(db.rows, scan, n)
    requires forall j :: 0 <= j < n ==> !ReplacesCycle(db, scan, j)
    requires OnCycle(db.folders - KeptIds(db.rows, scan, n), id)
    ensures OnCycle(now, id)
  {
    hide KeptIds, ReplacesCycle, Lost;
    var left := db.folders - KeptIds(db.rows, scan, n);
    forall x | OnCycle(left, x) && id in Cascade(left, {x}) ensures SameAt(left, now, Some(x)) {
      if Lost(db, scan, n, x) {
        var j := LostFromCycle(db, scan, n, x);
      }
    }
    SameCycle(left, now, id);
  }

  // ----- the folder loop -----

  ghost predicate NoneReplacesCycle(db: Db, scan: seq<Entry>, n: nat)
    requires n <= |scan|
  {
    forall j :: 0 <= j < n ==> !ReplacesCycle(db, scan, j)
  }

  lemma StaleIsReplaced(db: Db, scan: seq<Entry>, n: nat, now: seq<Row>)
    requires FolderOrder(scan) && n < |scan| && RowsTracked(db.rows, scan, n, now)
    ensures Stale(now, scan[n]) <==> Replaced(db.rows, scan, n)
    ensures Stale(now, scan[n]) ==> RowAt(now, scan[n].path) == RowAt(db.rows, scan[n].path)
  {
    NextUnvisited(scan, n);
  }

  /** The n-th entry meets a cycle exactly when the condition says so. */
  lemma EntryMeetsCycle(db: Db, scan: seq<Entry>, n: nat, p: Progress)
    requires Complete(db) && FolderOrder(scan) && n < |scan| && FolderInvariant(p, scan, n) && Tracks(db, scan, n, p)
    requires NoneReplacesCycle(db, scan, n)
    ensures Stale(p.db.rows, scan[n]) && ClearsCycle(p.db, scan[n]) <==> ReplacesCycle(db, scan, n)
  {
    hide FoldersSettled, FilesLinked, UniqueRows, FolderOrder, Swept, KeptIds, FoldersTracked, RowsTracked;
    StaleIsReplaced(db, scan, n, p.db.rows);
    if Stale(p.db.rows, scan[n]) {
      var row := RowAt(p.db.rows, scan[n].path).value;
      StaleUnseen(p, scan, n, row);
      CompleteIsBounded(db);
      SeenAreKept(db, scan, n, p.seen);
      SeenParentsSeen(p, scan, n);
      if OnCycle(p.db.folders, row.id) {
        CycleWasThere(db, scan, n, p.db.folders, p.seen, row.id);
      }
      if ReplacesCycle(db, scan, n) {
        CycleIsThere(db, scan, n, p.db.folders, p.seen, row.id);
      }
    }
  }

  lemma CycleStopsEntry(p: Progress, settings: Settings, e: Entry)
    requires Stale(p.db.rows, e) && ClearsCycle(p.db, e)
    ensures ReconcileFolder(p, settings, e).None?
  {}

  lemma FoldersGrowByOne(p: Progress, settings: Settings, e: Entry, q: Progress)
    requires ReconcileFolder(p, settings, e) == Some(q)
    ensures |q.db.folders| <= |p.db.folders| + 1
  {
    hide KeepFolder, CreateFolder, ClearPath;
    var row := RowAt(p.db.rows, e.path);
    if row.Some? && row.value.kind == FOLDER && SameIdentity(row.value.ident, e.ident) {
      KeptKeys(p, row.value, e, q);
      SizeOfKeys(p.db.folders.Keys, q.db.folders, p.db.folders);
    } else {
      var db := ClearPath(p.db, row).value;
      ClearedKeys(p.db, row, db);
      CreatedKeys(p.(db := db), settings, e, q);
      SizeOfKeys(p.db.folders.Keys + {db.nextId}, q.db.folders, p.db.folders);
    }
  }

  lemma SizeOfKeys(bound: set<nat>, folders: map<nat, Folder>, before: map<nat, Folder>)
    requires folders.Keys <= bound && |bound| <= |before.Keys| + 1
    ensures |folders| <= |before| + 1
  {
    Names.SubsetSize(folders.Keys, bound);
    assert |folders| == |folders.Keys| && |before| == |before.Keys|;
  }

  lemma KeptKeys(p: Progress, row: Row, e: Entry, q: Progress)
    requires KeepFolder(p, row, e) == Some(q)
    ensures q.db.folders.Keys == p.db.folders.Keys
  {
    hide UniqueFolderName, LookupParent, Relocate, NameTaken, BaseName;
  }

  lemma ClearedKeys(db: Db, row: Option<Row>, cleared: Db)
    requires ClearPath(db, row) == Some(cleared)
    ensures cleared.folders.Keys <= db.folders.Keys && |cleared.folders| <= |db.folders|
  {
    Names.SubsetSize(cleared.folders.Keys, db.folders.Keys);
    assert |cleared.folders| == |cleared.folders.Keys| && |db.folders| == |db.folders.Keys|;
  }

  lemma CreatedKeys(p: Progress, settings: Settings, e: Entry, q: Progress)
    requires CreateFolder(p, settings, e) == Some(q)
    ensures q.db.folders.Keys <= p.db.folders.Keys + {p.db.nextId}
  {
    hide UniqueFolderName, LookupParent, NameTaken, BaseName;
  }

  /** With room, an entry that does not throw is accounted for. */
  lemma RoomKeepsClean(p: Progress, settings: Settings, e: Entry, q: Progress)
    requires Constraints(p.db) && ReconcileFolder(p, settings, e) == Some(q) && p.clean
    requires |p.db.folders| < settings.maxFolders
    ensures q.clean
  {
    hide Constraints, ReconcileFolder, ClearPath;
    if !q.clean {
      OnlyTheLimitRejectsFolders(p, settings, e, q);
      var row := RowAt(p.db.rows, e.path);
      ClearedKeys(p.db, row, ClearPath(p.db, row).value);
    }
  }

  /** What is known in the folder loop of a pass with room for every folder. */
  ghost predicate LoopState(db: Db, settings: Settings, scan: seq<Entry>, n: nat, p: Progress)
    requires n <= |scan|
  {
    && FolderInvariant(p, scan, n) && Tracks(db, scan, n, p) && Constraints(p.db) && p.clean
    && |p.db.folders| + (|scan| - n) <= settings.maxFolders
    && NoneReplacesCycle(db, scan, n)
  }

  lemma LoopStep(db: Db, settings: Settings, scan: seq<Entry>, n: nat, p: Progress, q: Progress)
    requires Complete(db) && FolderOrder(scan) && n < |scan| && LoopState(db, settings, scan, n, p)
    requires ReconcileFolder(p, settings, scan[n]) == Some(q)
    ensures LoopState(db, settings, scan, n + 1, q)
  {
    hide FolderInvariant, Tracks, Constraints, FolderOrder, ReconcileFolder, ReplacesCycle;
    EntryMeetsCycle(db, scan, n, p);
    if ReplacesCycle(db, scan, n) {
      CycleStopsEntry(p, settings, scan[n]);
    }
    RoomKeepsClean(p, settings, scan[n], q);
    FoldersGrowByOne(p, settings, scan[n], q);
    ReconcileFolderConstraints(p, settings, scan[n], q);
    ReconcileFolderSettles(p, settings, scan, n);
    ReconcileFolderTracks(db, settings, scan, n, p);
  }

  lemma {:induction false} FolderLoopMeetsCycle(db: Db, settings: Settings, scan: seq<Entry>, n: nat, p: Progress)
    requires Complete(db) && FolderOrder(scan) && n <= |scan| && LoopState(db, settings, scan, n, p)
    ensures FoldersMeetCycle(p, settings, scan, n) ==> exists j :: 0 <= j < |scan| && ReplacesCycle(db, scan, j)
    ensures ReconcileFolders(p, settings, scan, n).Some? ==>
              LoopState(db, settings, scan, |scan|, ReconcileFolders(p, settings, scan, n).value)
    decreases |scan| - n
  {
    hide LoopState, FolderOrder, ReconcileFolder, ReplacesCycle, Stale, ClearsCycle, Complete, FolderInvariant, Tracks,
         NoneReplacesCycle;
    if n < |scan| {
      LoopParts(db, settings, scan, n, p);
      EntryMeetsCycle(db, scan, n, p);
      var next := ReconcileFolder(p, settings, scan[n]);
      if next.Some? {
        LoopStep(db, settings, scan, n, p, next.value);
        FolderLoopMeetsCycle(db, settings, scan, n + 1, next.value);
      }
    }
  }

  lemma LoopParts(db: Db, settings: Settings, scan: seq<Entry>, n: nat, p: Progress)
    requires n <= |scan| && LoopState(db, settings, scan, n, p)
    ensures FolderInvariant(p, scan, n) && Tracks(db, scan, n, p) && NoneReplacesCycle(db, scan, n)
  {}

  // ----- the loops after it: folders only disappear -----

  /** Fewer folders, unchanged, and none missing from a cycle. */
  ghost predicate CyclesRemain(before: map<nat, Folder>, now: map<nat, Folder>) {
    && now.Keys <= before.Keys && (forall id :: id in now ==> now[id] == before[id])
    && (forall id :: OnCycle(before, id) ==> id in now)
  }

  lemma SameCycles(before: map<nat, Folder>, now: map<nat, Folder>, id: nat)
    requires CyclesRemain(before, now)
    ensures OnCycle(now, id) <==> OnCycle(before, id)
  {
    hide Cascade;
    if OnCycle(now, id) {
      SameCycle(now, before, id);
    }
    if OnCycle(before, id) {
      SameCycle(before, now, id);
    }
  }

  /** A deletion that ends takes no folder of a cycle. */
  lemma DeletionLeavesCycles(before: map<nat, Folder>, db: Db, row: Row, db': Db)
    requires CyclesRemain(before, db.folders) && DeleteFolderObject(db, row) == Some(db')
    ensures CyclesRemain(before, db'.folders)
  {
    hide Cascade;
    forall id | OnCycle(before, id) ensures id in db'.folders {
      SameCycles(before, db.folders, id);
      if row.id in db.folders && id in Cascade(db.folders, {row.id}) {
        RootIsOnCycle(db.folders, row.id, id);
        assert false;
      }
    }
  }

  ghost predicate SameFolderRows(rows: seq<Row>, now: seq<Row>) {
    forall row: Row :: row.kind == FOLDER ==> (row in now <==> row in rows)
  }

  /** The path is at or below one of the first k files, and a folder was mapped there. */
  ghost predicate Taken(rows: seq<Row>, files: seq<Entry>, k: nat, path: string)
    requires k <= |files|
  {
    exists i :: 0 <= i < k && TakesWith(rows, files[i], path)
  }

  ghost predicate TakesWith(rows: seq<Row>, f: Entry, path: string) {
    FolderIdAt(rows, f.path).Some? && (SameName(f.path, path) || Below(f.path, path))
  }

  lemma TakenByOne(rows: seq<Row>, files: seq<Entry>, k: nat, path: string)
    requires k < |files|
    ensures Taken(rows, files, k + 1, path) <==> Taken(rows, files, k, path) || TakesWith(rows, files[k], path)
  {
    hide TakesWith;
    if Taken(rows, files, k + 1, path) && !TakesWith(rows, files[k], path) {
      var i :| 0 <= i < k + 1 && TakesWith(rows, files[i], path);
      assert i < k;
    }
  }

  /** The tables after k files, compared with those after the folder loop. */
  ghost predicate Following(before: Db, files: seq<Entry>, k: nat, now: Db)
    requires k <= |files|
  {
    && Constraints(now) && CyclesRemain(before.folders, now.folders)
    && forall row: Row :: row.kind == FOLDER ==>
         (row in now.rows <==> row in before.rows && !Taken(before.rows, files, k, row.path))
  }

  /** No file lies above another file, and no two share a path. */
  lemma FileNotTaken(rows: seq<Row>, folders: seq<Entry>, files: seq<Entry>, i: nat, k: nat, path: string)
    requires FolderOrder(folders) && FileList(folders, files) && i < |files| && k < |files|
    requires SameName(files[k].path, path)
    ensures !Below(files[i].path, path)
    ensures i != k ==> !SameName(files[i].path, path)
  {
    hide Below;
    if Below(files[i].path, path) {
      SameNameReflexive(files[i].path);
      BelowSameName(files[i].path, files[i].path, files[k].path, path);
      AncestorOfListed(folders, files[k].path, files[i].path);
    }
  }

  lemma FolderAtFile(before: Db, folders: seq<Entry>, files: seq<Entry>, k: nat, now: Db)
    requires FolderOrder(folders) && FileList(folders, files) && k < |files|
    requires Constraints(before) && Following(before, files, k, now)
    ensures FolderIdAt(now.rows, files[k].path) == FolderIdAt(before.rows, files[k].path)
    ensures FolderIdAt(now.rows, files[k].path).Some? ==>
              RowAt(now.rows, files[k].path) == RowAt(before.rows, files[k].path)
  {
    hide CyclesRemain, FileList, FolderOrder, UniqueRows, Distinct, Bounded, Taken;
    var path := files[k].path;
    if FolderIdAt(now.rows, path).Some? {
      RowAtIs(before.rows, path, RowAt(now.rows, path).value);
    }
    if FolderIdAt(before.rows, path).Some? {
      var row := RowAt(before.rows, path).value;
      NotTakenAt(before.rows, folders, files, k, row.path);
      RowAtIs(now.rows, path, row);
    }
  }

  lemma NotTakenAt(rows: seq<Row>, folders: seq<Entry>, files: seq<Entry>, k: nat, path: string)
    requires FolderOrder(folders) && FileList(folders, files) && k < |files| && SameName(path, files[k].path)
    ensures !Taken(rows, files, k, path)
  {
    hide FileList, FolderOrder;
    forall i | 0 <= i < k ensures !TakesWith(rows, files[i], path) {
      SameNameSymmetric(path, files[k].path);
      FileNotTaken(rows, folders, files, i, k, path);
    }
  }

  lemma FollowingSame(before: Db, files: seq<Entry>, k: nat, now: Db, next: Db)
    requires k < |files| && Following(before, files, k, now) && FolderIdAt(before.rows, files[k].path).None?
    requires Constraints(next) && next.folders == now.folders && SameFolderRows(now.rows, next.rows)
    ensures Following(before, files, k + 1, next)
  {
    hide CyclesRemain, Constraints, Taken;
    forall row: Row | row.kind == FOLDER
      ensures row in next.rows <==> row in before.rows && !Taken(before.rows, files, k + 1, row.path)
    {
      TakenByOne(before.rows, files, k, row.path);
    }
  }

  lemma FollowingCleared(before: Db, files: seq<Entry>, k: nat, now: Db, row: Row, next: Db)
    requires k < |files| && Following(before, files, k, now)
    requires FolderIdAt(before.rows, files[k].path).Some? && SameName(row.path, files[k].path)
    requires DeleteFolderObject(now, row).Some? && Constraints(next)
    requires next.folders == DeleteFolderObject(now, row).value.folders
    requires SameFolderRows(DeleteFolderObject(now, row).value.rows, next.rows)
    ensures Following(before, files, k + 1, next)
  {
    DeletionLeavesCycles(before.folders, now, row, DeleteFolderObject(now, row).value);
    hide CyclesRemain, Constraints, Taken, Below, Cascade;
    forall r: Row | r.kind == FOLDER
      ensures r in next.rows <==> r in before.rows && !Taken(before.rows, files, k + 1, r.path)
    {
      TakenByOne(before.rows, files, k, r.path);
      SameNameReflexive(r.path);
      BelowSameName(row.path, files[k].path, r.path, r.path);
    }
  }

  lemma RelocatedFolderRows(rows: seq<Row>, id: nat, path: string, ident: Identity)
    requires Relocate(rows, FILE, id, path, ident).Some?
    ensures SameFolderRows(rows, Relocate(rows, FILE, id, path, ident).value)
  {
    var r := Relocate(rows, FILE, id, path, ident).value;
    forall row: Row | row.kind == FOLDER ensures row in r <==> row in rows {
      if row in rows {
        var i :| 0 <= i < |rows| && rows[i] == row;
        assert r[i] == row;
      }
      if row in r {
        var i :| 0 <= i < |r| && r[i] == row;
        assert rows[i] == row;
      }
    }
  }

  lemma ImportedFolderRows(p: Progress, settings: Settings, e: Entry, q: Progress)
    requires ImportSmbFile(p, settings, e) == Some(q)
    ensures q.db.folders == p.db.folders && SameFolderRows(p.db.rows, q.db.rows)
  {
    hide LookupParent, EnforceQuota, BaseName, RowAt;
  }

  /** What a step of the file loop does to folders and their mappings. */
  ghost predicate FileStepOnFolders(db: Db, e: Entry, next: Db) {
    var row := RowAt(db.rows, e.path);
    if row.Some? && row.value.kind == FOLDER then
      var cleared := DeleteFolderObject(db, row.value);
      cleared.Some? && next.folders == cleared.value.folders && SameFolderRows(cleared.value.rows, next.rows)
    else next.folders == db.folders && SameFolderRows(db.rows, next.rows)
  }

  lemma FileStepFolders(p: Progress, settings: Settings, known: map<nat, File>, e: Entry, q: Progress)
    requires ReconcileFile(p, settings, known, e) == Some(q)
    ensures FileStepOnFolders(p.db, e, q.db)
  {
    hide KeepFile, ReplaceMappedFile, ImportSmbFile, ReconcileFile, Relocate, DeleteFolderObject, SameFolderRows;
    var step := FileStepCases(p, settings, known, e, q);
    var row := RowAt(p.db.rows, e.path);
    match step
    case Skip => SameRowsAgain(p.db.rows);
    case Rewrite =>
      var file := KnownFile(known, p.db.files, row.value.id);
      var ident := e.ident;
      if KeepFile(p, settings, row.value, e, file) == Some(q) {
        KeepFileRewrites(p, settings, row.value, e, file, q);
      } else {
        ident := ReplaceFileRewrites(p, settings, row.value, e, file, q);
      }
      RelocatedFolderRows(p.db.rows, row.value.id, e.path, ident);
    case Import =>
      ImportedFolderRows(p.(db := ClearPath(p.db, row).value), settings, e, q);
  }

  lemma SameRowsAgain(rows: seq<Row>)
    ensures SameFolderRows(rows, rows)
  {}

  // ----- the file loop -----

  /** A folder mapped after the folder loop that the rest of the pass deletes by itself. */
  ghost predicate Exposed(p: Progress, files: seq<Entry>, row: Row) {
    && row in p.db.rows && row.kind == FOLDER && !BelowFile(p.db.rows, files, row.path)
    && (row.id !in p.seen || FolderAtSomeFile(p.db.rows, files, row))
  }

  ghost predicate FolderAtSomeFile(rows: seq<Row>, files: seq<Entry>, row: Row) {
    exists f :: f in files && RowAt(rows, f.path) == Some(row)
  }

  lemma ExposedAtFile(p: Progress, folders: seq<Entry>, files: seq<Entry>, k: nat)
    requires FolderOrder(folders) && FileList(folders, files) && k < |files|
    requires FolderIdAt(p.db.rows, files[k].path).Some?
    ensures Exposed(p, files, RowAt(p.db.rows, files[k].path).value)
  {
    hide FolderOrder, FileList, Below;
    var row := RowAt(p.db.rows, files[k].path).value;
    assert files[k] in files;
    forall f | f in files ensures !Below(f.path, row.path) {
      var i :| 0 <= i < |files| && files[i] == f;
      SameNameSymmetric(row.path, files[k].path);
      FileNotTaken(p.db.rows, folders, files, i, k, row.path);
    }
  }

  lemma FileStepFollows(before: Db, folders: seq<Entry>, files: seq<Entry>, k: nat, db: Db, next: Db)
    requires FolderOrder(folders) && FileList(folders, files) && k < |files|
    requires Constraints(before) && Following(before, files, k, db)
    requires Constraints(next) && FileStepOnFolders(db, files[k], next)
    ensures Following(before, files, k + 1, next)
  {
    hide FolderOrder, FileList, Following, Constraints, SameFolderRows, DeleteFolderObject;
    FolderAtFile(before, folders, files, k, db);
    var row := RowAt(db.rows, files[k].path);
    if row.Some? && row.value.kind == FOLDER {
      FollowingCleared(before, files, k, db, row.value, next);
    } else {
      FollowingSame(before, files, k, db, next);
    }
  }

  /** Two lists of files that differ in sizes only. */
  ghost predicate SamePaths(files: seq<Entry>, scan: seq<Entry>) {
    |scan| == |files| && forall j :: 0 <= j < |files| ==> scan[j].path == files[j].path
  }

  lemma ClearsAtFile(p: Progress, folders: seq<Entry>, files: seq<Entry>, k: nat, now: Db)
    requires FolderOrder(folders) && FileList(folders, files) && k < |files|
    requires Constraints(p.db) && Following(p.db, files, k, now)
    ensures ClearsCycle(now, files[k]) <==> ClearsCycle(p.db, files[k])
  {
    hide FolderOrder, FileList, Constraints, OnCycle;
    FolderAtFile(p.db, folders, files, k, now);
    if FolderIdAt(now.rows, files[k].path).Some? {
      SameCycles(p.db.folders, now.folders, RowAt(now.rows, files[k].path).value.id);
    }
  }

  ghost predicate NoFileClearsCycle(db: Db, files: seq<Entry>, k: nat)
    requires k <= |files|
  {
    forall j :: 0 <= j < k ==> !ClearsCycle(db, files[j])
  }

  lemma {:induction false} FileLoopMeetsCycle(
    p: Progress, settings: Settings, known: map<nat, File>, folders: seq<Entry>, files: seq<Entry>, scan: seq<Entry>,
        k: nat, now: Progress
  )
    requires FolderOrder(folders) && FileList(folders, files) && SamePaths(files, scan) && k <= |files|
    requires Constraints(p.db) && Following(p.db, files, k, now.db) && NoFileClearsCycle(p.db, files, k)
    ensures FilesMeetCycle(now, settings, known, scan, k) ==>
              exists row :: Exposed(p, files, row) && OnCycle(p.db.folders, row.id)
    ensures var q := ReconcileFiles(now, settings, known, scan, k);
            q.Some? ==> Following(p.db, files, |files|, q.value.db) && NoFileClearsCycle(p.db, files, |files|)
    decreases |files| - k
  {
    hide FolderOrder, FileList, Constraints, Following, ReconcileFile, Exposed, OnCycle, ClearsCycle;
    if k < |files| {
      assert scan[k].path == files[k].path;
      ClearsAtFile(p, folders, files, k, now.db);
      SameClears(now.db, scan[k], files[k]);
      var next := ReconcileFile(now, settings, known, scan[k]);
      if ClearsCycle(p.db, files[k]) {
        ExposedCycle(p, folders, files, k);
      }
      if next.Some? {
        FileStepFolders(now, settings, known, scan[k], next.value);
        FollowingConstraints(p.db, files, k, now.db);
        ReconcileFileConstraints(now, settings, known, scan[k], next.value);
        SameStep(now.db, scan[k], files[k], next.value.db);
        FileStepFollows(p.db, folders, files, k, now.db, next.value.db);
        StepClearsNoCycle(now.db, files[k], next.value.db);
        FileLoopMeetsCycle(p, settings, known, folders, files, scan, k + 1, next.value);
      }
    }
  }

  lemma SameClears(db: Db, e: Entry, f: Entry)
    requires e.path == f.path
    ensures ClearsCycle(db, e) <==> ClearsCycle(db, f)
  {}

  lemma SameStep(db: Db, e: Entry, f: Entry, next: Db)
    requires e.path == f.path && FileStepOnFolders(db, e, next)
    ensures FileStepOnFolders(db, f, next)
  {}

  lemma FollowingConstraints(before: Db, files: seq<Entry>, k: nat, now: Db)
    requires k <= |files| && Following(before, files, k, now)
    ensures Constraints(now)
  {}

  lemma StepClearsNoCycle(db: Db, e: Entry, next: Db)
    requires FileStepOnFolders(db, e, next)
    ensures !ClearsCycle(db, e)
  {}

  lemma ExposedCycle(p: Progress, folders: seq<Entry>, files: seq<Entry>, k: nat)
    requires FolderOrder(folders) && FileList(folders, files) && k < |files| && ClearsCycle(p.db, files[k])
    ensures exists row :: Exposed(p, files, row) && OnCycle(p.db.folders, row.id)
  {
    ExposedAtFile(p, folders, files, k);
  }

  // ----- file moves before, drops after -----

  lemma {:induction false} MoveFilesOnFolders(m: FileMoves, settings: Settings, stable: set<nat>, k: nat, r: FileMoves)
    requires k <= |m.scan| && MoveFiles(m, settings, stable, k) == Some(r)
    ensures r.db.folders == m.db.folders && SameFolderRows(m.db.rows, r.db.rows) && SamePaths(m.scan, r.scan)
    decreases |m.scan| - k
  {
    hide MoveFileFromSmb, Relocate;
    if k < |m.scan| {
      var moved := LastWithIdentity(m.db.rows, FILE, m.scan[k].ident);
      if !WantsMove(moved, stable, m.scan[k]) {
        MoveFilesOnFolders(m, settings, stable, k + 1, r);
      } else {
        var next := MoveFileFromSmb(m.db, settings, moved.value, m.scan[k]).value;
        MoveFileRewrites(m.db, settings, moved.value, m.scan[k], next);
        if next.moved {
          RelocatedFolderRows(m.db.rows, moved.value.id, m.scan[k].path, m.scan[k].ident);
        }
        MoveFilesOnFolders(FileMoves(next.db, m.scan[k := m.scan[k].(size := next.size)], m.clean && next.clean),
                           settings, stable, k + 1, r);
      }
    }
  }

  lemma {:induction false} DropFilesOnFolders(db: Db, pending: seq<Row>, seen: set<nat>)
    ensures DropFiles(db, pending, seen).folders == db.folders
    ensures SameFolderRows(db.rows, DropFiles(db, pending, seen).rows)
    decreases |pending|
  {
    if pending != [] {
      DropFilesOnFolders(if pending[0].id in seen then db else DeleteFileObject(db, pending[0].id), pending[1..], seen);
    }
  }

  ghost predicate PendingCycle(before: map<nat, Folder>, pending: seq<Row>, seen: set<nat>) {
    exists row :: row in pending && row.id !in seen && OnCycle(before, row.id)
  }

  lemma {:induction false} DropsMeetExactly(before: map<nat, Folder>, db: Db, pending: seq<Row>, seen: set<nat>)
    requires CyclesRemain(before, db.folders)
    ensures DropsMeetCycle(db, pending, seen) <==> PendingCycle(before, pending, seen)
    ensures DropFolders(db, pending, seen).Some? <==> !DropsMeetCycle(db, pending, seen)
    decreases |pending|
  {
    hide CyclesRemain, OnCycle, DeleteFolderObject;
    if pending != [] {
      var p, rest := pending[0], pending[1..];
      assert pending == [p] + rest;
      SameCycles(before, db.folders, p.id);
      EndsOffCycle(db, p);
      if p.id in seen {
        DropsMeetExactly(before, db, rest, seen);
      } else if !OnCycle(db.folders, p.id) {
        DeletionLeavesCycles(before, db, p, DeleteFolderObject(db, p).value);
        DropsMeetExactly(before, DeleteFolderObject(db, p).value, rest, seen);
      }
    }
  }

  lemma EndsOffCycle(db: Db, row: Row)
    ensures DeleteFolderObject(db, row).Some? <==> !OnCycle(db.folders, row.id)
  {}

  // ----- the rest of a pass -----

  /** The loops after the folder loop end, none of them throwing. */
  ghost predicate RestReturns(p: Progress, settings: Settings, files: seq<Entry>) {
    var moves := MoveFiles(FileMoves(p.db, files, p.clean), settings, StableMappings(p.db.rows, files, FILE), 0);
    moves.Some? &&
    var m := moves.value;
    var q := ReconcileFiles(Progress(m.db, {}, m.clean, p.hits), settings, m.db.files, m.scan, 0);
    q.Some? &&
    var kept := DropFiles(q.value.db, RowsOfKind(q.value.db.rows, FILE), q.value.seen);
    DropFolders(kept, Sort(RowsOfKind(kept.rows, FOLDER), ShallownessOf()), p.seen).Some?
  }

  lemma StartFollows(before: Db, files: seq<Entry>, now: Db)
    requires Constraints(now) && now.folders == before.folders && SameFolderRows(before.rows, now.rows)
    ensures Following(before, files, 0, now)
  {
    hide Constraints;
    forall id | OnCycle(before.folders, id) ensures id in now.folders {}
  }

  /** What is pending at the end: the exposed folders away from scanned files, and seen ones. */
  lemma PendingIsExposed(p: Progress, folders: seq<Entry>, files: seq<Entry>, now: Db, row: Row)
    requires FolderOrder(folders) && FileList(folders, files) && Following(p.db, files, |files|, now)
    requires row in now.rows && row.kind == FOLDER && row.id !in p.seen
    ensures Exposed(p, files, row)
  {
    hide FolderOrder, FileList, CyclesRemain, Constraints, Below;
    forall f | f in files ensures !TakesWith(p.db.rows, f, row.path) {
      var i :| 0 <= i < |files| && files[i] == f;
    }
  }

  lemma ExposedIsPending(p: Progress, files: seq<Entry>, now: Db, row: Row)
    requires Constraints(p.db) && Following(p.db, files, |files|, now) && Exposed(p, files, row)
    ensures row in now.rows || FolderAtSomeFile(p.db.rows, files, row)
  {
    hide CyclesRemain, Distinct, Bounded, Below;
    if row !in now.rows {
      var i :| 0 <= i < |files| && TakesWith(p.db.rows, files[i], row.path);
      assert files[i] in files;
      RowAtIs(p.db.rows, files[i].path, row);
    }
  }

  ghost predicate ExposedOnCycle(p: Progress, files: seq<Entry>) {
    exists row :: Exposed(p, files, row) && OnCycle(p.db.folders, row.id)
  }

  lemma DropsFollow(before: Db, files: seq<Entry>, now: Db, seen: set<nat>)
    requires Following(before, files, |files|, now)
    ensures Following(before, files, |files|, DropFiles(now, RowsOfKind(now.rows, FILE), seen))
  {
    hide CyclesRemain, Constraints, Taken;
    DropFilesOnFolders(now, RowsOfKind(now.rows, FILE), seen);
    DropFilesConstraints(now, RowsOfKind(now.rows, FILE), seen);
  }

  lemma DropsMeetExposed(p: Progress, folders: seq<Entry>, files: seq<Entry>, kept: Db)
    requires FolderOrder(folders) && FileList(folders, files) && Constraints(p.db)
    requires Following(p.db, files, |files|, kept) && NoFileClearsCycle(p.db, files, |files|)
    ensures var pending := Sort(RowsOfKind(kept.rows, FOLDER), ShallownessOf());
            && (DropsMeetCycle(kept, pending, p.seen) <==> ExposedOnCycle(p, files))
            && (DropFolders(kept, pending, p.seen).Some? <==> !ExposedOnCycle(p, files))
  {
    hide FolderOrder, FileList, Constraints, OnCycle, Exposed, CyclesRemain, Taken;
    var pending := Sort(RowsOfKind(kept.rows, FOLDER), ShallownessOf());
    SortMembers(RowsOfKind(kept.rows, FOLDER), ShallownessOf());
    DropsMeetExactly(p.db.folders, kept, pending, p.seen);
    if PendingCycle(p.db.folders, pending, p.seen) {
      var row :| row in pending && row.id !in p.seen && OnCycle(p.db.folders, row.id);
      PendingIsExposed(p, folders, files, kept, row);
    }
    if ExposedOnCycle(p, files) {
      var row :| Exposed(p, files, row) && OnCycle(p.db.folders, row.id);
      CycleIsPending(p, files, kept, row);
      assert row in pending;
    }
  }

  lemma CycleIsPending(p: Progress, files: seq<Entry>, kept: Db, row: Row)
    requires Constraints(p.db) && Following(p.db, files, |files|, kept) && NoFileClearsCycle(p.db, files, |files|)
    requires Exposed(p, files, row) && OnCycle(p.db.folders, row.id)
    ensures row in kept.rows && row.kind == FOLDER && row.id !in p.seen
  {
    hide Constraints, OnCycle, CyclesRemain, Taken;
    ExposedIsPending(p, files, kept, row);
    forall f | f in files ensures RowAt(p.db.rows, f.path) != Some(row) {
      var i :| 0 <= i < |files| && files[i] == f;
    }
  }

  /** The loops after the folder loop meet a cycle, or end, exactly according to the folders they
      find: those that are exposed. */
  lemma RestMeetsExposed(p: Progress, settings: Settings, folders: seq<Entry>, files: seq<Entry>)
    requires FolderOrder(folders) && FileList(folders, files) && Constraints(p.db)
    ensures RestMeetsCycle(p, settings, files) ==> ExposedOnCycle(p, files)
    ensures RestReturns(p, settings, files) ==> !ExposedOnCycle(p, files)
  {
    hide FolderOrder, FileList, Constraints, OnCycle, Exposed, MoveFiles, ReconcileFiles, FilesMeetCycle, DropFiles,
         DropFolders, DropsMeetCycle, Following;
    var stable := StableMappings(p.db.rows, files, FILE);
    var moves := MoveFiles(FileMoves(p.db, files, p.clean), settings, stable, 0);
    if moves.Some? {
      var m := moves.value;
      MoveFilesOnFolders(FileMoves(p.db, files, p.clean), settings, stable, 0, m);
      MoveFilesConstraints(FileMoves(p.db, files, p.clean), settings, stable, 0, m);
      StartFollows(p.db, files, m.db);
      var start := Progress(m.db, {}, m.clean, p.hits);
      FileLoopMeetsCycle(p, settings, m.db.files, folders, files, m.scan, 0, start);
      var q := ReconcileFiles(start, settings, m.db.files, m.scan, 0);
      if q.Some? {
        DropsFollow(p.db, files, q.value.db, q.value.seen);
        DropsMeetExposed(p, folders, files, DropFiles(q.value.db, RowsOfKind(q.value.db.rows, FILE), q.value.seen));
      }
    }
  }

  // ----- the folders that are exposed after the folder loop, and those left over before it -----

  lemma FileUnvisited(folders: seq<Entry>, files: seq<Entry>, f: Entry)
    requires FileList(folders, files) && f in files
    ensures Unvisited(folders, |folders|, f.path)
  {
    var j :| 0 <= j < |files| && files[j] == f;
  }

  lemma SweptFurther(rows: seq<Row>, scan: seq<Entry>, n: nat, p: string, path: string)
    requires n <= |scan| && Swept(rows, scan, n, p) && Below(p, path)
    ensures Swept(rows, scan, n, path)
  {
    hide Stale, Below;
    var i :| 0 <= i < n && Stale(rows, scan[i]) && Below(scan[i].path, p);
    BelowTransitive(scan[i].path, p, path);
  }

  lemma LeftOverIsExposed(db: Db, folders: seq<Entry>, files: seq<Entry>, p: Progress, row: Row)
    requires FileList(folders, files)
    requires UniqueRows(db.rows) && RowsTracked(db.rows, folders, |folders|, p.db.rows)
    requires UniqueRows(p.db.rows) && FoldersSettled(p.db, folders, |folders|, p.seen)
    requires row in db.rows && LeftOver(db.rows, folders, files, row)
    ensures Exposed(p, files, row)
  {
    hide Below, Swept, FoldersSettled, FileList;
    RowAtIs(db.rows, row.path, row);
    assert Unvisited(folders, |folders|, row.path);
    ElsewhereUnseen(p.db, folders, |folders|, p.seen, row);
    forall f | f in files ensures !(FolderIdAt(p.db.rows, f.path).Some? && Below(f.path, row.path)) {
      FileUnvisited(folders, files, f);
    }
  }

  /** Whoever is exposed is not at a scanned folder's path. */
  lemma ExposedIsUnvisited(folders: seq<Entry>, files: seq<Entry>, p: Progress, row: Row)
    requires FileList(folders, files) && UniqueRows(p.db.rows) && FoldersSettled(p.db, folders, |folders|, p.seen)
    requires Exposed(p, files, row)
    ensures Unvisited(folders, |folders|, row.path)
  {
    forall i | 0 <= i < |folders| ensures !SameName(folders[i].path, row.path) {
      assert Settled(p.db.rows, folders[i], FOLDER, p.seen);
      forall f | f in files && RowAt(p.db.rows, f.path) == Some(row) ensures !SameName(folders[i].path, row.path) {
        FileUnvisited(folders, files, f);
      }
    }
  }

  lemma ExposedIsLeftOver(db: Db, folders: seq<Entry>, files: seq<Entry>, p: Progress, row: Row)
    requires FileList(folders, files)
    requires UniqueRows(db.rows) && RowsTracked(db.rows, folders, |folders|, p.db.rows)
    requires UniqueRows(p.db.rows) && FoldersSettled(p.db, folders, |folders|, p.seen)
    requires Exposed(p, files, row)
    ensures row in db.rows && LeftOver(db.rows, folders, files, row) && row.id !in p.seen
  {
    ExposedIsUnvisited(folders, files, p, row);
    hide Below, Swept, FoldersSettled, FileList;
    RowAtIs(p.db.rows, row.path, row);
    ElsewhereUnseen(p.db, folders, |folders|, p.seen, row);
    forall f | f in files ensures !(FolderIdAt(db.rows, f.path).Some? && Below(f.path, row.path)) {
      FileUnvisited(folders, files, f);
      if Below(f.path, row.path) && Swept(db.rows, folders, |folders|, f.path) {
        SweptFurther(db.rows, folders, |folders|, f.path, row.path);
      }
    }
  }

  /** After a folder loop that met no cycle: a folder is exposed on a cycle exactly when one was left
      over on a cycle of folders that are not kept. */
  lemma ExposedWasForeseen(db: Db, settings: Settings, folders: seq<Entry>, files: seq<Entry>, p: Progress)
    requires Complete(db) && UniqueRows(db.rows) && FolderOrder(folders) && FileList(folders, files)
    requires LoopState(db, settings, folders, |folders|, p)
    ensures ExposedOnCycle(p, files) <==> ParentCycle(db, folders, files)
  {
    hide FoldersSettled, FilesLinked, FolderOrder, FileList, OnCycle, Exposed, LeftOver, KeptIds, Constraints,
         ReplacesCycle, FoldersTracked, RowsTracked, UniqueRows;
    CompleteIsBounded(db);
    SeenAreKept(db, folders, |folders|, p.seen);
    SeenParentsSeen(p, folders, |folders|);
    var n := |folders|;
    if ExposedOnCycle(p, files) {
      var row :| Exposed(p, files, row) && OnCycle(p.db.folders, row.id);
      ExposedIsLeftOver(db, folders, files, p, row);
      CycleWasThere(db, folders, n, p.db.folders, p.seen, row.id);
    }
    if ParentCycle(db, folders, files) {
      var row :| row in db.rows && LeftOver(db.rows, folders, files, row)
          && OnCycle(db.folders - KeptIds(db.rows, folders, n), row.id);
      LeftOverIsExposed(db, folders, files, p, row);
      CycleIsThere(db, folders, n, p.db.folders, p.seen, row.id);
    }
  }

  // ----- the result -----

  lemma RoomAtStart(db: Db, settings: Settings, scan: seq<Entry>)
    requires Consistent(db) && ValidScan(scan) && RoomForAll(db, settings, scan) && MovesOf(db, scan).Some?
    ensures var moved := MovesOf(db, scan).value.db;
            && Complete(moved) && UniqueRows(moved.rows)
            && LoopState(moved, settings, ScanFolders(scan), 0, Progress(moved, {}, true, true))
  {
    hide MoveFolders, Consistent, Complete, MoveInvariant, ValidScan, FolderOrder;
    var folders := ScanFolders(scan);
    var stable := StableMappings(db.rows, folders, FOLDER);
    ScanFoldersOrdered(scan);
    ConsistentIsComplete(db);
    MoveFoldersKeep(db, stable, folders, 0, false);
    MoveFoldersComplete(db, stable, folders, 0, false);
    MoveFoldersSize(db, stable, folders, 0, false);
    LoopStart(MovesOf(db, scan).value.db, settings, folders);
  }

  lemma LoopStart(db: Db, settings: Settings, folders: seq<Entry>)
    requires MoveInvariant(db) && |db.folders| + |folders| <= settings.maxFolders
    ensures LoopState(db, settings, folders, 0, Progress(db, {}, true, true)) && UniqueRows(db.rows)
  {
    hide Stale;
  }

  lemma {:induction false} MoveFoldersSize(db: Db, stable: set<nat>, scan: seq<Entry>, k: nat, nested: bool)
    requires k <= |scan| && MoveFolders(db, stable, scan, k, nested).Some?
    ensures |MoveFolders(db, stable, scan, k, nested).value.db.folders| == |db.folders|
    decreases |scan| - k
  {
    hide MoveFolderFromSmb, LastWithIdentity;
    if k < |scan| {
      var moved := LastWithIdentity(db.rows, FOLDER, scan[k].ident);
      if !WantsMove(moved, stable, scan[k]) {
        MoveFoldersSize(db, stable, scan, k + 1, nested);
      } else {
        var r := MoveFolderFromSmb(db, moved.value, scan[k]).value;
        if r.moved {
          MoveFolderTables(db, moved.value, scan[k]);
          assert |r.db.folders| == |r.db.folders.Keys| && |db.folders| == |db.folders.Keys|;
        } else {
          UnmovedSame(db, moved.value, scan[k]);
        }
        MoveFoldersSize(r.db, stable, scan, k + 1, nested || (r.moved && Below(moved.value.path, scan[k].path)));
      }
    }
  }

  lemma ReturnsInParts(db: Db, settings: Settings, scan: seq<Entry>)
    ensures SyncProjection(db, settings, scan).Some? <==>
              && MovesOf(db, scan).Some?
              && var p := ReconcileFolders(Progress(MovesOf(db, scan).value.db, {}, true, true), settings,
                                           ScanFolders(scan), 0);
                 p.Some? && RestReturns(p.value, settings, ScanFiles(scan))
  {
    hide MoveFolders, ReconcileFolders, MoveFiles, ReconcileFiles, DropFiles, DropFolders, ScanFolders, ScanFiles;
  }

  /** With room for every scanned folder, a pass that meets a cycle was bound to, and a pass that
      was bound to does not return: among the passes that do not throw, exactly those meet a cycle
      of which the tables and the scan say so beforehand. */
  lemma CyclesAreForeseen(db: Db, settings: Settings, scan: seq<Entry>)
    requires Consistent(db) && ValidScan(scan) && RoomForAll(db, settings, scan)
    ensures PassMeetsCycle(db, settings, scan) ==> CycleForeseen(db, scan)
    ensures SyncProjection(db, settings, scan).Some? ==> !CycleForeseen(db, scan)
  {
    hide MoveFolders, ReconcileFolders, Consistent, ValidScan, Complete, LoopState, FolderOrder, FileList,
         ReplacesCycle, FoldersMeetCycle, RestMeetsCycle, RestReturns, ExposedOnCycle, SyncProjection, ScanFolders,
         ScanFiles;
    ReturnsInParts(db, settings, scan);
    if MovesOf(db, scan).Some? {
      var folders, files, moved := ScanFolders(scan), ScanFiles(scan), MovesOf(db, scan).value.db;
      ScanFoldersOrdered(scan);
      ScanFilesListed(scan);
      RoomAtStart(db, settings, scan);
      var start := Progress(moved, {}, true, true);
      FolderLoopMeetsCycle(moved, settings, folders, 0, start);
      var p := ReconcileFolders(start, settings, folders, 0);
      if p.Some? {
        ExposedWasForeseen(moved, settings, folders, files, p.value);
        LoopConstraints(moved, settings, folders, |folders|, p.value);
        RestMeetsExposed(p.value, settings, folders, files);
      }
    }
  }

  lemma LoopConstraints(db: Db, settings: Settings, scan: seq<Entry>, n: nat, p: Progress)
    requires n <= |scan| && LoopState(db, settings, scan, n, p)
    ensures Constraints(p.db)
  {}

  /** The same as one equivalence, for a pass that returns or meets a cycle. */
  lemma MeetsExactlyForeseen(db: Db, settings: Settings, scan: seq<Entry>)
    requires Consistent(db) && ValidScan(scan) && RoomForAll(db, settings, scan)
    requires SyncProjection(db, settings, scan).Some? || PassMeetsCycle(db, settings, scan)
    ensures PassMeetsCycle(db, settings, scan) <==> CycleForeseen(db, scan)
    ensures SyncProjection(db, settings, scan).Some? <==> !CycleForeseen(db, scan)
  {
    hide SyncProjection, PassMeetsCycle, CycleForeseen, Consistent, ValidScan;
    CyclesAreForeseen(db, settings, scan);
  }

  // ----- the folder loop otherwise returns -----

  lemma {:induction false} SiblingCount(folders: map<nat, Folder>, parent: Option<nat>, excluded: Option<nat>)
    ensures |SiblingNames(folders, parent, excluded)| <= |folders|
    decreases |folders|
  {
    if folders == map[] {
      assert SiblingNames(folders, parent, excluded) == {};
    } else {
      var id :| id in folders;
      var fewer := folders - {id};
      SiblingCount(fewer, parent, excluded);
      assert SiblingNames(folders, parent, excluded) <= SiblingNames(fewer, parent, excluded)
          + {Lower(folders[id].name)};
      Names.SubsetSize(SiblingNames(folders, parent, excluded),
                       SiblingNames(fewer, parent, excluded) + {Lower(folders[id].name)});
      assert |fewer| == |fewer.Keys| == |folders.Keys - {id}| == |folders| - 1;
    }
  }

  /** With fewer than 9,999 folders every search for a folder name succeeds. */
  lemma NameIsFound(folders: map<nat, Folder>, parent: Option<nat>, desired: string, excluded: Option<nat>)
    requires |folders| < Names.MAX_ATTEMPTS - 1
    ensures UniqueFolderName(folders, parent, desired, excluded).Some?
  {
    hide SiblingNames, Names.Candidates;
    SiblingCount(folders, parent, excluded);
    var taken := SiblingNames(folders, parent, excluded);
    var conflicting := Names.Conflicting(NameBase(desired), Names.MAX_FOLDER_NAME_LENGTH, taken);
    Names.SubsetSize(conflicting, taken);
    FolderNameIsFound(folders, parent, desired, excluded);
  }

  lemma KeepReturns(p: Progress, row: Row, e: Entry)
    requires UniqueRows(p.db.rows) && RowAt(p.db.rows, e.path) == Some(row) && row.kind == FOLDER
    requires |p.db.folders| < Names.MAX_ATTEMPTS - 1
    requires LookupParent(p.db.rows, e.path).FoundParent?
    requires ParentExists(p.db.folders, LookupParent(p.db.rows, e.path).folder)
    ensures KeepFolder(p, row, e).Some?
  {
    hide UniqueFolderName, LookupParent, BaseName;
    var parent := LookupParent(p.db.rows, e.path).folder;
    NameIsFound(p.db.folders, parent, BaseName(e.path), Some(row.id));
    assert forall b :: b in p.db.rows && SameName(b.path, e.path) ==> b == row;
  }

  lemma CreateReturns(p: Progress, settings: Settings, e: Entry)
    requires |p.db.folders| < Names.MAX_ATTEMPTS - 1
    requires LookupParent(p.db.rows, e.path).FoundParent?
    requires ParentExists(p.db.folders, LookupParent(p.db.rows, e.path).folder)
    ensures CreateFolder(p, settings, e).Some?
  {
    hide UniqueFolderName, LookupParent, BaseName, NameTaken, RowAt;
    NameIsFound(p.db.folders, LookupParent(p.db.rows, e.path).folder, BaseName(e.path), None);
  }

  lemma ClearReturns(db: Db, row: Option<Row>)
    requires row.Some? && row.value.kind == FOLDER ==> !OnCycle(db.folders, row.value.id)
    ensures ClearPath(db, row).Some?
  {}

  /** While every folder seen so far exists, an entry throws only for a cycle. */
  lemma EntryReturns(p: Progress, settings: Settings, scan: seq<Entry>, n: nat)
    requires FolderOrder(scan) && n < |scan| && FolderInvariant(p, scan, n) && p.hits
    requires |p.db.folders| < Names.MAX_ATTEMPTS - 1
    requires !(Stale(p.db.rows, scan[n]) && ClearsCycle(p.db, scan[n]))
    ensures ReconcileFolder(p, settings, scan[n]).Some?
  {
    hide FoldersSettled, KeepFolder, CreateFolder, ClearPath, LookupParent, Bounded, FilesLinked, UniqueRows, OnCycle;
    var e, row := scan[n], RowAt(p.db.rows, scan[n].path);
    assert !TopLevel(e.path) ==> ParentBefore(scan, n);
    SettledParent(p.db, scan, n, p.seen, e.path);
    if row.Some? && row.value.kind == FOLDER && SameIdentity(row.value.ident, e.ident) {
      KeepReturns(p, row.value, e);
    } else {
      ClearReturns(p.db, row);
      var cleared := ClearPath(p.db, row).value;
      ClearFolderPath(p.db, p.seen, scan, n, cleared);
      SettledParent(cleared, scan, n, p.seen, e.path);
      ClearedKeys(p.db, row, cleared);
      CreateReturns(p.(db := cleared), settings, e);
    }
  }

  lemma {:induction false} FolderLoopReturns(db: Db, settings: Settings, scan: seq<Entry>, n: nat, p: Progress)
    requires Complete(db) && FolderOrder(scan) && n <= |scan| && LoopState(db, settings, scan, n, p)
    requires !Orphans(db, scan) && |p.db.folders| + (|scan| - n) < Names.MAX_ATTEMPTS - 1
    ensures FoldersMeetCycle(p, settings, scan, n) || ReconcileFolders(p, settings, scan, n).Some?
    decreases |scan| - n
  {
    hide LoopState, FolderOrder, ReconcileFolder, Stale, ClearsCycle, Complete, FolderInvariant, Orphans;
    if n < |scan| {
      LoopParts(db, settings, scan, n, p);
      NoneLostYet(db, scan, n, p);
      if !(Stale(p.db.rows, scan[n]) && ClearsCycle(p.db, scan[n])) {
        EntryReturns(p, settings, scan, n);
        var next := ReconcileFolder(p, settings, scan[n]).value;
        FoldersGrowByOne(p, settings, scan[n], next);
        LoopStep(db, settings, scan, n, p, next);
        FolderLoopReturns(db, settings, scan, n + 1, next);
      }
    }
  }

  lemma NoneLostYet(db: Db, scan: seq<Entry>, n: nat, p: Progress)
    requires n <= |scan| && Tracks(db, scan, n, p) && !Orphans(db, scan)
    ensures p.hits
  {
    hide LostBeforeKept, RowsTracked, FoldersTracked, SeenTracked;
  }

  /** With room for every folder and its name, and no kept folder taken along, a pass that got
      through its folder moves throws in no folder loop: it meets a cycle or reaches its file loops. */
  lemma FolderStageReturns(db: Db, settings: Settings, scan: seq<Entry>)
    requires Consistent(db) && ValidScan(scan) && RoomForAll(db, settings, scan)
    requires |db.folders| + |ScanFolders(scan)| < Names.MAX_ATTEMPTS - 1
    requires MovesOf(db, scan).Some? && !OrphansFolder(db, scan)
    ensures var start := Progress(MovesOf(db, scan).value.db, {}, true, true);
            FoldersMeetCycle(start, settings, ScanFolders(scan), 0)
            || ReconcileFolders(start, settings, ScanFolders(scan), 0).Some?
  {
    hide MoveFolders, Consistent, ValidScan, Complete, LoopState, FolderOrder, Orphans, FoldersMeetCycle,
         ReconcileFolders, ScanFolders;
    ScanFoldersOrdered(scan);
    RoomAtStart(db, settings, scan);
    MoveFoldersSize(db, StableMappings(db.rows, ScanFolders(scan), FOLDER), ScanFolders(scan), 0, false);
    FolderLoopReturns(MovesOf(db, scan).value.db, settings, ScanFolders(scan), 0,
                      Progress(MovesOf(db, scan).value.db, {}, true, true));
  }

  /** Without files a pass has nothing else to do: it meets a cycle exactly when one is foreseen,
      and returns exactly otherwise. */
  lemma FolderScanMeetsExactly(db: Db, settings: Settings, scan: seq<Entry>)
    requires Consistent(db) && ValidScan(scan) && RoomForAll(db, settings, scan)
    requires |db.folders| + |ScanFolders(scan)| < Names.MAX_ATTEMPTS - 1
    requires MovesOf(db, scan).Some? && !OrphansFolder(db, scan) && ScanFiles(scan) == []
    ensures PassMeetsCycle(db, settings, scan) <==> CycleForeseen(db, scan)
    ensures SyncProjection(db, settings, scan).Some? <==> !CycleForeseen(db, scan)
  {
    hide MoveFolders, Consistent, ValidScan, Complete, LoopState, FolderOrder, FoldersMeetCycle, ReconcileFolders,
         ScanFolders, ScanFiles, RestMeetsCycle, RestReturns, CycleForeseen, OrphansFolder, SyncProjection,
         ReplacesCycle, FileList, Constraints;
    var folders, moved := ScanFolders(scan), MovesOf(db, scan).value.db;
    var start := Progress(moved, {}, true, true);
    CyclesAreForeseen(db, settings, scan);
    FolderStageReturns(db, settings, scan);
    ReturnsInParts(db, settings, scan);
    ScanFoldersOrdered(scan);
    ScanFilesListed(scan);
    RoomAtStart(db, settings, scan);
    FolderLoopMeetsCycle(moved, settings, folders, 0, start);
    var p := ReconcileFolders(start, settings, folders, 0);
    if p.Some? {
      LoopConstraints(moved, settings, folders, |folders|, p.value);
      EmptyRestEnds(p.value, settings, folders);
    }
  }

  lemma EmptyRestEnds(p: Progress, settings: Settings, folders: seq<Entry>)
    requires FolderOrder(folders) && FileList(folders, []) && Constraints(p.db)
    ensures RestMeetsCycle(p, settings, []) || RestReturns(p, settings, [])
  {
    hide FolderOrder, FileList, Constraints, ExposedOnCycle, DropFiles, DropFolders, DropsMeetCycle, Following;
    StartFollows(p.db, [], p.db);
    DropsFollow(p.db, [], p.db, {});
    DropsMeetExposed(p, folders, [], DropFiles(p.db, RowsOfKind(p.db.rows, FILE), {}));
  }

  // ----- no cycle below folders that are in their places -----

  /** Where every mapped folder lies in the folder mapped at its parent path, none is on a cycle. */
  lemma LinkedIsOffCycle(db: Db, row: Row)
    requires UniqueRows(db.rows) && AllLinked(db) && row in db.rows && row.kind == FOLDER
    ensures !OnCycle(db.folders, row.id)
  {
    hide AllLinked, UniqueRows, OnCycle;
    ChainReachesRoot(db, row);
    var n := OnCycleReturns(db.folders, row.id);
  }

  lemma {:induction false} LinkedLoopMeetsNoCycle(p: Progress, settings: Settings, scan: seq<Entry>, k: nat)
    requires k <= |scan| && LinkInvariant(p.db)
    ensures !FoldersMeetCycle(p, settings, scan, k)
    ensures var q := ReconcileFolders(p, settings, scan, k); q.Some? ==> LinkInvariant(q.value.db)
    decreases |scan| - k
  {
    hide LinkInvariant, ReconcileFolder;
    if k < |scan| {
      LinkedEntry(p.db, scan[k]);
      var next := ReconcileFolder(p, settings, scan[k]);
      if next.Some? {
        ReconcileFolderKeepsLinks(p, settings, scan[k]);
        LinkedLoopMeetsNoCycle(next.value, settings, scan, k + 1);
      }
    }
  }

  lemma LinkedEntry(db: Db, e: Entry)
    requires LinkInvariant(db)
    ensures !ClearsCycle(db, e)
  {
    hide OnCycle, AllLinked, UniqueRows;
    var row := RowAt(db.rows, e.path);
    if row.Some? && row.value.kind == FOLDER {
      LinkedIsOffCycle(db, row.value);
    }
  }

  lemma LinkedRestMeetsNoCycle(p: Progress, settings: Settings, folders: seq<Entry>, files: seq<Entry>)
    requires FolderOrder(folders) && FileList(folders, files) && Constraints(p.db) && LinkInvariant(p.db)
    ensures !RestMeetsCycle(p, settings, files)
  {
    hide FolderOrder, FileList, Constraints, OnCycle, AllLinked, UniqueRows, RestMeetsCycle, RestReturns;
    RestMeetsExposed(p, settings, folders, files);
    if ExposedOnCycle(p, files) {
      var row :| Exposed(p, files, row) && OnCycle(p.db.folders, row.id);
      LinkedIsOffCycle(p.db, row);
    }
  }

  lemma LinkedForeseesNoCycle(db: Db, folders: seq<Entry>, files: seq<Entry>)
    requires UniqueRows(db.rows) && AllLinked(db)
    ensures !ParentCycle(db, folders, files)
  {
    hide OnCycle, AllLinked, UniqueRows, KeptIds, LeftOver, Swept;
    forall row, kept: set<nat> | row in db.rows && row.kind == FOLDER ensures !OnCycle(db.folders - kept, row.id) {
      LinkedIsOffCycle(db, row);
      if OnCycle(db.folders - kept, row.id) {
        SubCycle(db.folders, kept, row.id);
      }
    }
    forall j | 0 <= j < |folders| ensures !ReplacesCycle(db, folders, j) {
      if Replaced(db.rows, folders, j) {
        assert RowAt(db.rows, folders[j].path).value in db.rows;
      }
    }
    forall row | row in db.rows && LeftOver(db.rows, folders, files, row)
      ensures !OnCycle(db.folders - KeptIds(db.rows, folders, |folders|), row.id)
    {
      LeftOverIsFolder(db.rows, folders, files, row);
    }
  }

  lemma LeftOverIsFolder(rows: seq<Row>, folders: seq<Entry>, files: seq<Entry>, row: Row)
    requires LeftOver(rows, folders, files, row)
    ensures row.kind == FOLDER
  {}

  lemma SubCycle(folders: map<nat, Folder>, kept: set<nat>, id: nat)
    requires OnCycle(folders - kept, id)
    ensures OnCycle(folders, id)
  {
    SameCycle(folders - kept, folders, id);
  }

  /** When every scanned folder above a moved one is in its place or new, no pass meets a cycle,
      whatever the limits, and none is foreseen. */
  lemma AnchoredPassMeetsNoCycle(db: Db, settings: Settings, scan: seq<Entry>)
    requires ValidScan(scan) && Consistent(db) && MovesAnchored(db, scan)
    ensures !PassMeetsCycle(db, settings, scan) && !CycleForeseen(db, scan)
  {
    hide MoveFolders, ReconcileFolders, ValidScan, Consistent, MoveInvariant, FolderOrder, FileList, AllLinked,
         Complete, FoldersMeetCycle, RestMeetsCycle, ParentCycle, ScanFolders, ScanFiles, MovesAnchored, UniqueRows,
         Distinct, Bounded;
    if MovesOf(db, scan).Some? {
      var folders, files, moved := ScanFolders(scan), ScanFiles(scan), MovesOf(db, scan).value.db;
      ScanFoldersOrdered(scan);
      ScanFilesListed(scan);
      AnchoredMovesKeepLinks(db, scan);
      LinkedForeseesNoCycle(moved, folders, files);
      var start := Progress(moved, {}, true, true);
      LinkedLoopMeetsNoCycle(start, settings, folders, 0);
      var p := ReconcileFolders(start, settings, folders, 0);
      if p.Some? {
        ReconcileFoldersConstraints(start, settings, folders, 0, p.value);
        LinkedRestMeetsNoCycle(p.value, settings, folders, files);
      }
    }
  }
}

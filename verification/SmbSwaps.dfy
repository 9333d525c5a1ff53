/** Two folders that swapped names end a pass in a UNIQUE error. */
module SmbSwaps {
  import opened Wrappers
  import opened Text
  import opened Sorting
  import opened SmbTables
  import opened SmbSync
  import opened SmbMoves
  import opened SmbScan
  import opened SmbSettling
  import opened SmbLinks
  import opened SmbAnchors
  import opened SmbAgreement
  import opened SmbNested

  /** e is where the folder of row a lies now, at the mapped path of row b; no other row or
      scanned folder has its inode. */
  ghost predicate TakesPlaceOf(rows: seq<Row>, scan: seq<Entry>, a: Row, b: Row, e: Entry) {
    && a in rows && b in rows && a != b && a.kind == b.kind == FOLDER && e in scan
    && SameIdentity(a.ident, e.ident) && SameName(b.path, e.path)
    && (forall row :: row in rows && row.kind == FOLDER && SameIdentity(row.ident, e.ident) ==> row == a)
    && (forall x :: x in scan && x.ident == e.ident ==> x == e)
  }

  ghost predicate Swapped(rows: seq<Row>, scan: seq<Entry>, a: Row, b: Row, e: Entry, f: Entry) {
    TakesPlaceOf(rows, scan, a, b, e) && TakesPlaceOf(rows, scan, b, a, f)
  }

  lemma LastIs(rows: seq<Row>, a: Row, ident: Identity)
    requires a in rows && a.kind == FOLDER && SameIdentity(a.ident, ident)
    requires forall row :: row in rows && row.kind == FOLDER && SameIdentity(row.ident, ident) ==> row == a
    ensures LastWithIdentity(rows, FOLDER, ident) == Some(a)
  {}

  /** The row's own place is taken by another inode, so it is to be moved. */
  lemma SwappedMoves(rows: seq<Row>, scan: seq<Entry>, a: Row, b: Row, e: Entry)
    requires FolderOrder(scan) && UniqueRows(rows) && TakesPlaceOf(rows, scan, a, b, e)
    requires exists f :: f in scan && SameName(a.path, f.path) && f.ident != a.ident
    ensures Moves(rows, scan, e) && a.id !in StableMappings(rows, scan, FOLDER)
  {
    LastIs(rows, a, e.ident);
    var f :| f in scan && SameName(a.path, f.path) && f.ident != a.ident;
    var last := LastAt(scan, a.path);
    SamePathSameEntry(scan, last.value, f);
    if SameName(a.path, e.path) {
      assert false;
    }
  }

  /** Rows of the initial table whose identities nobody shares keep them to themselves. */
  lemma UniqueIdentityStays(rows: seq<Row>, now: seq<Row>, a: Row, ident: Identity)
    requires SameObjects(rows, now) && UniqueRows(rows) && UniqueRows(now) && a in rows && a in now
    requires forall row :: row in rows && row.kind == FOLDER && SameIdentity(row.ident, ident) ==> row == a
    ensures forall row :: row in now && row.kind == FOLDER && SameIdentity(row.ident, ident) ==> row == a
  {
    forall row | row in now && row.kind == FOLDER && SameIdentity(row.ident, ident) ensures row == a {
      var i :| 0 <= i < |now| && now[i] == row;
      assert rows[i] in rows && rows[i] == a;
      assert IsKey(row, a.kind, a.id);
    }
  }

  /** The tables before the swapped folders are visited: both rows are where they were. */
  ghost predicate Waiting(rows: seq<Row>, scan: seq<Entry>, db: Db, a: Row, b: Row) {
    MoveInvariant(db) && SameObjects(rows, db.rows) && AnchorsHold(rows, scan, db.rows) && a in db.rows && b in db.rows
  }

  /** The folder's new path is mapped to the other one, under a parent that is in its place. */
  lemma SwappedMoveThrows(db0: Db, scan: seq<Entry>, db: Db, a: Row, b: Row, e: Entry)
    requires Consistent(db0) && FolderOrder(scan) && Anchored(db0.rows, scan) && Waiting(db0.rows, scan, db, a, b)
    requires TakesPlaceOf(db0.rows, scan, a, b, e) && Moves(db0.rows, scan, e)
    ensures MoveFolderFromSmb(db, a, e).None?
  {
    hide StableMappings, UniqueFolderName, AnchorsHold, Anchored, SameObjects, FilesLinked, Below, UpdateFolder;
    ParentInPlace(db0, scan, db.rows, b, e);
    MoveOntoMappedPathFails(db.rows, a, b, e.path, e.ident);
  }

  lemma ParentInPlace(db0: Db, scan: seq<Entry>, now: seq<Row>, b: Row, e: Entry)
    requires Consistent(db0) && FolderOrder(scan) && Anchored(db0.rows, scan) && AnchorsHold(db0.rows, scan, now)
    requires b in db0.rows && b.kind == FOLDER && e in scan && SameName(b.path, e.path) && Moves(db0.rows, scan, e)
    ensures LookupParent(now, e.path).FoundParent?
  {
    hide StableMappings, Below, SameName, Moves;
    if !TopLevel(e.path) {
      var j :| 0 <= j < |scan| && scan[j] == e;
      assert ParentBefore(scan, j);
      var i :| 0 <= i < j && scan[i].path == Parent(e.path);
      ParentBelow(e.path);
      assert AboveMoved(db0.rows, scan, scan[i]);
      assert Linked(db0, b);
      SameParent(b.path, e.path);
      RowAtSameName(db0.rows, Parent(b.path), Parent(e.path));
    }
  }

  lemma SwappedStep(db0: Db, scan: seq<Entry>, db: Db, a: Row, b: Row, e: Entry)
    requires Consistent(db0) && FolderOrder(scan) && Anchored(db0.rows, scan) && Waiting(db0.rows, scan, db, a, b)
    requires TakesPlaceOf(db0.rows, scan, a, b, e) && Moves(db0.rows, scan, e)
    ensures var moved := LastWithIdentity(db.rows, FOLDER, e.ident);
            && WantsMove(moved, StableMappings(db0.rows, scan, FOLDER), e)
                && MoveFolderFromSmb(db, moved.value, e).None?
  {
    hide StableMappings, Anchored, AnchorsHold, FolderOrder, MoveFolderFromSmb;
    SwappedMoveThrows(db0, scan, db, a, b, e);
    UniqueIdentityStays(db0.rows, db.rows, a, e.ident);
    LastIs(db0.rows, a, e.ident);
    LastIs(db.rows, a, e.ident);
  }

  /** A move of another folder leaves the row of a where it is. */
  lemma OtherMoveLeaves(
    db0: Db, db: Db, scan: seq<Entry>, k: nat, moved: Row, db': Db, a: Row, b: Row, e: Entry, f: Entry
  )
    requires FolderOrder(scan) && UniqueRows(db0.rows) && Anchored(db0.rows, scan) && k < |scan|
    requires Waiting(db0.rows, scan, db, a, b) && MovedFolder(db, db', moved, scan[k])
    requires LastWithIdentity(db.rows, FOLDER, scan[k].ident) == Some(moved)
    requires moved.id !in StableMappings(db0.rows, scan, FOLDER)
    requires TakesPlaceOf(db0.rows, scan, a, b, e) && TakesPlaceOf(db0.rows, scan, b, a, f)
    requires Moves(db0.rows, scan, f) && scan[k] != e
    ensures a in db'.rows
  {
    hide StableMappings, Anchored, AnchorsHold, FolderOrder, SameObjects, FilesLinked, Bounded, Moves, Below, SameName;
    var j :| 0 <= j < |scan| && scan[j] == f;
    MovedIsNotAbove(db0.rows, scan, db.rows, moved, j);
    SameNameReflexive(moved.path);
    BelowSameName(moved.path, moved.path, a.path, f.path);
    OnlyMovedKey(db.rows, moved, a);
    RebasedMember(db.rows, moved, scan[k].path, scan[k].ident, db'.rows, a);
  }

  lemma OtherMoveWaits(
    db0: Db, db: Db, scan: seq<Entry>, k: nat, a: Row, b: Row, e: Entry, f: Entry, moved: Row, db': Db
  )
    requires FolderOrder(scan) && UniqueRows(db0.rows) && Anchored(db0.rows, scan) && k < |scan|
    requires Swapped(db0.rows, scan, a, b, e, f) && Waiting(db0.rows, scan, db, a, b)
    requires Moves(db0.rows, scan, e) && Moves(db0.rows, scan, f) && scan[k] != e && scan[k] != f
    requires LastWithIdentity(db.rows, FOLDER, scan[k].ident) == Some(moved)
    requires WantsMove(Some(moved), StableMappings(db0.rows, scan, FOLDER), scan[k])
    requires MoveFolderFromSmb(db, moved, scan[k]) == Some(MoveResult(db', true))
    ensures Waiting(db0.rows, scan, db', a, b)
  {
    hide StableMappings, Anchored, AnchorsHold, FolderOrder, SameObjects, FilesLinked, Bounded, Moves,
         MoveFolderFromSmb, TakesPlaceOf, MovedFolder;
    AnchoredMove(db0.rows, db, scan, k, moved, db');
    MoveKeepsInvariant(db, moved, scan[k]);
    MoveFolderShape(db, moved, scan[k]);
    OtherMoveLeaves(db0, db, scan, k, moved, db', a, b, e, f);
    OtherMoveLeaves(db0, db, scan, k, moved, db', b, a, f, e);
  }

  lemma {:induction false} SwapEndsMoves(
    db0: Db, db: Db, scan: seq<Entry>, k: nat, nested: bool, a: Row, b: Row, e: Entry, f: Entry
  )
    requires Consistent(db0) && FolderOrder(scan) && Anchored(db0.rows, scan) && k <= |scan|
    requires Swapped(db0.rows, scan, a, b, e, f) && Waiting(db0.rows, scan, db, a, b)
    requires Moves(db0.rows, scan, e) && Moves(db0.rows, scan, f) && e in scan[k..]
    requires f in scan[k..]
    ensures MoveFolders(db, StableMappings(db0.rows, scan, FOLDER), scan, k, nested).None?
    decreases |scan| - k
  {
    hide StableMappings, AllLinked, FolderOrder, Anchored, Waiting, MoveFolderFromSmb, Below, Bounded, TakesPlaceOf;
    var moved := LastWithIdentity(db.rows, FOLDER, scan[k].ident);
    assert scan[k..] == [scan[k]] + scan[k + 1..];
    if scan[k] == e {
      SwappedStep(db0, scan, db, a, b, e);
    } else if scan[k] == f {
      WaitingEither(db0.rows, scan, db, a, b);
      SwappedStep(db0, scan, db, b, a, f);
    } else if !WantsMove(moved, StableMappings(db0.rows, scan, FOLDER), scan[k]) {
      SwapEndsMoves(db0, db, scan, k + 1, nested, a, b, e, f);
    } else {
      var r := MoveFolderFromSmb(db, moved.value, scan[k]);
      if r.Some? {
        if r.value.moved {
          OtherMoveWaits(db0, db, scan, k, a, b, e, f, moved.value, r.value.db);
        } else {
          UnmovedSame(db, moved.value, scan[k]);
        }
        SwapEndsMoves(db0, r.value.db, scan, k + 1, nested || (r.value.moved && Below(moved.value.path, scan[k].path)),
                      a, b, e, f);
      }
    }
  }

  lemma WaitingEither(rows: seq<Row>, scan: seq<Entry>, db: Db, a: Row, b: Row)
    requires Waiting(rows, scan, db, a, b)
    ensures Waiting(rows, scan, db, b, a)
  {}

  /** Two mapped folders that swapped names, below folders that stayed: whichever is visited first
      meets the mapping of the other, and the pass does not return. */
  lemma SwappedFoldersThrow(db: Db, settings: Settings, scan: seq<Entry>, a: Row, b: Row, e: Entry, f: Entry)
    requires ValidScan(scan) && Consistent(db) && MovesAnchored(db, scan)
    requires Swapped(db.rows, ScanFolders(scan), a, b, e, f)
    ensures SyncProjection(db, settings, scan).None?
  {
    hide ReconcileFolders, MoveFiles, ReconcileFiles, MoveFolders, ValidScan, FolderOrder, StableMappings, AnchorsHold,
         Anchored, SameObjects, Moves;
    var folders := ScanFolders(scan);
    ScanFoldersOrdered(scan);
    ConsistentIsComplete(db);
    AnchorsAtStart(db.rows, folders);
    SwappedMoves(db.rows, folders, a, b, e);
    SwappedMoves(db.rows, folders, b, a, f);
    SwapEndsMoves(db, db, folders, 0, false, a, b, e, f);
  }

  // ----- an example -----

  /** Two top-level folders. */
  function SwapTables(): Db {
    Db(map[1 := Folder(None, "a"), 2 := Folder(None, "yy")], map[], [FolderRow(1, "a", 11), FolderRow(2, "yy", 12)], 3)
  }

  /** Their names swapped on disk. */
  function SwapScan(): seq<Entry> {
    [ScannedFolder("a", 12), ScannedFolder("yy", 11)]
  }

  /** The two names are as far apart as the proofs below need. */
  lemma TwoNames()
    ensures TopLevel("a") && TopLevel("yy") && Depth("a") == 1 && Depth("yy") == 1
    ensures BaseName("a") == "a" && BaseName("yy") == "yy" && !SameName("a", "yy") && !SameName("yy", "a")
  {
    Top("a");
    Top("yy");
    LongerDiffers("a", "yy");
    LongerDiffers("yy", "a");
  }

  lemma SwapIsConsistent()
    ensures Consistent(SwapTables()) && ValidScan(SwapScan())
  {
    hide TopLevel, SameName, BaseName, Depth;
    TwoNames();
    var rows := SwapTables().rows;
    assert forall row :: row in rows ==> row == rows[0] || row == rows[1];
  }

  lemma SwapInOrder()
    ensures ScanFolders(SwapScan()) == SwapScan()
  {
    hide TopLevel, SameName, BaseName, Depth;
    TwoNames();
    var s := SwapScan();
    AllFolders(s);
    hide OfKind;
    SortLargest([], [], s[0], DepthOf());
    hide Sort;
    SortLargest([] + [s[0]], [] + [s[0]], s[1], DepthOf());
    assert [] + [s[0]] + [s[1]] == s;
  }

  /** Nothing lies above a top-level folder. */
  lemma TopLevelIsAnchored(rows: seq<Row>, scan: seq<Entry>)
    requires forall e :: e in scan ==> TopLevel(e.path)
    ensures Anchored(rows, scan)
  {
    hide Moves, TopLevel, Unknown;
    forall f, e | f in scan && e in scan ensures !Below(f.path, e.path) {
      if Below(f.path, e.path) {
        BelowParent(f.path, e.path);
      }
    }
  }

  /** Consistent tables and a well-formed scan for which the pass throws. */
  lemma SwapThrows(settings: Settings)
    ensures Consistent(SwapTables()) && ValidScan(SwapScan()) && MovesAnchored(SwapTables(), SwapScan())
    ensures SyncProjection(SwapTables(), settings, SwapScan()).None?
  {
    hide TopLevel, SameName, BaseName, Depth, Consistent, ValidScan, Anchored, SyncProjection, ScanFolders;
    TwoNames();
    SwapIsConsistent();
    SwapInOrder();
    var rows, s := SwapTables().rows, SwapScan();
    TopLevelIsAnchored(rows, s);
    SameNameReflexive("a");
    SameNameReflexive("yy");
    assert rows[0] in rows && rows[1] in rows && s[0] in s && s[1] in s;
    SwappedFoldersThrow(SwapTables(), settings, s, rows[0], rows[1], s[1], s[0]);
  }
}

/** A pass that ends in a query on a folder that is its own ancestor, with nothing rejected.

    Mapped: a, and b inside a. On disk since the last pass: the old b now lies at c, inside new
    folders a and b; the old a now lies at e, inside the old b. */
module SmbSelfParent {
  import opened Wrappers
  import opened Text
  import opened Names
  import opened Sorting
  import opened SmbTables
  import opened SmbSync
  import opened SmbMoves
  import opened SmbScan
  import opened SmbLinks
  import opened SmbOrphans
  import opened SmbAgreement
  import opened SmbNested
  import opened SmbParentCycles

  /** The four paths, each inside the one before, and d: where the rewriting of a's prefix drags
      the mapping of the old b. */
  datatype Nest = Nest(a: string, b: string, c: string, e: string, d: string) {
    ghost predicate Parents() {
      && TopLevel(a) && !TopLevel(b) && !TopLevel(c) && !TopLevel(e)
      && Parent(b) == a && Parent(c) == b && Parent(e) == c
    }

    ghost predicate Lengths() {
      |a| == 1 && |b| == 3 && |c| == 5 && |e| == 7 && |d| == 11
    }

    ghost predicate Depths() {
      Depth(a) == 1 && Depth(b) == 2 && Depth(c) == 3 && Depth(e) == 4
    }

    ghost predicate Naming() {
      && NotAbsolute(a) && NotAbsolute(b) && NotAbsolute(c) && NotAbsolute(e)
      && GoodName(c) && GoodName(e) && !SameName(BaseName(c), BaseName(e))
    }

    ghost predicate Prefixes() {
      Below(a, c) && !Below(b, a) && d == RebasedPath(a, e, c)
    }

    ghost predicate Fits() {
      Parents() && Lengths() && Depths() && Naming() && Prefixes()
    }
  }

  function TwoRows(p: string, q: string): seq<Row> {
    [FolderRow(1, p, 100), FolderRow(2, q, 101)]
  }

  /** The tables when the pass starts. */
  function StartTables(l: Nest): Db {
    Db(map[1 := Folder(None, BaseName(l.a)), 2 := Folder(Some(1), BaseName(l.b))], map[], TwoRows(l.a, l.b), 3)
  }

  /** The directory walk; it is in order of depth already. */
  function DeepWalk(l: Nest): seq<Entry> {
    [ScannedFolder(l.a, 201), ScannedFolder(l.b, 203), ScannedFolder(l.c, 101), ScannedFolder(l.e, 100)]
  }

  lemma TwoRowsUnique(p: string, q: string)
    requires |p| != |q|
    ensures UniqueRows(TwoRows(p, q)) && Sorting.Distinct(TwoRows(p, q))
  {
    LongerDiffers(p, q);
    hide SameName;
  }

  // ----- the moves -----

  /** The old b becomes its own parent. */
  function OnceMoved(l: Nest): Db {
    StartTables(l).(folders := StartTables(l).folders[2 := Folder(Some(2), BaseName(l.c))], rows := TwoRows(l.a, l.c))
  }

  /** The old a becomes its child, and drags its mapping away. */
  function TwiceMoved(l: Nest): Db {
    OnceMoved(l).(folders := OnceMoved(l).folders[1 := Folder(Some(2), BaseName(l.e))], rows := TwoRows(l.e, l.d))
  }

  lemma FirstIntoItself(l: Nest)
    requires l.Fits()
    ensures MoveFolderFromSmb(StartTables(l), FolderRow(2, l.b, 101), ScannedFolder(l.c, 101))
            == Some(MoveResult(OnceMoved(l), true))
  {
    hide MoveFolderFromSmb, BaseName, UniqueRows, Sorting.Distinct, SameName, TopLevel, Parent, Depth;
    var rows := StartTables(l).rows;
    TwoRowsUnique(l.a, l.b);
    NothingThere(rows, l.c);
    MoveStep(StartTables(l), rows[1], ScannedFolder(l.c, 101), rows[1], OnceMoved(l).rows);
  }

  lemma NothingThere(rows: seq<Row>, path: string)
    requires forall row :: row in rows ==> |row.path| < |path|
    ensures NothingAtOrBelow(rows, path)
  {
    forall row | row in rows ensures !SameName(row.path, path) && !Below(path, row.path) {
      LongerDiffers(row.path, path);
    }
  }

  lemma SecondBelowFirst(l: Nest)
    requires l.Fits()
    ensures MoveFolderFromSmb(OnceMoved(l), FolderRow(1, l.a, 100), ScannedFolder(l.e, 100))
            == Some(MoveResult(TwiceMoved(l), true))
  {
    hide MoveFolderFromSmb, BaseName, UniqueRows, Sorting.Distinct, SameName, TopLevel, Parent, Depth;
    var rows := OnceMoved(l).rows;
    TwoRowsUnique(l.a, l.c);
    NothingThere(rows, l.e);
    MoveStep(OnceMoved(l), rows[0], ScannedFolder(l.e, 100), rows[1], TwiceMoved(l).rows);
  }

  lemma BothMove(l: Nest)
    requires l.Fits()
    ensures MoveFolders(StartTables(l), {}, DeepWalk(l), 0, false) == Some(FolderMoves(TwiceMoved(l), true))
  {
    hide MoveFolders, BaseName, MoveFolderFromSmb, RebasedPath, TopLevel, Parent, Depth;
    var scan := DeepWalk(l);
    NoMoveAt(StartTables(l), scan, 0, false);
    NoMoveAt(StartTables(l), scan, 1, false);
    FirstIntoItself(l);
    MoveAt(StartTables(l), scan, 2, false, FolderRow(2, l.b, 101), OnceMoved(l));
    SecondBelowFirst(l);
    BelowItself(l);
    MoveAt(OnceMoved(l), scan, 3, true, FolderRow(1, l.a, 100), TwiceMoved(l));
    MovesEnd(TwiceMoved(l), scan, true);
  }

  lemma BelowItself(l: Nest)
    requires l.Fits()
    ensures Below(l.b, l.c)
  {
    hide BaseName, Depth;
    ParentBelow(l.c);
  }

  lemma NothingInPlace(l: Nest)
    requires l.Lengths()
    ensures StableMappings(StartTables(l).rows, DeepWalk(l), FOLDER) == {}
  {
    hide BaseName;
    forall row | row in StartTables(l).rows ensures !IsStable(row, DeepWalk(l)) {
      forall e | e in DeepWalk(l) && SameName(e.path, row.path) ensures !SameIdentity(e.ident, row.ident) {
        assert |Lower(e.path)| == |Lower(row.path)|;
      }
    }
  }

  // ----- the scan and the tables -----

  lemma WalkInOrder(l: Nest)
    requires l.Depths()
    ensures ScanFolders(DeepWalk(l)) == DeepWalk(l) && ScanFiles(DeepWalk(l)) == []
  {
    hide OfKind, Depth;
    var s := DeepWalk(l);
    AllFolders(s);
    SortFourChain(s[0], s[1], s[2], s[3], DepthOf());
  }

  lemma SortFourChain(a: Entry, b: Entry, c: Entry, d: Entry, rank: Entry -> int)
    requires rank(a) == 1 && rank(b) == 2 && rank(c) == 3 && rank(d) == 4
    ensures Sort([a, b, c, d], rank) == [a, b, c, d]
  {
    SortOneChain(a, b, c, rank);
    hide Sort;
    SortLargest([] + [a] + [b] + [c], [] + [a] + [b] + [c], d, rank);
    assert [] + [a] + [b] + [c] + [d] == [a, b, c, d];
  }

  lemma NestIsConsistent(l: Nest)
    requires l.Parents() && l.Lengths()
    ensures Consistent(StartTables(l))
  {
    hide UniqueRows, BaseName, Sorting.Distinct, TopLevel, Parent;
    var rows := StartTables(l).rows;
    TwoRowsUnique(l.a, l.b);
    ParentOfRow(rows, rows[0], l.b);
    forall row | row in rows ensures Linked(StartTables(l), row) {
      assert row == rows[0] || row == rows[1];
    }
  }

  lemma DeepWalkIsValid(l: Nest)
    requires l.Lengths() && l.Parents() && l.Naming()
    ensures ValidScan(DeepWalk(l))
  {
    hide SameName, TopLevel, Parent, BaseName;
    var scan := DeepWalk(l);
    forall i, j | 0 <= i < j < |scan| ensures !SameName(scan[i].path, scan[j].path) {
      LongerDiffers(scan[i].path, scan[j].path);
    }
    assert scan[0] in scan && scan[1] in scan && scan[2] in scan;
    assert InFolder(scan, l.b) && InFolder(scan, l.c) && InFolder(scan, l.e);
  }

  // ----- the condition holds -----

  lemma NothingStale(l: Nest)
    requires l.Lengths()
    ensures forall e :: e in DeepWalk(l) ==> !Stale(TwiceMoved(l).rows, e)
    ensures forall e :: e in DeepWalk(l) && Matched(TwiceMoved(l).rows, e) ==> IdAt(TwiceMoved(l).rows, e) == 1
  {
    hide BaseName;
    var rows := TwiceMoved(l).rows;
    forall e, row | e in DeepWalk(l) && row in rows && SameName(row.path, e.path)
      ensures row == rows[0] && SameIdentity(row.ident, e.ident)
    {
      assert |Lower(e.path)| == |Lower(row.path)|;
    }
  }

  lemma NoneOrphaned(l: Nest)
    requires l.Lengths()
    ensures !Orphans(TwiceMoved(l), DeepWalk(l))
  {
    hide Stale, Cascade, TwiceMoved;
    NothingStale(l);
  }

  lemma DraggedIsLeftOver(l: Nest)
    requires l.Lengths()
    ensures LeftOver(TwiceMoved(l).rows, DeepWalk(l), [], FolderRow(2, l.d, 101))
  {
    hide Stale, BaseName;
    NothingStale(l);
    forall e | e in DeepWalk(l) ensures !SameName(e.path, l.d) {
      LongerDiffers(e.path, l.d);
    }
  }

  lemma SelfIsCycle(folders: map<nat, Folder>, id: nat)
    requires id in folders && folders[id].parent == Some(id)
    ensures OnCycle(folders, id)
  {}

  lemma NotKept(rows: seq<Row>, scan: seq<Entry>, id: nat)
    requires forall e :: e in scan && Matched(rows, e) ==> IdAt(rows, e) != id
    ensures id !in KeptIds(rows, scan, |scan|)
  {
    hide Swept, Stale;
  }

  lemma OwnParent(l: Nest)
    ensures FolderRow(2, l.d, 101) in TwiceMoved(l).rows
    ensures 2 in TwiceMoved(l).folders && TwiceMoved(l).folders[2].parent == Some(2)
  {
    hide BaseName;
    assert TwoRows(l.e, l.d)[1] == FolderRow(2, l.d, 101);
    assert OnceMoved(l).folders[2].parent == Some(2);
  }

  lemma LeftOnCycle(db: Db, scan: seq<Entry>, row: Row)
    requires row in db.rows && LeftOver(db.rows, scan, [], row)
    requires row.id !in KeptIds(db.rows, scan, |scan|)
    requires row.id in db.folders && db.folders[row.id].parent == Some(row.id)
    ensures ParentCycle(db, scan, [])
  {
    hide LeftOver, KeptIds, OnCycle, Replaced;
    SelfIsCycle(db.folders - KeptIds(db.rows, scan, |scan|), row.id);
  }

  lemma CycleIsForeseen(l: Nest)
    requires l.Lengths()
    ensures ParentCycle(TwiceMoved(l), DeepWalk(l), [])
  {
    hide Stale, BaseName, LeftOver, Matched, TwiceMoved, KeptIds, DeepWalk, ParentCycle;
    DraggedIsLeftOver(l);
    NothingStale(l);
    OwnParent(l);
    NotKept(TwiceMoved(l).rows, DeepWalk(l), 2);
    LeftOnCycle(TwiceMoved(l), DeepWalk(l), FolderRow(2, l.d, 101));
  }

  // ----- the result -----

  lemma NestMoves(l: Nest)
    requires l.Fits()
    ensures ScanFolders(DeepWalk(l)) == DeepWalk(l) && ScanFiles(DeepWalk(l)) == []
    ensures MovesOf(StartTables(l), DeepWalk(l)) == Some(FolderMoves(TwiceMoved(l), true))
  {
    WalkInOrder(l);
    NothingInPlace(l);
    BothMove(l);
    hide DeepWalk, MoveFolders, StableMappings, StartTables, TwiceMoved, ScanFolders, ScanFiles;
  }

  lemma NestHolds(l: Nest)
    requires l.Fits()
    ensures !OrphansFolder(StartTables(l), DeepWalk(l)) && CycleForeseen(StartTables(l), DeepWalk(l))
  {
    NestMoves(l);
    NoneOrphaned(l);
    CycleIsForeseen(l);
    hide DeepWalk, MoveFolders, StableMappings, StartTables, TwiceMoved, ScanFolders, ScanFiles, Orphans, ParentCycle;
  }

  lemma SmallStart(l: Nest)
    ensures |StartTables(l).folders| == 2 && |DeepWalk(l)| == 4
  {
    hide BaseName;
    assert StartTables(l).folders.Keys == {1, 2};
    assert |StartTables(l).folders| == |StartTables(l).folders.Keys|;
  }

  lemma FittingNestHangs(l: Nest, settings: Settings)
    requires l.Fits() && settings.maxFolders >= 1000
    ensures Consistent(StartTables(l)) && ValidScan(DeepWalk(l))
    ensures CycleForeseen(StartTables(l), DeepWalk(l)) && PassMeetsCycle(StartTables(l), settings, DeepWalk(l))
    ensures SyncProjection(StartTables(l), settings, DeepWalk(l)).None?
  {
    NestIsConsistent(l);
    DeepWalkIsValid(l);
    NestMoves(l);
    NestHolds(l);
    SmallStart(l);
    hide Consistent, ValidScan, OrphansFolder, CycleForeseen, PassMeetsCycle, SyncProjection, TwiceMoved, ScanFolders,
         ScanFiles, MovesOf, StartTables, DeepWalk;
    FolderScanMeetsExactly(StartTables(l), settings, DeepWalk(l));
  }

  // ----- the example -----

  const NEST := Nest("a", "a/b", "a/b/c", "a/b/c/e", "a/b/c/e/b/c")

  lemma NestFits()
    ensures NEST.Fits()
  {
    hide TopLevel, Parent, BaseName, Depth, SameName;
    Top("a"); Child("a/b", "a", "b"); Child("a/b/c", "a/b", "c"); Child("a/b/c/e", "a/b/c", "e");
    Grandchild("a/b/c", "a", "b/c");
    LetterDiffers("c", "e");
  }

  lemma LetterDiffers(p: string, q: string)
    requires |p| == |q| == 1 && LowerChar(p[0]) != LowerChar(q[0])
    ensures !SameName(p, q)
  {
    assert Lower(p)[0] != Lower(q)[0];
  }

  /** The tables are consistent, the scan is well formed, no limit is near, and the pass never
      comes back from the query on the folder that was b. */
  lemma SelfParentStopsPass()
    ensures Consistent(StartTables(NEST)) && ValidScan(DeepWalk(NEST))
    ensures CycleForeseen(StartTables(NEST), DeepWalk(NEST))
    ensures PassMeetsCycle(StartTables(NEST), EXAMPLE_SETTINGS, DeepWalk(NEST))
    ensures SyncProjection(StartTables(NEST), EXAMPLE_SETTINGS, DeepWalk(NEST)).None?
  {
    NestFits();
    FittingNestHangs(NEST, EXAMPLE_SETTINGS);
  }
}

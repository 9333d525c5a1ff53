/** A pass that returns without a rejection and still leaves a mapping whose folder is gone.

    Mapped: a, s inside a, y, v inside y. On disk since the last pass: the old a now lies at
    q, inside new folders a and s; the old s now lies at w, inside new folders y and v. */
module SmbNested {
  import opened Wrappers
  import opened Text
  import opened Names
  import opened Sorting
  import opened QuotaLimits
  import opened SmbTables
  import opened SmbSync
  import opened SmbMoves
  import opened SmbScan
  import opened SmbSettling
  import opened SmbLinks
  import opened SmbOrphans
  import opened SmbAgreement

  /** The six paths, and d: where the rewriting of a's prefix drags the mapping of s. */
  datatype Layout = Layout(a: string, s: string, q: string, y: string, v: string, w: string, d: string) {
    ghost predicate Parents() {
      && TopLevel(a) && TopLevel(y) && !TopLevel(s) && !TopLevel(q) && !TopLevel(v) && !TopLevel(w)
      && Parent(s) == a && Parent(q) == s && Parent(v) == y && Parent(w) == v
    }

    /** No two of the seven paths have the same length, so none are the same name. */
    ghost predicate Lengths() {
      |a| == 1 && |y| == 2 && |s| == 3 && |v| == 4 && |q| == 5 && |w| == 8 && |d| == 7
    }

    ghost predicate Depths() {
      Depth(a) == 1 && Depth(y) == 1 && Depth(s) == 2 && Depth(v) == 2 && Depth(q) == 3 && Depth(w) == 3
    }

    ghost predicate Relative() {
      NotAbsolute(a) && NotAbsolute(y) && NotAbsolute(s) && NotAbsolute(v) && NotAbsolute(q) && NotAbsolute(w)
    }

    ghost predicate Naming() {
      && GoodName(a) && GoodName(s) && GoodName(q) && GoodName(y) && GoodName(v) && GoodName(w)
      && !SameName(BaseName(a), BaseName(y))
    }

    /** Moving a takes s along; moving s then takes nothing along; replacing y removes v and w. */
    ghost predicate Prefixes() {
      && Below(a, s) && Below(a, q) && !Below(a, y) && !Below(a, v) && d == RebasedPath(a, q, s)
      && !Below(w, q) && !Below(d, w) && !Below(d, y) && !Below(d, v)
      && Below(y, v) && Below(y, w) && !Below(y, q) && !Below(y, a)
    }

    ghost predicate Fits() {
      Parents() && Lengths() && Depths() && Relative() && Naming() && Prefixes()
    }
  }

  ghost predicate NotAbsolute(path: string) {
    path != "" && path[0] != '/'
  }

  ghost predicate GoodName(path: string) {
    0 < |BaseName(path)| <= MAX_FOLDER_NAME_LENGTH
  }

  lemma LongerDiffers(p: string, q: string)
    requires |p| != |q|
    ensures !SameName(p, q)
  {
    assert |Lower(p)| != |Lower(q)|;
  }

  function FolderRow(id: nat, path: string, inode: nat): Row {
    Row(FOLDER, id, path, Inode(1, inode))
  }

  function ScannedFolder(path: string, inode: nat): Entry {
    Entry(FOLDER, path, Inode(1, inode), 0)
  }

  function FourRows(p1: string, p2: string, p3: string, p4: string): seq<Row> {
    [FolderRow(1, p1, 11), FolderRow(2, p2, 12), FolderRow(3, p3, 13), FolderRow(4, p4, 14)]
  }

  /** The tables when the pass starts. */
  function StartDb(l: Layout): Db {
    Db(map[1 := Folder(None, BaseName(l.a)), 2 := Folder(Some(1), BaseName(l.s)),
           3 := Folder(None, BaseName(l.y)), 4 := Folder(Some(3), BaseName(l.v))],
       map[], FourRows(l.a, l.s, l.y, l.v), 5)
  }

  /** The directory walk, depth first. */
  function Walk(l: Layout): seq<Entry> {
    [ScannedFolder(l.a, 21), ScannedFolder(l.s, 22), ScannedFolder(l.q, 11),
     ScannedFolder(l.y, 23), ScannedFolder(l.v, 24), ScannedFolder(l.w, 12)]
  }

  /** The same entries, parents first. */
  function ByDepth(l: Layout): seq<Entry> {
    [ScannedFolder(l.a, 21), ScannedFolder(l.y, 23), ScannedFolder(l.s, 22),
     ScannedFolder(l.v, 24), ScannedFolder(l.q, 11), ScannedFolder(l.w, 12)]
  }

  // ----- the folder moves -----

  /** A desired name that no sibling has is taken as it is. */
  lemma FreeAtOnce(folders: map<nat, Folder>, parent: Option<nat>, desired: string, excluded: Option<nat>)
    requires 0 < |desired| <= MAX_FOLDER_NAME_LENGTH
    requires forall id :: id in folders && folders[id].parent == parent && Some(id) != excluded
                          ==> !SameName(folders[id].name, desired)
    ensures UniqueFolderName(folders, parent, desired, excluded) == Some(desired)
  {
    var taken := SiblingNames(folders, parent, excluded);
    assert Lower(desired) !in taken;
    assert SuffixName(desired, 1, MAX_FOLDER_NAME_LENGTH) == desired;
  }

  lemma ParentOfRow(rows: seq<Row>, row: Row, path: string)
    requires UniqueRows(rows) && row in rows && row.kind == FOLDER
    requires !TopLevel(path) && Parent(path) == row.path
    ensures LookupParent(rows, path) == FoundParent(Some(row.id))
  {
    RowAtIs(rows, Parent(path), row);
  }

  lemma FourRowsUnique(p1: string, p2: string, p3: string, p4: string)
    requires |p1| != |p2| && |p1| != |p3| && |p1| != |p4| && |p2| != |p3| && |p2| != |p4| && |p3| != |p4|
    ensures UniqueRows(FourRows(p1, p2, p3, p4)) && Sorting.Distinct(FourRows(p1, p2, p3, p4))
  {
    LongerDiffers(p1, p2); LongerDiffers(p1, p3); LongerDiffers(p1, p4);
    LongerDiffers(p2, p3); LongerDiffers(p2, p4); LongerDiffers(p3, p4);
    hide SameName;
  }

  /** A folder moves below a mapped one where its name is free; expected are the rewritten rows. */
  lemma MoveStep(db: Db, moved: Row, e: Entry, parent: Row, expected: seq<Row>)
    requires UniqueRows(db.rows) && Sorting.Distinct(db.rows) && moved in db.rows && parent in db.rows
    requires moved.kind == parent.kind == FOLDER && moved.id in db.folders && parent.id in db.folders
    requires !TopLevel(e.path) && Parent(e.path) == parent.path && GoodName(e.path)
    requires forall id :: id in db.folders && id != moved.id && db.folders[id].parent == Some(parent.id)
                          ==> !SameName(db.folders[id].name, BaseName(e.path))
    requires NothingAtOrBelow(db.rows, e.path) && |expected| == |db.rows|
    requires forall i :: 0 <= i < |expected| ==> expected[i] == Rebase(db.rows[i], moved, e.path, e.ident)
    ensures MoveFolderFromSmb(db, moved, e)
            == Some(MoveResult(Db(db.folders[moved.id := Folder(Some(parent.id), BaseName(e.path))],
                                  db.files, expected, db.nextId), true))
  {
    hide BaseName, Rebase, UniqueFolderName, LookupParent, MoveMappings, NothingAtOrBelow, UniqueRows, Sorting.Distinct,
         SameName;
    ParentOfRow(db.rows, parent, e.path);
    FreeAtOnce(db.folders, Some(parent.id), BaseName(e.path), Some(moved.id));
    MoveMappingsSucceeds(db.rows, moved, e.path, e.ident);
    var r := MoveMappings(db.rows, moved, e.path, e.ident).value;
    MoveMappingsResult(db.rows, moved, e.path, e.ident, r);
    assert r == expected;
  }

  /** The tables after the first move, and after both. */
  function MovedOnce(l: Layout): Db {
    StartDb(l).(folders := StartDb(l).folders[1 := Folder(Some(2), BaseName(l.q))],
                rows := FourRows(l.q, l.d, l.y, l.v))
  }

  function MovedTwice(l: Layout): Db {
    MovedOnce(l).(folders := MovedOnce(l).folders[2 := Folder(Some(4), BaseName(l.w))],
                  rows := FourRows(l.q, l.w, l.y, l.v))
  }

  lemma FirstMove(l: Layout)
    requires l.Fits()
    ensures MoveFolderFromSmb(StartDb(l), FolderRow(1, l.a, 11), ScannedFolder(l.q, 11))
             == Some(MoveResult(MovedOnce(l), true))
  {
    hide MoveFolderFromSmb, BaseName, UniqueRows, Sorting.Distinct, SameName, TopLevel, Parent;
    var rows := StartDb(l).rows;
    FourRowsUnique(l.a, l.s, l.y, l.v);
    assert NothingAtOrBelow(rows, l.q) by {
      forall row | row in rows ensures !SameName(row.path, l.q) && !Below(l.q, row.path) {
        LongerDiffers(row.path, l.q);
      }
    }
    MoveStep(StartDb(l), rows[0], ScannedFolder(l.q, 11), rows[1], MovedOnce(l).rows);
  }

  lemma SecondMove(l: Layout)
    requires l.Fits()
    ensures MoveFolderFromSmb(MovedOnce(l), FolderRow(2, l.d, 12), ScannedFolder(l.w, 12))
             == Some(MoveResult(MovedTwice(l), true))
  {
    hide MoveFolderFromSmb, BaseName, UniqueRows, Sorting.Distinct, SameName, TopLevel, Parent;
    var rows := MovedOnce(l).rows;
    FourRowsUnique(l.q, l.d, l.y, l.v);
    assert NothingAtOrBelow(rows, l.w) by {
      forall row | row in rows ensures !SameName(row.path, l.w) && !Below(l.w, row.path) {
        LongerDiffers(row.path, l.w);
      }
    }
    MoveStep(MovedOnce(l), rows[1], ScannedFolder(l.w, 12), rows[3], MovedTwice(l).rows);
  }

  lemma NoMoveAt(db: Db, scan: seq<Entry>, k: nat, nested: bool)
    requires k < |scan| && forall row :: row in db.rows ==> !SameIdentity(row.ident, scan[k].ident)
    ensures MoveFolders(db, {}, scan, k, nested) == MoveFolders(db, {}, scan, k + 1, nested)
  {}

  lemma MoveAt(db: Db, scan: seq<Entry>, k: nat, nested: bool, moved: Row, db': Db)
    requires k < |scan| && moved in db.rows && moved.kind == FOLDER && SameIdentity(moved.ident, scan[k].ident)
    requires forall row :: row in db.rows && SameIdentity(row.ident, scan[k].ident) ==> row == moved
    requires |moved.path| != |scan[k].path| && MoveFolderFromSmb(db, moved, scan[k]) == Some(MoveResult(db', true))
    ensures MoveFolders(db, {}, scan, k, nested)
            == MoveFolders(db', {}, scan, k + 1, nested || Below(moved.path, scan[k].path))
  {
    hide MoveFolderFromSmb;
    LongerDiffers(moved.path, scan[k].path);
    assert LastWithIdentity(db.rows, FOLDER, scan[k].ident) == Some(moved);
  }

  lemma MovesEnd(db: Db, scan: seq<Entry>, nested: bool)
    ensures MoveFolders(db, {}, scan, |scan|, nested) == Some(FolderMoves(db, nested))
  {}

  lemma BothMoves(l: Layout)
    requires l.Fits()
    ensures MoveFolders(StartDb(l), {}, ByDepth(l), 0, false) == Some(FolderMoves(MovedTwice(l), true))
  {
    hide MoveFolders, BaseName, MoveFolderFromSmb, RebasedPath, TopLevel, Parent, Depth;
    var scan := ByDepth(l);
    NoMoveAt(StartDb(l), scan, 0, false);
    NoMoveAt(StartDb(l), scan, 1, false);
    NoMoveAt(StartDb(l), scan, 2, false);
    NoMoveAt(StartDb(l), scan, 3, false);
    FirstMove(l);
    MoveAt(StartDb(l), scan, 4, false, FolderRow(1, l.a, 11), MovedOnce(l));
    SecondMove(l);
    MoveAt(MovedOnce(l), scan, 5, true, FolderRow(2, l.d, 12), MovedTwice(l));
    MovesEnd(MovedTwice(l), scan, true);
  }

  lemma NothingStable(l: Layout)
    requires l.Lengths()
    ensures StableMappings(StartDb(l).rows, ByDepth(l), FOLDER) == {}
  {
    hide BaseName;
    forall row | row in StartDb(l).rows ensures !IsStable(row, ByDepth(l)) {
      forall e | e in ByDepth(l) && SameName(e.path, row.path) ensures !SameIdentity(e.ident, row.ident) {
        assert |Lower(e.path)| == |Lower(row.path)|;
      }
    }
  }

  // ----- the folder loop -----

  /** The rows are exactly these. */
  ghost predicate Exactly(rows: seq<Row>, expected: set<Row>) {
    UniqueRows(rows) && forall row :: row in rows <==> row in expected
  }

  lemma {:induction false} SmallTable(folders: map<nat, Folder>, n: nat)
    requires forall id :: id in folders ==> id < n
    ensures |folders| <= n
  {
    if n == 0 {
      assert folders.Keys == {};
    } else {
      SmallTable(folders - {n - 1}, n - 1);
      assert folders.Keys <= (folders - {n - 1}).Keys + {n - 1};
      SubsetSize(folders.Keys, (folders - {n - 1}).Keys + {n - 1});
    }
  }

  /** The entry's parent is known, no row has a path of its length, and its name is free. */
  ghost predicate Ready(p: Progress, settings: Settings, e: Entry, parent: Option<nat>, expected: set<Row>) {
    && e.kind == FOLDER && Exactly(p.db.rows, expected) && GoodName(e.path)
    && LookupParent(p.db.rows, e.path) == FoundParent(parent) && ParentExists(p.db.folders, parent)
    && (forall r :: r in expected ==> |r.path| != |e.path| && r.id < p.db.nextId)
    && (forall id :: id in p.db.folders ==> id < p.db.nextId) && p.db.nextId < settings.maxFolders
    && (forall id :: id in p.db.folders && p.db.folders[id].parent == parent
                     ==> !SameName(p.db.folders[id].name, BaseName(e.path)))
  }

  function Created(p: Progress, e: Entry, parent: Option<nat>): Progress {
    p.(db := InsertFolder(p.db, parent, BaseName(e.path), e), seen := p.seen + {p.db.nextId})
  }

  function CreatedRow(p: Progress, e: Entry): Row {
    Row(FOLDER, p.db.nextId, e.path, e.ident)
  }

  lemma CreateStep(p: Progress, settings: Settings, e: Entry, parent: Option<nat>, expected: set<Row>)
    requires Ready(p, settings, e, parent, expected)
    ensures RowAt(p.db.rows, e.path) == None
    ensures ReconcileFolder(p, settings, e) == Some(Created(p, e, parent))
    ensures Exactly(Created(p, e, parent).db.rows, expected + {CreatedRow(p, e)})
  {
    hide BaseName, LookupParent;
    if RowAt(p.db.rows, e.path).Some? {
      LongerDiffers(RowAt(p.db.rows, e.path).value.path, e.path);
      assert false;
    }
    SmallTable(p.db.folders, p.db.nextId);
    FreeAtOnce(p.db.folders, parent, BaseName(e.path), None);
    AppendRow(p.db.rows, CreatedRow(p, e), e.path);
  }

  /** A folder below a mapped one that has no child yet. */
  lemma CreateBelow(p: Progress, settings: Settings, scan: seq<Entry>, k: nat, row: Row, expected: set<Row>)
    requires k < |scan| && scan[k].kind == FOLDER && GoodName(scan[k].path) && Exactly(p.db.rows, expected)
    requires row in expected && row.kind == FOLDER && row.id in p.db.folders
    requires !TopLevel(scan[k].path) && Parent(scan[k].path) == row.path
    requires forall r :: r in expected ==> |r.path| != |scan[k].path| && r.id < p.db.nextId
    requires forall id :: id in p.db.folders ==> id < p.db.nextId && p.db.folders[id].parent != Some(row.id)
    requires p.db.nextId < settings.maxFolders
    ensures ReconcileFolders(p, settings, scan, k)
             == ReconcileFolders(Created(p, scan[k], Some(row.id)), settings, scan, k + 1)
    ensures Exactly(Created(p, scan[k], Some(row.id)).db.rows, expected + {CreatedRow(p, scan[k])})
  {
    hide BaseName, ReconcileFolder, UniqueRows;
    ParentOfRow(p.db.rows, row, scan[k].path);
    CreateStep(p, settings, scan[k], Some(row.id), expected);
  }

  ghost function MovedRows(l: Layout): set<Row> {
    {FolderRow(1, l.q, 11), FolderRow(2, l.w, 12), FolderRow(3, l.y, 13), FolderRow(4, l.v, 14)}
  }

  ghost function LeftRows(l: Layout): set<Row> {
    {FolderRow(1, l.q, 11), FolderRow(5, l.a, 21)}
  }

  function AfterMoves(l: Layout): Progress {
    Progress(MovedTwice(l), {}, true, true)
  }

  function AfterA(l: Layout): Progress {
    Created(AfterMoves(l), ScannedFolder(l.a, 21), None)
  }

  lemma FourRowsListed(p1: string, p2: string, p3: string, p4: string)
    ensures forall row :: row in FourRows(p1, p2, p3, p4)
                          <==> row in {FolderRow(1, p1, 11), FolderRow(2, p2, 12), FolderRow(3, p3, 13),
                                       FolderRow(4, p4, 14)}
  {
    var rows := FourRows(p1, p2, p3, p4);
    assert rows[0] in rows && rows[1] in rows && rows[2] in rows && rows[3] in rows;
  }

  lemma ReadyA(l: Layout, settings: Settings, p: Progress)
    requires l.Fits() && settings.maxFolders >= 1000 && Exactly(p.db.rows, MovedRows(l)) && p.db.nextId == 5
    requires p.db.folders.Keys == {1, 2, 3, 4} && p.db.folders[3].name == BaseName(l.y)
    requires p.db.folders[1].parent == Some(2) && p.db.folders[2].parent == Some(4) && p.db.folders[4].parent == Some(3)
    ensures Ready(p, settings, ScannedFolder(l.a, 21), None, MovedRows(l))
  {
    assert !SameName(BaseName(l.y), BaseName(l.a));
    hide BaseName, UniqueRows, SameName, Parent, Depth, RebasedPath, Below;
  }

  lemma LoopA(l: Layout, settings: Settings)
    requires l.Fits() && settings.maxFolders >= 1000
    ensures ReconcileFolder(AfterMoves(l), settings, ScannedFolder(l.a, 21)) == Some(AfterA(l))
    ensures Exactly(AfterA(l).db.rows, MovedRows(l) + {FolderRow(5, l.a, 21)})
  {
    hide BaseName, ReconcileFolder, Ready, TopLevel, SameName, FourRows, Parent, Depth, RebasedPath, Below,
         Sorting.Distinct;
    FourRowsUnique(l.q, l.w, l.y, l.v);
    FourRowsListed(l.q, l.w, l.y, l.v);
    ReadyA(l, settings, AfterMoves(l));
    CreateStep(AfterMoves(l), settings, ScannedFolder(l.a, 21), None, MovedRows(l));
  }

  /** Deleting the stale y takes folders 4, 2 and 1 along in the database, but only the rows
      below y in the mapping table: the row of folder 1 stays. */
  function ClearedOfY(l: Layout): Db {
    Db(map[5 := Folder(None, BaseName(l.a))], map[], RemoveTree(AfterA(l).db.rows, l.y), 6)
  }

  function AfterY(l: Layout): Progress {
    Created(AfterA(l).(db := ClearedOfY(l)), ScannedFolder(l.y, 23), None)
  }

  lemma CascadeFromY(folders: map<nat, Folder>)
    requires folders.Keys == {1, 2, 3, 4, 5}
    requires folders[1].parent == Some(2) && folders[2].parent == Some(4) && folders[4].parent == Some(3)
    requires folders[3].parent == None && folders[5].parent == None
    ensures Cascade(folders, {3}) == {1, 2, 3, 4}
  {
    var gone := Cascade(folders, {3});
    assert 4 in Children(folders, gone);
    assert 2 in Children(folders, gone);
    assert 1 in Children(folders, gone);
    CascadeWithin(folders, {3}, {1, 2, 3, 4});
  }

  lemma RowsLeft(l: Layout, rows: seq<Row>)
    requires l.Fits() && Exactly(rows, MovedRows(l) + {FolderRow(5, l.a, 21)})
    ensures Exactly(RemoveTree(rows, l.y), LeftRows(l))
  {
    LongerDiffers(l.q, l.y);
    LongerDiffers(l.a, l.y);
    SubsetUnique(rows, RemoveTree(rows, l.y));
    hide BaseName, UniqueRows, TopLevel, Parent, Depth, RebasedPath, SameName;
  }

  lemma DeleteY(l: Layout)
    ensures DeleteFolderObject(AfterA(l).db, FolderRow(3, l.y, 13)) == Some(ClearedOfY(l))
  {
    hide BaseName, RemoveTree, Cascade;
    CascadeFromY(AfterA(l).db.folders);
    var db := DeleteFolderObject(AfterA(l).db, FolderRow(3, l.y, 13)).value;
    assert db.folders == ClearedOfY(l).folders;
  }

  lemma RecreateY(l: Layout, settings: Settings)
    requires l.Fits() && settings.maxFolders >= 1000 && Exactly(ClearedOfY(l).rows, LeftRows(l))
    ensures RowAt(ClearedOfY(l).rows, l.y) == None
    ensures ReconcileFolder(AfterA(l).(db := ClearedOfY(l)), settings, ScannedFolder(l.y, 23)) == Some(AfterY(l))
    ensures AtY(l, AfterY(l))
  {
    hide BaseName, SameName, ReconcileFolder, UniqueRows, RemoveTree, Parent, Depth, RebasedPath, Below;
    CreateStep(AfterA(l).(db := ClearedOfY(l)), settings, ScannedFolder(l.y, 23), None, LeftRows(l));
  }

  lemma LoopY(l: Layout, settings: Settings)
    requires l.Fits() && settings.maxFolders >= 1000
    requires Exactly(AfterA(l).db.rows, MovedRows(l) + {FolderRow(5, l.a, 21)})
    ensures ReconcileFolder(AfterA(l), settings, ScannedFolder(l.y, 23)) == Some(AfterY(l))
    ensures AtY(l, AfterY(l))
  {
    RowsLeft(l, AfterA(l).db.rows);
    RecreateY(l, settings);
    DeleteY(l);
    RowAtIs(AfterA(l).db.rows, l.y, FolderRow(3, l.y, 13));
    hide BaseName, DeleteFolderObject, SameName, RemoveTree, KeepFolder, CreateFolder, UniqueRows, AtY, AfterY, Exactly,
         TopLevel, Parent, Depth, RebasedPath, Below, RowAt;
  }

  lemma RelocateSame(rows: seq<Row>, row: Row)
    requires UniqueRows(rows) && row in rows
    ensures Relocate(rows, row.kind, row.id, row.path, row.ident) == Some(rows)
  {
    var r := Relocate(rows, row.kind, row.id, row.path, row.ident);
    forall i | 0 <= i < |rows| ensures IsKey(rows[i], row.kind, row.id) ==> rows[i] == row {
      assert rows[i] in rows;
    }
    assert r.Some? && r.value == rows;
  }

  /** A kept folder whose database row is gone: the update changes nothing, and the mapping stays. */
  lemma KeepGone(p: Progress, settings: Settings, e: Entry, row: Row, parent: Row)
    requires UniqueRows(p.db.rows) && row in p.db.rows && row == Row(FOLDER, row.id, e.path, e.ident) && e.ident.Inode?
    requires row.id !in p.db.folders && GoodName(e.path)
    requires parent in p.db.rows && parent.kind == FOLDER && !TopLevel(e.path) && Parent(e.path) == parent.path
    requires forall id :: id in p.db.folders ==> p.db.folders[id].parent != Some(parent.id)
    ensures ReconcileFolder(p, settings, e) == Some(p.(seen := p.seen + {row.id}, hits := false))
  {
    hide BaseName, SameName, UniqueFolderName;
    RowAtIs(p.db.rows, e.path, row);
    ParentOfRow(p.db.rows, parent, e.path);
    FreeAtOnce(p.db.folders, Some(parent.id), BaseName(e.path), Some(row.id));
    RelocateSame(p.db.rows, row);
    assert p.db.(folders := p.db.folders, rows := p.db.rows) == p.db;
  }

  /** Once the new y is there: folders 5 (a) and 6 (y), and the row of folder 1 without its folder. */
  ghost predicate AtY(l: Layout, p: Progress) {
    && Exactly(p.db.rows, LeftRows(l) + {FolderRow(6, l.y, 23)}) && p.db.nextId == 7
    && p.db.folders.Keys == {5, 6} && p.db.folders[5].parent == None && p.db.folders[6].parent == None
    && p.seen == {5, 6} && p.clean
  }

  ghost predicate AtV(l: Layout, p: Progress) {
    && Exactly(p.db.rows, RowsAfterV(l)) && p.db.nextId == 9
    && p.db.folders.Keys == {5, 6, 7, 8} && p.db.folders[5].parent == None && p.db.folders[6].parent == None
    && p.db.folders[7].parent == Some(5) && p.db.folders[8].parent == Some(6)
    && p.seen == {5, 6, 7, 8} && p.clean
  }

  ghost function RowsAfterV(l: Layout): set<Row> {
    LeftRows(l) + {FolderRow(6, l.y, 23)} + {FolderRow(7, l.s, 22)} + {FolderRow(8, l.v, 24)}
  }

  lemma LoopSV(l: Layout, settings: Settings, p: Progress) returns (q: Progress)
    requires l.Fits() && settings.maxFolders >= 1000 && AtY(l, p)
    ensures ReconcileFolders(p, settings, ByDepth(l), 2) == ReconcileFolders(q, settings, ByDepth(l), 4)
    ensures AtV(l, q)
  {
    hide BaseName, ReconcileFolders, Exactly, TopLevel, Parent, Depth, Below, SameName, RebasedPath;
    var rows := LeftRows(l) + {FolderRow(6, l.y, 23)};
    CreateBelow(p, settings, ByDepth(l), 2, FolderRow(5, l.a, 21), rows);
    q := Created(p, ByDepth(l)[2], Some(5));
    CreateBelow(q, settings, ByDepth(l), 3, FolderRow(6, l.y, 23), rows + {FolderRow(7, l.s, 22)});
    q := Created(q, ByDepth(l)[3], Some(6));
  }

  lemma LoopQW(l: Layout, settings: Settings, p: Progress) returns (q: Progress)
    requires l.Fits() && settings.maxFolders >= 1000 && AtV(l, p)
    ensures ReconcileFolders(p, settings, ByDepth(l), 4) == Some(q) && q.clean && !q.hits
    ensures Exactly(q.db.rows, RowsAfterV(l) + {FolderRow(9, l.w, 12)}) && q.seen == {5, 6, 7, 8, 1, 9}
  {
    hide BaseName, ReconcileFolder, UniqueRows, TopLevel, Parent, Depth, Below, SameName, RebasedPath;
    KeepGone(p, settings, ScannedFolder(l.q, 11), FolderRow(1, l.q, 11), FolderRow(7, l.s, 22));
    var r := p.(seen := p.seen + {1}, hits := false);
    CreateBelow(r, settings, ByDepth(l), 5, FolderRow(8, l.v, 24), RowsAfterV(l));
    q := Created(r, ByDepth(l)[5], Some(8));
  }

  /** The two entries at the top. */
  lemma LoopAY(l: Layout, settings: Settings)
    requires l.Fits() && settings.maxFolders >= 1000
    ensures ReconcileFolders(AfterMoves(l), settings, ByDepth(l), 0)
             == ReconcileFolders(AfterY(l), settings, ByDepth(l), 2)
    ensures AtY(l, AfterY(l))
  {
    LoopA(l, settings);
    LoopY(l, settings);
    hide AfterMoves, AfterA, AfterY, AtY, ReconcileFolder;
  }

  lemma WholeLoop(l: Layout, settings: Settings) returns (q: Progress)
    requires l.Fits() && settings.maxFolders >= 1000
    ensures ReconcileFolders(AfterMoves(l), settings, ByDepth(l), 0) == Some(q) && q.clean && !q.hits
    ensures forall row :: row in q.db.rows ==> row.kind == FOLDER && row.id in q.seen
  {
    hide BaseName, ReconcileFolder, UniqueRows, RemoveTree, TopLevel, Parent, Depth, Below, SameName, RebasedPath;
    LoopAY(l, settings);
    hide AfterY, AfterMoves, AtY;
    q := LoopSV(l, settings, AfterY(l));
    q := LoopQW(l, settings, q);
  }

  // ----- the rest of the pass has nothing to do -----

  lemma {:induction false} AllSeenStay(db: Db, pending: seq<Row>, seen: set<nat>)
    requires forall row :: row in pending ==> row.id in seen
    ensures DropFolders(db, pending, seen) == Some(db)
    decreases |pending|
  {
    if pending != [] {
      assert pending[0] in pending;
      AllSeenStay(db, pending[1..], seen);
    }
  }

  /** A scan without files: the pass ends where its folder loop ends. */
  lemma FoldersOnly(db: Db, settings: Settings, scan: seq<Entry>, moves: FolderMoves, p: Progress)
    requires ScanFiles(scan) == []
    requires MoveFolders(db, StableMappings(db.rows, ScanFolders(scan), FOLDER), ScanFolders(scan), 0, false)
             == Some(moves)
    requires ReconcileFolders(Progress(moves.db, {}, true, true), settings, ScanFolders(scan), 0) == Some(p)
    requires forall row :: row in p.db.rows ==> row.kind == FOLDER && row.id in p.seen
    ensures SyncProjection(db, settings, scan) == Some(Pass(p.db, p.clean, p.hits, moves.nested))
  {
    hide MoveFolders, ReconcileFolders, StableMappings, ScanFolders;
    if RowsOfKind(p.db.rows, FILE) != [] {
      assert RowsOfKind(p.db.rows, FILE)[0] in RowsOfKind(p.db.rows, FILE);
      assert false;
    }
    SortMembers(RowsOfKind(p.db.rows, FOLDER), ShallownessOf());
    AllSeenStay(p.db, Sort(RowsOfKind(p.db.rows, FOLDER), ShallownessOf()), p.seen);
  }

  // ----- sorting the walk by depth -----

  lemma {:induction false} AllFolders(scan: seq<Entry>)
    requires forall e :: e in scan ==> e.kind == FOLDER
    ensures OfKind(scan, FOLDER) == scan && OfKind(scan, FILE) == []
  {
    if scan != [] {
      var rest := scan[1..];
      assert scan == [scan[0]] + rest && scan[0] in scan;
      assert forall e :: e in rest ==> e in scan;
      AllFolders(rest);
    }
  }

  /** Inserting before a run of larger ranks. */
  lemma {:induction false} InsertBefore(s: seq<Entry>, larger: seq<Entry>, x: Entry, rank: Entry -> int)
    requires forall e :: e in s ==> rank(e) <= rank(x)
    requires forall e :: e in larger ==> rank(e) > rank(x)
    ensures Insert(s + larger, x, rank) == s + [x] + larger
  {
    if larger == [] {
      assert s + larger == s;
    } else {
      var n := |larger| - 1;
      assert (s + larger)[..|s + larger| - 1] == s + larger[..n];
      assert larger[n] in larger;
      InsertBefore(s, larger[..n], x, rank);
      assert larger == larger[..n] + [larger[n]];
    }
  }

  lemma SortStep(s: seq<Entry>, x: Entry, before: seq<Entry>, larger: seq<Entry>, rank: Entry -> int)
    requires Sort(s, rank) == before + larger
    requires forall e :: e in before ==> rank(e) <= rank(x)
    requires forall e :: e in larger ==> rank(e) > rank(x)
    ensures Sort(s + [x], rank) == before + [x] + larger
  {
    assert (s + [x])[..|s + [x]| - 1] == s;
    InsertBefore(before, larger, x, rank);
  }

  lemma SortLargest(s: seq<Entry>, sorted: seq<Entry>, x: Entry, rank: Entry -> int)
    requires Sort(s, rank) == sorted && forall e :: e in sorted ==> rank(e) <= rank(x)
    ensures Sort(s + [x], rank) == sorted + [x]
  {
    assert (s + [x])[..|s + [x]| - 1] == s;
  }

  lemma SortOneChain(a: Entry, s: Entry, q: Entry, rank: Entry -> int)
    requires rank(a) == 1 && rank(s) == 2 && rank(q) == 3
    ensures Sort([] + [a] + [s] + [q], rank) == [] + [a] + [s] + [q]
  {
    SortLargest([], [], a, rank);
    hide Sort;
    SortLargest([] + [a], [] + [a], s, rank);
    SortLargest([] + [a] + [s], [] + [a] + [s], q, rank);
  }

  lemma SortSecondChain(one: seq<Entry>, a: Entry, s: Entry, q: Entry, y: Entry, v: Entry, rank: Entry -> int)
    requires rank(a) == rank(y) == 1 && rank(s) == rank(v) == 2 && rank(q) == 3
    requires Sort(one, rank) == [a] + [s, q]
    ensures Sort(one + [y] + [v], rank) == [a] + [y] + [s] + [v] + [q]
  {
    hide Sort;
    SortStep(one, y, [a], [s, q], rank);
    assert [a] + [y] + [s, q] == [a] + [y] + [s] + [q];
    SortStep(one + [y], v, [a] + [y] + [s], [q], rank);
  }

  lemma SortFive(five: seq<Entry>, a: Entry, y: Entry, s: Entry, v: Entry, q: Entry, w: Entry, rank: Entry -> int)
    requires rank(a) == rank(y) == 1 && rank(s) == rank(v) == 2 && rank(q) == rank(w) == 3
    requires Sort(five, rank) == [a] + [y] + [s] + [v] + [q]
    ensures Sort(five + [w], rank) == [a] + [y] + [s] + [v] + [q] + [w]
  {
    hide Sort;
    SortLargest(five, [a] + [y] + [s] + [v] + [q], w, rank);
  }

  lemma SixJoined(a: Entry, b: Entry, c: Entry, d: Entry, e: Entry, f: Entry)
    ensures [a, b, c, d, e, f] == [] + [a] + [b] + [c] + [d] + [e] + [f]
    ensures [a, b, c, d, e, f] == [a] + [b] + [c] + [d] + [e] + [f]
  {}

  lemma SortTwoChains(a: Entry, s: Entry, q: Entry, y: Entry, v: Entry, w: Entry, rank: Entry -> int)
    requires rank(a) == rank(y) == 1 && rank(s) == rank(v) == 2 && rank(q) == rank(w) == 3
    ensures Sort([a, s, q, y, v, w], rank) == [a, y, s, v, q, w]
  {
    SortOneChain(a, s, q, rank);
    hide Sort;
    var one := [] + [a] + [s] + [q];
    assert one == [a] + [s, q];
    SortSecondChain(one, a, s, q, y, v, rank);
    SortFive(one + [y] + [v], a, y, s, v, q, w, rank);
    SixJoined(a, s, q, y, v, w);
    SixJoined(a, y, s, v, q, w);
  }

  lemma WalkOrder(l: Layout)
    requires l.Depths()
    ensures ScanFolders(Walk(l)) == ByDepth(l) && ScanFiles(Walk(l)) == []
  {
    hide Sort, Depth, OfKind;
    var s := Walk(l);
    AllFolders(s);
    SortTwoChains(s[0], s[1], s[2], s[3], s[4], s[5], DepthOf());
  }

  // ----- the result -----

  lemma StartConsistent(l: Layout)
    requires l.Parents() && l.Lengths()
    ensures Consistent(StartDb(l))
  {
    hide UniqueRows, BaseName, Sorting.Distinct, TopLevel, Parent;
    var rows := StartDb(l).rows;
    FourRowsUnique(l.a, l.s, l.y, l.v);
    ParentOfRow(rows, rows[0], l.s);
    ParentOfRow(rows, rows[2], l.v);
    forall row | row in rows ensures Linked(StartDb(l), row) {
      assert row == rows[0] || row == rows[1] || row == rows[2] || row == rows[3];
    }
  }

  lemma WalkIsValid(l: Layout)
    requires l.Lengths() && l.Parents() && l.Relative()
    ensures ValidScan(Walk(l))
  {
    hide SameName, TopLevel, Parent;
    var scan := Walk(l);
    forall i, j | 0 <= i < j < |scan| ensures !SameName(scan[i].path, scan[j].path) {
      LongerDiffers(scan[i].path, scan[j].path);
    }
    assert scan[0] in scan && scan[1] in scan && scan[3] in scan && scan[4] in scan;
    assert InFolder(scan, l.s) && InFolder(scan, l.q) && InFolder(scan, l.v) && InFolder(scan, l.w);
  }

  /** The pass returns, nothing was rejected, and one kept folder was not there. */
  lemma FittingMoveBreaks(l: Layout, settings: Settings)
    requires l.Fits() && settings.maxFolders >= 1000
    ensures Consistent(StartDb(l)) && ValidScan(Walk(l)) && SyncProjection(StartDb(l), settings, Walk(l)).Some?
    ensures var pass := SyncProjection(StartDb(l), settings, Walk(l)).value;
            pass.clean && !Agreement(pass.db, Walk(l))
    ensures OrphansFolder(StartDb(l), Walk(l))
  {
    StartConsistent(l);
    WalkIsValid(l);
    WalkOrder(l);
    NothingStable(l);
    BothMoves(l);
    var q := WholeLoop(l, settings);
    hide StartDb, Walk, ByDepth, MovedTwice, MoveFolders, ReconcileFolders, SyncProjection, Agreement, Consistent,
         ValidScan, OrphansFolder;
    FoldersOnly(StartDb(l), settings, Walk(l), FolderMoves(MovedTwice(l), true), q);
    AgreesWhenFound(StartDb(l), settings, Walk(l));
    CleanPassAgrees(StartDb(l), settings, Walk(l));
  }

  // ----- the example -----

  const EXAMPLE := Layout("a", "a/s", "a/s/q", "yy", "yy/v", "yy/v/www", "a/s/q/s")
  const EXAMPLE_SETTINGS := Settings(Limits(Unlimited, Unlimited, Unlimited, Unlimited, Unlimited), 1000, Usage(0, 0))

  lemma Top(p: string)
    requires '/' !in p
    ensures TopLevel(p) && Depth(p) == 1 && BaseName(p) == p
  {
    SlashesPrefix(p, 0);
  }

  lemma Child(path: string, parent: string, name: string)
    requires path == parent + "/" + name && '/' !in name && parent != ""
    ensures !TopLevel(path) && Parent(path) == parent && BaseName(path) == name && Below(parent, path)
    ensures Depth(path) == Depth(parent) + 1
  {
    LastSlashIs(path, |parent|);
    ParentIsShallower(path);
  }

  lemma PrefixDiffers(f: string, p: string)
    requires f != "" && p != "" && LowerChar(f[0]) != LowerChar(p[0])
    ensures !Below(f, p)
  {
    assert |f| < |p| ==> Lower(f)[0] != Lower(p[..|f|])[0];
  }

  lemma Grandchild(path: string, top: string, tail: string)
    requires path == top + "/" + tail
    ensures Below(top, path)
  {
    assert path[..|top|] == top;
  }

  lemma ExampleFits()
    ensures EXAMPLE.Fits()
  {
    hide TopLevel, Parent, BaseName, Depth, SameName;
    Top("a"); Child("a/s", "a", "s"); Child("a/s/q", "a/s", "q"); Grandchild("a/s/q", "a", "s/q");
    Top("yy"); Child("yy/v", "yy", "v"); Child("yy/v/www", "yy/v", "www"); Grandchild("yy/v/www", "yy", "v/www");
    LongerDiffers("a", "yy");
    PrefixDiffers("a", "yy"); PrefixDiffers("a", "yy/v");
    PrefixDiffers("a/s/q/s", "yy/v/www"); PrefixDiffers("yy", "a/s/q");
  }

  /** Agreement fails here although the tables were consistent, the scan is well formed, and the
      pass returned without a rejection or a swallowed error. */
  lemma NestedMoveBreaksAgreement()
    ensures Consistent(StartDb(EXAMPLE)) && ValidScan(Walk(EXAMPLE))
    ensures SyncProjection(StartDb(EXAMPLE), EXAMPLE_SETTINGS, Walk(EXAMPLE)).Some?
    ensures var pass := SyncProjection(StartDb(EXAMPLE), EXAMPLE_SETTINGS, Walk(EXAMPLE)).value;
            pass.clean && !Agreement(pass.db, Walk(EXAMPLE))
    ensures OrphansFolder(StartDb(EXAMPLE), Walk(EXAMPLE))
  {
    ExampleFits();
    FittingMoveBreaks(EXAMPLE, EXAMPLE_SETTINGS);
  }
}

/** Agreement between the mapping table and the database parents, and what the folder
    moves do to it. */
module SmbLinks {
  import opened Wrappers
  import opened Text
  import opened Sorting
  import opened SmbTables
  import opened SmbSync
  import opened SmbMoves
  import opened SmbSettling

  /** A mapped file lies in the folder mapped at its parent path, unless both are gone. */
  ghost predicate FileLinked(db: Db, row: Row) {
    if TopLevel(row.path) then row.id in db.files && db.files[row.id].folder == None
    else
      var g := RowAt(db.rows, Parent(row.path));
      && g.Some? && g.value.kind == FOLDER
      && (if row.id in db.files then db.files[row.id].folder == Some(g.value.id)
          else g.value.id !in db.folders)
  }

  ghost predicate FilesLinked(db: Db) {
    forall row :: row in db.rows && row.kind == FILE ==> FileLinked(db, row)
  }

  /** Every mapped object exists and its database parent is the folder mapped at its parent path. */
  ghost predicate Linked(db: Db, row: Row) {
    match row.kind
    case FOLDER => FolderLinked(db.rows, db.folders, row)
    case FILE => row.id in db.files && LookupParent(db.rows, row.path) == FoundParent(db.files[row.id].folder)
  }

  ghost predicate AllLinked(db: Db) {
    forall row :: row in db.rows ==> Linked(db, row)
  }

  lemma AllLinkedFiles(db: Db)
    requires AllLinked(db)
    ensures FilesLinked(db)
  {
    forall row | row in db.rows && row.kind == FILE ensures FileLinked(db, row) {
      assert Linked(db, row);
    }
  }

  // ----- paths under a rewritten prefix -----

  lemma LastSlashIs(p: string, i: nat)
    requires i < |p| && p[i] == '/' && forall k :: i < k < |p| ==> p[k] != '/'
    ensures LastSlash(p) == i
  {}

  lemma LastSlashOfRebased(oldPath: string, newPath: string, p: string)
    requires Below(oldPath, p)
    ensures LastSlash(p) >= |oldPath|
    ensures LastSlash(RebasedPath(oldPath, newPath, p)) == |newPath| + (LastSlash(p) - |oldPath|)
  {
    hide SameName;
    var q, n, i := RebasedPath(oldPath, newPath, p), |oldPath|, LastSlash(p);
    var j := |newPath| + (i - n);
    assert q[j] == p[i];
    forall k | j < k < |q| ensures q[k] != '/' {
      assert q[k] == p[k - |newPath| + n];
    }
    LastSlashIs(q, j);
  }

  lemma ParentOfRebased(oldPath: string, newPath: string, p: string)
    requires Below(oldPath, p)
    ensures var q := RebasedPath(oldPath, newPath, p);
            && !TopLevel(q)
            && (if LastSlash(p) == |oldPath| then Parent(q) == newPath && SameName(Parent(p), oldPath)
                else Below(oldPath, Parent(p)) && Parent(q) == RebasedPath(oldPath, newPath, Parent(p)))
  {
    hide LastSlash, SameName;
    var q, n, i := RebasedPath(oldPath, newPath, p), |oldPath|, LastSlash(p);
    BelowParent(oldPath, p);
    LastSlashOfRebased(oldPath, newPath, p);
    var j := |newPath| + (i - n);
    if i > n {
      assert Parent(p)[..n] == p[..n];
      assert q[..j] == newPath + p[n..i];
      assert Parent(p)[n..] == p[n..i];
    } else {
      assert Parent(q) == newPath;
    }
  }

  lemma SameRebased(oldPath: string, newPath: string, p: string, q: string)
    requires Below(oldPath, p) && Below(oldPath, q) && SameName(p, q)
    ensures SameName(RebasedPath(oldPath, newPath, p), RebasedPath(oldPath, newPath, q))
  {
    SameNameSlice(p, q, |oldPath|, |p|);
    assert |Lower(p)| == |Lower(q)|;
    LowerConcat(newPath, p[|oldPath|..]);
    LowerConcat(newPath, q[|oldPath|..]);
  }

  /** r is rows after the move. */
  ghost predicate Moved(rows: seq<Row>, moved: Row, newPath: string, ident: Identity, r: seq<Row>) {
    && UniqueRows(rows) && UniqueRows(r) && |r| == |rows|
    && moved in rows && moved.kind == FOLDER
    && (forall i :: 0 <= i < |rows| ==> r[i] == Rebase(rows[i], moved, newPath, ident))
  }

  lemma RebasedMember(rows: seq<Row>, moved: Row, newPath: string, ident: Identity, r: seq<Row>, row: Row)
    requires Moved(rows, moved, newPath, ident, r) && row in rows
    ensures Rebase(row, moved, newPath, ident) in r
  {
    var i :| 0 <= i < |rows| && rows[i] == row;
    assert r[i] == Rebase(row, moved, newPath, ident);
  }

  lemma RebasedFrom(
    rows: seq<Row>, moved: Row, newPath: string, ident: Identity, r: seq<Row>, row': Row
  ) returns (row: Row)
    requires Moved(rows, moved, newPath, ident, r) && row' in r
    ensures row in rows && row' == Rebase(row, moved, newPath, ident)
    ensures row'.kind == row.kind && row'.id == row.id
  {
    var i :| 0 <= i < |r| && r[i] == row';
    row := rows[i];
    assert IsKey(row, FOLDER, moved.id) ==> row == moved;
  }

  lemma OnlyMovedKey(rows: seq<Row>, moved: Row, row: Row)
    requires UniqueRows(rows) && moved in rows && moved.kind == FOLDER && row in rows
    ensures IsKey(row, FOLDER, moved.id) <==> row == moved
  {}

  /** A row's parent row follows it: prefix rewriting keeps parents and children together. */
  lemma RebasedParentRow(rows: seq<Row>, moved: Row, newPath: string, ident: Identity, r: seq<Row>, row: Row, g: Row)
    requires Moved(rows, moved, newPath, ident, r)
    requires row in rows && row != moved && !TopLevel(row.path) && RowAt(rows, Parent(row.path)) == Some(g)
    ensures var row' := Rebase(row, moved, newPath, ident);
            !TopLevel(row'.path) && RowAt(r, Parent(row'.path)) == Some(Rebase(g, moved, newPath, ident))
  {
    var row', g' := Rebase(row, moved, newPath, ident), Rebase(g, moved, newPath, ident);
    OnlyMovedKey(rows, moved, row);
    OnlyMovedKey(rows, moved, g);
    RebasedMember(rows, moved, newPath, ident, r, g);
    if Below(moved.path, row.path) {
      ParentOfRebased(moved.path, newPath, row.path);
      if LastSlash(row.path) == |moved.path| {
        assert g == moved;
      } else {
        BelowSameName(moved.path, moved.path, g.path, Parent(row.path));
        SameRebased(moved.path, newPath, g.path, Parent(row.path));
        assert g != moved by { assert |Lower(g.path)| == |Lower(Parent(row.path))|; }
      }
    } else {
      ParentBelow(row.path);
      if g == moved {
        BelowSameName(moved.path, Parent(row.path), row.path, row.path);
        assert false;
      } else if Below(moved.path, g.path) {
        BelowSameName(moved.path, moved.path, g.path, Parent(row.path));
        BelowTransitive(moved.path, Parent(row.path), row.path);
        assert false;
      }
    }
    RowAtIs(r, Parent(row'.path), g');
  }

  lemma TopLevelUnmoved(moved: Row, newPath: string, ident: Identity, row: Row)
    requires TopLevel(row.path) && !IsKey(row, FOLDER, moved.id)
    ensures Rebase(row, moved, newPath, ident) == row
  {
    if Below(moved.path, row.path) {
      BelowParent(moved.path, row.path);
    }
  }

  // ----- a folder move -----

  /** The tables after moveFolderFromSmb. */
  ghost predicate MovedFolder(db: Db, db': Db, moved: Row, e: Entry) {
    && Moved(db.rows, moved, e.path, e.ident, db'.rows)
    && db'.folders.Keys == db.folders.Keys
    && (forall id :: id in db.folders && id != moved.id ==> db'.folders[id] == db.folders[id])
    && (moved.id in db.folders ==> LookupParent(db.rows, e.path) == FoundParent(db'.folders[moved.id].parent))
    && db'.files == db.files && db'.nextId == db.nextId
  }

  /** The folder's record and the mappings change; everything else stays. */
  lemma MoveFolderTables(db: Db, moved: Row, e: Entry)
    requires MoveFolderFromSmb(db, moved, e).Some? && MoveFolderFromSmb(db, moved, e).value.moved
    ensures var db' := MoveFolderFromSmb(db, moved, e).value.db;
            && MoveMappings(db.rows, moved, e.path, e.ident) == Some(db'.rows)
            && db'.folders.Keys == db.folders.Keys
            && (forall id :: id in db.folders && id != moved.id ==> db'.folders[id] == db.folders[id])
            && LookupParent(db.rows, e.path).FoundParent?
            && (moved.id in db.folders ==> LookupParent(db.rows, e.path) == FoundParent(db'.folders[moved.id].parent))
            && db'.files == db.files && db'.nextId == db.nextId
  {
    hide UniqueFolderName, LookupParent, MoveMappings, NameTaken, BaseName;
  }

  lemma UnmovedSame(db: Db, moved: Row, e: Entry)
    requires MoveFolderFromSmb(db, moved, e).Some? && !MoveFolderFromSmb(db, moved, e).value.moved
    ensures MoveFolderFromSmb(db, moved, e).value.db == db
  {
    hide UniqueFolderName, MoveMappings, LookupParent;
  }

  lemma MoveFolderShape(db: Db, moved: Row, e: Entry)
    requires UniqueRows(db.rows) && Distinct(db.rows) && moved in db.rows && moved.kind == FOLDER
    requires MoveFolderFromSmb(db, moved, e).Some? && MoveFolderFromSmb(db, moved, e).value.moved
    ensures MovedFolder(db, MoveFolderFromSmb(db, moved, e).value.db, moved, e)
    ensures Distinct(MoveFolderFromSmb(db, moved, e).value.db.rows)
    ensures LookupParent(db.rows, e.path).FoundParent?
  {
    hide UniqueRows, Distinct, MoveFolderFromSmb, LookupParent, MoveMappings, Rebase;
    var db' := MoveFolderFromSmb(db, moved, e).value.db;
    MoveFolderTables(db, moved, e);
    MoveMappingsResult(db.rows, moved, e.path, e.ident, db'.rows);
  }

  lemma MoveKeepsFilesLinked(db: Db, db': Db, moved: Row, e: Entry)
    requires FilesLinked(db) && MovedFolder(db, db', moved, e)
    ensures FilesLinked(db')
  {
    forall row' | row' in db'.rows && row'.kind == FILE ensures FileLinked(db', row') {
      var row := RebasedFrom(db.rows, moved, e.path, e.ident, db'.rows, row');
      MoveKeepsFileLinked(db, db', moved, e, row);
    }
  }

  lemma MoveKeepsFileLinked(db: Db, db': Db, moved: Row, e: Entry, row: Row)
    requires FilesLinked(db) && MovedFolder(db, db', moved, e) && row in db.rows && row.kind == FILE
    ensures FileLinked(db', Rebase(row, moved, e.path, e.ident))
  {
    hide Below, UniqueRows;
    assert FileLinked(db, row);
    if TopLevel(row.path) {
      TopLevelUnmoved(moved, e.path, e.ident, row);
    } else {
      RebasedParentRow(db.rows, moved, e.path, e.ident, db'.rows, row, RowAt(db.rows, Parent(row.path)).value);
    }
  }

  /** A row other than the moved one keeps its parent object. */
  lemma MoveKeepsLookup(db: Db, db': Db, moved: Row, e: Entry, row: Row)
    requires MovedFolder(db, db', moved, e) && row in db.rows && row != moved
    requires LookupParent(db.rows, row.path).FoundParent?
    ensures LookupParent(db'.rows, Rebase(row, moved, e.path, e.ident).path) == LookupParent(db.rows, row.path)
  {
    hide Below, UniqueRows;
    OnlyMovedKey(db.rows, moved, row);
    if TopLevel(row.path) {
      TopLevelUnmoved(moved, e.path, e.ident, row);
    } else {
      RebasedParentRow(db.rows, moved, e.path, e.ident, db'.rows, row, RowAt(db.rows, Parent(row.path)).value);
    }
  }

  /** Outside its own subtree, the moved folder's new parent stays where it is. */
  lemma MoveKeepsTarget(db: Db, db': Db, moved: Row, e: Entry)
    requires MovedFolder(db, db', moved, e)
    requires LookupParent(db.rows, e.path).FoundParent? && !Below(moved.path, e.path)
    ensures LookupParent(db'.rows, e.path) == LookupParent(db.rows, e.path)
  {
    if !TopLevel(e.path) {
      var g := RowAt(db.rows, Parent(e.path)).value;
      OnlyMovedKey(db.rows, moved, g);
      ParentBelow(e.path);
      if g == moved {
        BelowSameName(moved.path, Parent(e.path), e.path, e.path);
        assert false;
      } else if Below(moved.path, g.path) {
        BelowSameName(moved.path, moved.path, g.path, Parent(e.path));
        BelowTransitive(moved.path, Parent(e.path), e.path);
        assert false;
      }
      RebasedMember(db.rows, moved, e.path, e.ident, db'.rows, g);
      RowAtIs(db'.rows, Parent(e.path), g);
    }
  }

  /** A move that does not nest the folder below itself keeps every link. */
  lemma MoveKeepsAllLinked(db: Db, db': Db, moved: Row, e: Entry)
    requires AllLinked(db) && MovedFolder(db, db', moved, e)
    requires LookupParent(db.rows, e.path).FoundParent? && !Below(moved.path, e.path)
    ensures AllLinked(db')
  {
    forall row' | row' in db'.rows ensures Linked(db', row') {
      var row := RebasedFrom(db.rows, moved, e.path, e.ident, db'.rows, row');
      OnlyMovedKey(db.rows, moved, row);
      assert Linked(db, row);
      if row == moved {
        MoveKeepsTarget(db, db', moved, e);
      } else {
        MoveKeepsLookup(db, db', moved, e, row);
      }
    }
  }

  /** What the whole loop of folder moves keeps. */
  ghost predicate MoveInvariant(db: Db) {
    UniqueRows(db.rows) && Distinct(db.rows) && Bounded(db) && FilesLinked(db)
  }

  lemma MoveKeepsBounded(db: Db, db': Db, moved: Row, e: Entry)
    requires Bounded(db) && MovedFolder(db, db', moved, e)
    ensures Bounded(db')
  {
    forall row' | row' in db'.rows ensures row'.id < db'.nextId {
      var row := RebasedFrom(db.rows, moved, e.path, e.ident, db'.rows, row');
    }
  }

  lemma MovedRowsUnique(db: Db, db': Db, moved: Row, e: Entry)
    requires MovedFolder(db, db', moved, e)
    ensures UniqueRows(db'.rows)
  {}

  lemma MoveKeepsInvariant(db: Db, moved: Row, e: Entry)
    requires MoveInvariant(db) && moved in db.rows && moved.kind == FOLDER
    requires MoveFolderFromSmb(db, moved, e).Some?
    ensures MoveInvariant(MoveFolderFromSmb(db, moved, e).value.db)
  {
    hide UniqueFolderName, LookupParent, MoveMappings, MovedFolder, FilesLinked, Bounded, UniqueRows, Distinct;
    var r := MoveFolderFromSmb(db, moved, e).value;
    if r.moved {
      MoveFolderShape(db, moved, e);
      MoveKeepsFilesLinked(db, r.db, moved, e);
      MoveKeepsBounded(db, r.db, moved, e);
      MovedRowsUnique(db, r.db, moved, e);
    }
  }

  lemma {:induction false} MoveFoldersKeep(db: Db, stable: set<nat>, scan: seq<Entry>, k: nat, nested: bool)
    requires k <= |scan| && MoveInvariant(db)
    requires MoveFolders(db, stable, scan, k, nested).Some?
    ensures MoveInvariant(MoveFolders(db, stable, scan, k, nested).value.db)
    ensures nested ==> MoveFolders(db, stable, scan, k, nested).value.nested
    decreases |scan| - k
  {
    if k < |scan| {
      var moved := LastWithIdentity(db.rows, FOLDER, scan[k].ident);
      if !WantsMove(moved, stable, scan[k]) {
        MoveFoldersKeep(db, stable, scan, k + 1, nested);
      } else {
        MoveKeepsInvariant(db, moved.value, scan[k]);
        var r := MoveFolderFromSmb(db, moved.value, scan[k]).value;
        MoveFoldersKeep(r.db, stable, scan, k + 1, nested || (r.moved && Below(moved.value.path, scan[k].path)));
      }
    }
  }

  lemma InvariantRows(db: Db)
    requires MoveInvariant(db)
    ensures UniqueRows(db.rows) && Distinct(db.rows)
  {}

  /** Without nested moves the loop keeps every link. */
  lemma {:induction false} MoveFoldersKeepLinks(db: Db, stable: set<nat>, scan: seq<Entry>, k: nat, nested: bool)
    requires k <= |scan| && MoveInvariant(db) && AllLinked(db)
    requires MoveFolders(db, stable, scan, k, nested).Some? && !MoveFolders(db, stable, scan, k, nested).value.nested
    ensures AllLinked(MoveFolders(db, stable, scan, k, nested).value.db)
    decreases |scan| - k
  {
    hide AllLinked, MoveInvariant, MovedFolder, LookupParent, LastWithIdentity;
    if k < |scan| {
      var moved := LastWithIdentity(db.rows, FOLDER, scan[k].ident);
      if !WantsMove(moved, stable, scan[k]) {
        MoveFoldersKeepLinks(db, stable, scan, k + 1, nested);
      } else {
        var r := MoveFolderFromSmb(db, moved.value, scan[k]).value;
        var nested' := nested || (r.moved && Below(moved.value.path, scan[k].path));
        MoveKeepsInvariant(db, moved.value, scan[k]);
        MoveFoldersKeep(r.db, stable, scan, k + 1, nested');
        if r.moved {
          InvariantRows(db);
          MoveFolderShape(db, moved.value, scan[k]);
          MoveKeepsAllLinked(db, r.db, moved.value, scan[k]);
        }
        MoveFoldersKeepLinks(r.db, stable, scan, k + 1, nested');
      }
    }
  }
}

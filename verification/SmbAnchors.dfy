/** A condition on the mappings and the scan under which no folder is moved below its own mapped
    path: whatever lies above a moved folder is in its place, or new. */
module SmbAnchors {
  import opened Wrappers
  import opened Text
  import opened SmbTables
  import opened SmbSync
  import opened SmbScan
  import opened SmbSettling
  import opened SmbLinks
  import opened SmbOrphans

  /** Neither the path nor the inode of the scanned folder is mapped as a folder. */
  predicate Unknown(rows: seq<Row>, e: Entry) {
    FolderIdAt(rows, e.path).None? && LastWithIdentity(rows, FOLDER, e.ident).None?
  }

  /** The entry is a mapped folder that is not at its mapped path. */
  predicate Moves(rows: seq<Row>, scan: seq<Entry>, e: Entry) {
    WantsMove(LastWithIdentity(rows, FOLDER, e.ident), StableMappings(rows, scan, FOLDER), e)
  }

  predicate AboveMoved(rows: seq<Row>, scan: seq<Entry>, f: Entry) {
    exists e :: e in scan && Moves(rows, scan, e) && Below(f.path, e.path)
  }

  /** Every scanned folder above a moved one is at its mapped path, or wholly new. */
  predicate Anchored(rows: seq<Row>, scan: seq<Entry>) {
    forall f :: f in scan && AboveMoved(rows, scan, f) ==> Matched(rows, f) || Unknown(rows, f)
  }

  predicate MovesAnchored(db: Db, scan: seq<Entry>) {
    Anchored(db.rows, ScanFolders(scan))
  }

  // ----- what the moves leave alone -----

  /** Row by row the same object and inode; only paths may differ. */
  ghost predicate SameObjects(rows: seq<Row>, now: seq<Row>) {
    && |now| == |rows|
    && forall i :: 0 <= i < |rows| ==>
        now[i].kind == rows[i].kind && now[i].id == rows[i].id && now[i].ident == rows[i].ident
  }

  lemma {:induction false} SameLast(rows: seq<Row>, now: seq<Row>, kind: Kind, ident: Identity)
    requires SameObjects(rows, now)
    ensures var a, b := LastWithIdentity(rows, kind, ident), LastWithIdentity(now, kind, ident);
            (a.Some? <==> b.Some?) && (a.Some? ==> a.value.id == b.value.id)
    decreases |rows|
  {
    if rows != [] {
      SameLast(rows[..|rows| - 1], now[..|now| - 1], kind, ident);
    }
  }

  /** Above the moved folders nothing has changed. */
  ghost predicate AnchorsHold(rows: seq<Row>, scan: seq<Entry>, now: seq<Row>) {
    forall f :: f in scan && AboveMoved(rows, scan, f) ==>
      if Matched(rows, f) then RowAt(now, f.path) == RowAt(rows, f.path) else FolderIdAt(now, f.path).None?
  }

  lemma MatchedIsStable(rows: seq<Row>, scan: seq<Entry>, f: Entry)
    requires FolderOrder(scan) && f in scan && Matched(rows, f)
    ensures RowAt(rows, f.path).value.id in StableMappings(rows, scan, FOLDER)
  {
    var row := RowAt(rows, f.path).value;
    var e := LastAt(scan, row.path);
    var i :| 0 <= i < |scan| && scan[i] == f;
    if e.Some? {
      var j :| 0 <= j < |scan| && scan[j] == e.value;
      assert i == j;
    }
    assert IsStable(row, scan);
  }

  /** A folder that is to be moved lies above no moved folder. */
  lemma MovedIsNotAbove(rows: seq<Row>, scan: seq<Entry>, now: seq<Row>, moved: Row, k: nat)
    requires FolderOrder(scan) && Anchored(rows, scan) && AnchorsHold(rows, scan, now) && UniqueRows(now)
    requires moved in now && moved.kind == FOLDER && moved.id !in StableMappings(rows, scan, FOLDER)
    requires k < |scan| && Moves(rows, scan, scan[k])
    ensures !Below(moved.path, scan[k].path)
  {
    hide Below, SameName, StableMappings, UniqueRows;
    if Below(moved.path, scan[k].path) {
      AncestorEarlier(scan, k, moved.path);
      var i :| 0 <= i < k && SameName(scan[i].path, moved.path);
      SameNameSymmetric(scan[i].path, moved.path);
      SameNameReflexive(scan[k].path);
      BelowSameName(moved.path, scan[i].path, scan[k].path, scan[k].path);
      assert AboveMoved(rows, scan, scan[i]);
      RowAtIs(now, scan[i].path, moved);
      if Matched(rows, scan[i]) {
        MatchedIsStable(rows, scan, scan[i]);
      }
    }
  }

  /** So it takes no row along that is above a moved folder. */
  lemma AboveStays(rows: seq<Row>, scan: seq<Entry>, now: seq<Row>, moved: Row, f: Entry)
    requires FolderOrder(scan) && Anchored(rows, scan) && AnchorsHold(rows, scan, now) && UniqueRows(now)
    requires moved in now && moved.kind == FOLDER && moved.id !in StableMappings(rows, scan, FOLDER)
    requires AboveMoved(rows, scan, f)
    ensures !Below(moved.path, f.path) && !SameName(moved.path, f.path)
  {
    hide Below, SameName, StableMappings, UniqueRows, Anchored, AnchorsHold, FolderOrder;
    var e :| e in scan && Moves(rows, scan, e) && Below(f.path, e.path);
    var k :| 0 <= k < |scan| && scan[k] == e;
    MovedIsNotAbove(rows, scan, now, moved, k);
    if Below(moved.path, f.path) {
      BelowTransitive(moved.path, f.path, e.path);
    } else if SameName(moved.path, f.path) {
      SameNameSymmetric(moved.path, f.path);
      SameNameReflexive(e.path);
      BelowSameName(moved.path, f.path, e.path, e.path);
    }
  }

  /** The row of an entry in its place is not touched. */
  lemma MatchedStays(rows: seq<Row>, scan: seq<Entry>, now: seq<Row>, moved: Row, e: Entry, now': seq<Row>, f: Entry)
    requires FolderOrder(scan) && Anchored(rows, scan) && AnchorsHold(rows, scan, now)
    requires moved.id !in StableMappings(rows, scan, FOLDER) && Moved(now, moved, e.path, e.ident, now')
    requires f in scan && AboveMoved(rows, scan, f) && Matched(rows, f)
    ensures RowAt(now', f.path) == RowAt(rows, f.path)
  {
    hide Below, SameName, StableMappings, UniqueRows, FolderOrder;
    var row := RowAt(rows, f.path).value;
    assert row in now && SameName(row.path, f.path);
    AboveStays(rows, scan, now, moved, f);
    MatchedIsStable(rows, scan, f);
    SameNameReflexive(moved.path);
    BelowSameName(moved.path, moved.path, row.path, f.path);
    OnlyMovedKey(now, moved, row);
    RebasedMember(now, moved, e.path, e.ident, now', row);
    RowAtIs(now', f.path, row);
  }

  /** Where no folder was mapped, none arrives. */
  lemma UnknownStays(rows: seq<Row>, scan: seq<Entry>, now: seq<Row>, moved: Row, e: Entry, now': seq<Row>, f: Entry)
    requires FolderOrder(scan) && Anchored(rows, scan) && AnchorsHold(rows, scan, now)
    requires moved.id !in StableMappings(rows, scan, FOLDER) && Moved(now, moved, e.path, e.ident, now')
    requires e in scan && LastWithIdentity(rows, FOLDER, e.ident).Some?
    requires f in scan && AboveMoved(rows, scan, f) && Unknown(rows, f) && !Matched(rows, f)
    ensures FolderIdAt(now', f.path).None?
  {
    hide Below, SameName, StableMappings, UniqueRows, FolderOrder, LastWithIdentity, AboveMoved, Anchored;
    if FolderIdAt(now', f.path).Some? {
      var r' := RowAt(now', f.path).value;
      var r := RebasedFrom(now, moved, e.path, e.ident, now', r');
      OnlyMovedKey(now, moved, r);
      if r == moved {
        SamePathSameEntry(scan, e, f);
      } else if Below(moved.path, r.path) {
        SameNameReflexive(e.path);
        BelowNew(moved.path, e.path, r.path);
        BelowSameName(e.path, e.path, r'.path, f.path);
        LandsOnMatched(rows, scan, now, moved, e, now', f);
      } else {
        RowAtIs(now, f.path, r);
      }
    }
  }

  lemma SamePathSameEntry(scan: seq<Entry>, e: Entry, f: Entry)
    requires FolderOrder(scan) && e in scan && f in scan && SameName(e.path, f.path)
    ensures e == f
  {
    var i :| 0 <= i < |scan| && scan[i] == e;
    var j :| 0 <= j < |scan| && scan[j] == f;
    assert i == j;
  }

  lemma BelowNew(oldPath: string, newPath: string, path: string)
    requires Below(oldPath, path)
    ensures Below(newPath, RebasedPath(oldPath, newPath, path))
  {
    assert RebasedPath(oldPath, newPath, path)[..|newPath|] == newPath;
  }

  /** A folder cannot land above a moved one: what is known there is in its place. */
  lemma LandsOnMatched(rows: seq<Row>, scan: seq<Entry>, now: seq<Row>, moved: Row, e: Entry, now': seq<Row>, f: Entry)
    requires FolderOrder(scan) && Anchored(rows, scan) && AnchorsHold(rows, scan, now)
    requires moved.id !in StableMappings(rows, scan, FOLDER) && Moved(now, moved, e.path, e.ident, now')
    requires e in scan && LastWithIdentity(rows, FOLDER, e.ident).Some?
    requires AboveMoved(rows, scan, f)
    ensures !Below(e.path, f.path)
  {
    hide Below, SameName, StableMappings, UniqueRows, FolderOrder, LastWithIdentity;
    if Below(e.path, f.path) {
      var g :| g in scan && Moves(rows, scan, g) && Below(f.path, g.path);
      BelowTransitive(e.path, f.path, g.path);
      assert AboveMoved(rows, scan, e);
      MatchedStays(rows, scan, now, moved, e, now', e);
      MatchedIsStable(rows, scan, e);
      SameNameReflexive(e.path);
      RebasedMember(now, moved, e.path, e.ident, now', moved);
      RowAtIs(now', e.path, Row(FOLDER, moved.id, e.path, e.ident));
    }
  }

  lemma MoveKeepsAnchors(rows: seq<Row>, scan: seq<Entry>, now: seq<Row>, moved: Row, e: Entry, now': seq<Row>)
    requires FolderOrder(scan) && Anchored(rows, scan) && AnchorsHold(rows, scan, now)
    requires moved.id !in StableMappings(rows, scan, FOLDER) && Moved(now, moved, e.path, e.ident, now')
    requires e in scan && LastWithIdentity(rows, FOLDER, e.ident).Some?
    ensures AnchorsHold(rows, scan, now')
  {
    hide Below, SameName, StableMappings, UniqueRows, FolderOrder, LastWithIdentity, AboveMoved, Matched, Unknown,
         FolderIdAt, Moved;
    forall f | f in scan && AboveMoved(rows, scan, f)
      ensures if Matched(rows, f) then RowAt(now', f.path) == RowAt(rows, f.path) else FolderIdAt(now', f.path).None?
    {
      if Matched(rows, f) {
        MatchedStays(rows, scan, now, moved, e, now', f);
      } else {
        UnknownStays(rows, scan, now, moved, e, now', f);
      }
    }
  }

  lemma MoveKeepsObjects(rows: seq<Row>, now: seq<Row>, moved: Row, e: Entry, now': seq<Row>)
    requires SameObjects(rows, now) && Moved(now, moved, e.path, e.ident, now') && SameIdentity(moved.ident, e.ident)
    ensures SameObjects(rows, now')
  {
    hide Below;
    forall i | 0 <= i < |rows|
        ensures now'[i].kind == rows[i].kind && now'[i].id == rows[i].id && now'[i].ident == rows[i].ident {
      assert now[i] in now;
      OnlyMovedKey(now, moved, now[i]);
    }
  }

  /** A folder that wants to move now wanted to from the start. */
  lemma MovesFromTheStart(rows: seq<Row>, scan: seq<Entry>, now: seq<Row>, k: nat)
    requires FolderOrder(scan) && UniqueRows(rows) && SameObjects(rows, now) && k < |scan|
    requires WantsMove(LastWithIdentity(now, FOLDER, scan[k].ident), StableMappings(rows, scan, FOLDER), scan[k])
    ensures Moves(rows, scan, scan[k])
  {
    hide StableMappings;
    SameLast(rows, now, FOLDER, scan[k].ident);
    var row := LastWithIdentity(rows, FOLDER, scan[k].ident).value;
    if SameName(row.path, scan[k].path) {
      RowAtIs(rows, scan[k].path, row);
      MatchedIsStable(rows, scan, scan[k]);
      assert false;
    }
  }

  // ----- the loop -----

  lemma {:induction false} AnchoredMovesAreNotNested(rows: seq<Row>, db: Db, scan: seq<Entry>, k: nat)
    requires FolderOrder(scan) && UniqueRows(rows) && Anchored(rows, scan) && k <= |scan|
    requires MoveInvariant(db) && SameObjects(rows, db.rows) && AnchorsHold(rows, scan, db.rows)
    requires MoveFolders(db, StableMappings(rows, scan, FOLDER), scan, k, false).Some?
    ensures !MoveFolders(db, StableMappings(rows, scan, FOLDER), scan, k, false).value.nested
    decreases |scan| - k
  {
    hide StableMappings, FolderOrder, UniqueRows, Anchored, AnchorsHold, SameObjects, MoveInvariant, LookupParent;
    if k < |scan| {
      var stable, e := StableMappings(rows, scan, FOLDER), scan[k];
      var moved := LastWithIdentity(db.rows, FOLDER, e.ident);
      if !WantsMove(moved, stable, e) {
        AnchoredMovesAreNotNested(rows, db, scan, k + 1);
      } else {
        var r := MoveFolderFromSmb(db, moved.value, e).value;
        MoveKeepsInvariant(db, moved.value, e);
        if r.moved {
          AnchoredMove(rows, db, scan, k, moved.value, r.db);
        }
        AnchoredMovesAreNotNested(rows, r.db, scan, k + 1);
      }
    }
  }

  lemma AnchoredMove(rows: seq<Row>, db: Db, scan: seq<Entry>, k: nat, moved: Row, db': Db)
    requires FolderOrder(scan) && UniqueRows(rows) && Anchored(rows, scan) && k < |scan|
    requires MoveInvariant(db) && SameObjects(rows, db.rows) && AnchorsHold(rows, scan, db.rows)
    requires LastWithIdentity(db.rows, FOLDER, scan[k].ident) == Some(moved)
    requires WantsMove(Some(moved), StableMappings(rows, scan, FOLDER), scan[k])
    requires MoveFolderFromSmb(db, moved, scan[k]) == Some(MoveResult(db', true))
    ensures !Below(moved.path, scan[k].path)
    ensures SameObjects(rows, db'.rows) && AnchorsHold(rows, scan, db'.rows)
  {
    hide StableMappings, FolderOrder, UniqueRows, Anchored, AnchorsHold, SameObjects, FilesLinked, Bounded,
         MoveFolderFromSmb, Moved;
    MoveFolderShape(db, moved, scan[k]);
    MovesFromTheStart(rows, scan, db.rows, k);
    MovedIsNotAbove(rows, scan, db.rows, moved, k);
    MoveKeepsObjects(rows, db.rows, moved, scan[k], db'.rows);
    MoveKeepsAnchors(rows, scan, db.rows, moved, scan[k], db'.rows);
  }
}

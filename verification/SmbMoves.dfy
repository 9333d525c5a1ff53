/** What moving a mapped folder does to the mapping table. */
module SmbMoves {
  import opened Wrappers
  import opened Text
  import opened Sorting
  import opened SmbTables
  import opened SmbSync

  /** The row that a move leaves in place of a given one. */
  function Rebase(row: Row, moved: Row, newPath: string, ident: Identity): Row {
    if IsKey(row, FOLDER, moved.id) then Row(FOLDER, moved.id, newPath, ident)
    else if Below(moved.path, row.path) then row.(path := RebasedPath(moved.path, newPath, row.path))
    else row
  }

  ghost predicate DistinctKeys(rows: seq<Row>) {
    forall i, j :: 0 <= i < j < |rows| ==> !IsKey(rows[i], rows[j].kind, rows[j].id)
  }

  lemma {:induction false} RebaseRowsUnique(
    rows: seq<Row>, pending: seq<Row>, oldPath: string, newPath: string, r: seq<Row>)
    requires UniqueRows(rows)
    requires forall row :: row in pending ==> Below(oldPath, row.path)
    requires RebaseRows(rows, pending, oldPath, newPath) == Some(r)
    ensures UniqueRows(r)
    decreases |pending|
  {
    if pending != [] {
      var p := pending[0];
      RelocateMembers(rows, p.kind, p.id, RebasedPath(oldPath, newPath, p.path), p.ident);
      RebaseRowsUnique(RenameRow(rows, p, RebasedPath(oldPath, newPath, p.path)).value,
                       pending[1..], oldPath, newPath, r);
    }
  }

  /** One row per pending update; every other row stays. */
  lemma {:induction false} RebaseRowsAt(
    rows: seq<Row>, pending: seq<Row>, oldPath: string, newPath: string, r: seq<Row>, i: nat)
    requires DistinctKeys(pending)
    requires forall row :: row in pending ==> Below(oldPath, row.path)
    requires RebaseRows(rows, pending, oldPath, newPath) == Some(r)
    requires i < |rows|
    ensures |r| == |rows|
    ensures forall p :: p in pending && IsKey(rows[i], p.kind, p.id) ==>
              r[i] == p.(path := RebasedPath(oldPath, newPath, p.path))
    ensures (forall p :: p in pending ==> !IsKey(rows[i], p.kind, p.id)) ==> r[i] == rows[i]
    decreases |pending|
  {
    if pending != [] {
      var p, rest := pending[0], pending[1..];
      var next := RenameRow(rows, p, RebasedPath(oldPath, newPath, p.path)).value;
      assert DistinctKeys(rest);
      RebaseRowsAt(next, rest, oldPath, newPath, r, i);
      if IsKey(rows[i], p.kind, p.id) {
        forall q | q in rest ensures !IsKey(rows[i], q.kind, q.id) {
          var j :| 0 <= j < |rest| && rest[j] == q;
          assert pending[j + 1] == q;
        }
      } else {
        assert next[i] == rows[i];
      }
    }
  }

  lemma {:induction false} RowsBelowDistinct(rows: seq<Row>, path: string)
    requires Distinct(rows)
    ensures Distinct(RowsBelow(rows, path))
  {
    if rows != [] {
      RowsBelowDistinct(rows[1..], path);
      assert rows[0] !in rows[1..];
    }
  }

  lemma DescendantsListed(rows: seq<Row>, path: string)
    requires UniqueRows(rows) && Distinct(rows)
    ensures forall row :: row in Descendants(rows, path) <==> row in rows && Below(path, row.path)
    ensures DistinctKeys(Descendants(rows, path))
  {
    var d := Descendants(rows, path);
    SortMembers(RowsBelow(rows, path), PathLength());
    RowsBelowDistinct(rows, path);
    SortDistinct(RowsBelow(rows, path), PathLength());
    forall i, j | 0 <= i < j < |d| ensures !IsKey(d[i], d[j].kind, d[j].id) {
      assert d[i] in d && d[j] in d;
    }
  }

  lemma MoveMappingsAt(rows: seq<Row>, moved: Row, newPath: string, ident: Identity, r: seq<Row>, i: nat)
    requires UniqueRows(rows) && Distinct(rows)
    requires moved in rows && moved.kind == FOLDER
    requires MoveMappings(rows, moved, newPath, ident) == Some(r)
    requires i < |rows|
    ensures |r| == |rows|
    ensures r[i] == Rebase(rows[i], moved, newPath, ident)
  {
    var first := Relocate(rows, FOLDER, moved.id, newPath, ident).value;
    var pending := Descendants(rows, moved.path);
    DescendantsListed(rows, moved.path);
    RebaseRowsAt(first, pending, moved.path, newPath, r, i);
    var row := rows[i];
    assert row in rows;
    if IsKey(row, FOLDER, moved.id) {
      assert row == moved;
      forall p | p in pending ensures !IsKey(first[i], p.kind, p.id) {
        assert p in rows && p != moved;
      }
    } else if Below(moved.path, row.path) {
      assert row in pending;
    } else {
      forall p | p in pending ensures !IsKey(first[i], p.kind, p.id) {
        assert p in rows && p != row;
      }
    }
  }

  /** A successful move rewrites exactly the moved row and the rows below it. */
  lemma MoveMappingsResult(rows: seq<Row>, moved: Row, newPath: string, ident: Identity, r: seq<Row>)
    requires UniqueRows(rows) && Distinct(rows)
    requires moved in rows && moved.kind == FOLDER
    requires MoveMappings(rows, moved, newPath, ident) == Some(r)
    ensures |r| == |rows| && UniqueRows(r) && Distinct(r)
    ensures forall i :: 0 <= i < |rows| ==> r[i] == Rebase(rows[i], moved, newPath, ident)
  {
    DescendantsListed(rows, moved.path);
    RelocateMembers(rows, FOLDER, moved.id, newPath, ident);
    RebaseRowsUnique(Relocate(rows, FOLDER, moved.id, newPath, ident).value,
                     Descendants(rows, moved.path), moved.path, newPath, r);
    MoveMappingsAt(rows, moved, newPath, ident, r, 0);
    forall i | 0 <= i < |rows| ensures r[i] == Rebase(rows[i], moved, newPath, ident) {
      MoveMappingsAt(rows, moved, newPath, ident, r, i);
    }
    DistinctRebased(rows, moved, newPath, ident, r);
  }

  lemma DistinctRebased(rows: seq<Row>, moved: Row, newPath: string, ident: Identity, r: seq<Row>)
    requires UniqueRows(rows) && Distinct(rows) && |r| == |rows|
    requires forall i :: 0 <= i < |rows| ==> r[i] == Rebase(rows[i], moved, newPath, ident)
    ensures Distinct(r)
  {
    forall i, j | 0 <= i < j < |r| ensures r[i] != r[j] {
      assert rows[i] in rows && rows[j] in rows;
      assert r[i].kind == rows[i].kind && r[i].id == rows[i].id;
      assert r[j].kind == rows[j].kind && r[j].id == rows[j].id;
    }
  }

  lemma SameTail(n: nat, newPath: string, p: string, q: string)
    requires n <= |p| && n <= |q|
    requires SameName(newPath + p[n..], newPath + q[n..])
    requires SameName(p[..n], q[..n])
    ensures SameName(p, q)
  {
    LowerConcat(newPath, p[n..]);
    LowerConcat(newPath, q[n..]);
    var a, b := Lower(newPath + p[n..]), Lower(newPath + q[n..]);
    assert a[|newPath|..] == Lower(p[n..]);
    assert b[|newPath|..] == Lower(q[n..]);
    assert p == p[..n] + p[n..] && q == q[..n] + q[n..];
    LowerConcat(p[..n], p[n..]);
    LowerConcat(q[..n], q[n..]);
  }

  /** The target of a descendant lies below the new path. */
  lemma RebasedBelow(oldPath: string, newPath: string, p: string)
    requires Below(oldPath, p)
    ensures Below(newPath, RebasedPath(oldPath, newPath, p))
  {
    assert RebasedPath(oldPath, newPath, p)[..|newPath|] == newPath;
  }

  ghost predicate NothingAtOrBelow(rows: seq<Row>, path: string) {
    forall row :: row in rows ==> !SameName(row.path, path) && !Below(path, row.path)
  }

  lemma {:induction false} RebaseRowsSucceed(
    original: seq<Row>, rows: seq<Row>, pending: seq<Row>, moved: Row, newPath: string, ident: Identity)
    requires UniqueRows(original) && DistinctKeys(pending) && |rows| == |original|
    requires NothingAtOrBelow(original, newPath)
    requires forall p :: p in pending ==> p in original && Below(moved.path, p.path) && !IsKey(p, FOLDER, moved.id)
    requires forall i :: 0 <= i < |rows| ==>
               rows[i] == original[i] || rows[i] == Rebase(original[i], moved, newPath, ident)
    ensures RebaseRows(rows, pending, moved.path, newPath).Some?
    decreases |pending|
  {
    if pending != [] {
      var p, rest := pending[0], pending[1..];
      var target := RebasedPath(moved.path, newPath, p.path);
      RebasedBelow(moved.path, newPath, p.path);
      forall b | b in rows && !IsKey(b, p.kind, p.id) ensures !SameName(b.path, target) {
        var i :| 0 <= i < |rows| && rows[i] == b;
        NoCollision(original, original[i], b, p, moved, newPath, ident);
      }
      assert RenameRow(rows, p, target).Some?;
      var next := RenameRow(rows, p, target).value;
      forall i | 0 <= i < |next|
        ensures next[i] == original[i] || next[i] == Rebase(original[i], moved, newPath, ident)
      {
        assert original[i] in original;
        if IsKey(rows[i], p.kind, p.id) {
          assert IsKey(original[i], p.kind, p.id);
          assert original[i] == p;
        }
      }
      forall i, j | 0 <= i < j < |rest| ensures !IsKey(rest[i], rest[j].kind, rest[j].id) {
        assert rest[i] == pending[i + 1] && rest[j] == pending[j + 1];
      }
      RebaseRowsSucceed(original, next, rest, moved, newPath, ident);
    }
  }

  lemma NoCollision(original: seq<Row>, row: Row, b: Row, p: Row, moved: Row, newPath: string, ident: Identity)
    requires UniqueRows(original) && NothingAtOrBelow(original, newPath)
    requires row in original && p in original && Below(moved.path, p.path)
    requires b == row || b == Rebase(row, moved, newPath, ident)
    requires !IsKey(b, p.kind, p.id)
    ensures !SameName(b.path, RebasedPath(moved.path, newPath, p.path))
  {
    var target := RebasedPath(moved.path, newPath, p.path);
    RebasedBelow(moved.path, newPath, p.path);
    if SameName(b.path, target) {
      BelowSameName(newPath, newPath, b.path, target);
      assert b != row;
      assert |Lower(b.path)| == |Lower(target)| > |newPath|;
      if !IsKey(row, FOLDER, moved.id) {
        SameTail(|moved.path|, newPath, row.path, p.path);
        assert false;
      }
    }
  }

  /** When nothing is mapped at or below the new path, no intermediate update breaks
      path uniqueness, so the move goes through. */
  lemma MoveMappingsSucceeds(rows: seq<Row>, moved: Row, newPath: string, ident: Identity)
    requires UniqueRows(rows) && Distinct(rows)
    requires moved in rows && moved.kind == FOLDER
    requires NothingAtOrBelow(rows, newPath)
    ensures MoveMappings(rows, moved, newPath, ident).Some?
  {
    var first := Relocate(rows, FOLDER, moved.id, newPath, ident);
    assert first.Some?;
    DescendantsListed(rows, moved.path);
    RebaseRowsSucceed(rows, first.value, Descendants(rows, moved.path), moved, newPath, ident);
  }

  /** A path that another mapping holds cannot be taken: the update throws. */
  lemma MoveOntoMappedPathFails(rows: seq<Row>, moved: Row, other: Row, newPath: string, ident: Identity)
    requires UniqueRows(rows) && moved in rows && moved.kind == FOLDER
    requires other in rows && other != moved && SameName(other.path, newPath)
    ensures MoveMappings(rows, moved, newPath, ident).None?
  {
    assert IsKey(moved, FOLDER, moved.id) && !IsKey(other, FOLDER, moved.id);
  }
}

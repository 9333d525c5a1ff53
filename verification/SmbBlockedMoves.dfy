/** Exactly when moving a mapped folder breaks the uniqueness of paths, at its own row or at that
    of a descendant, rewritten one after another from the shortest path on. */
module SmbBlockedMoves {
  import opened Wrappers
  import opened Text
  import opened Sorting
  import opened SmbTables
  import opened SmbSync
  import opened SmbMoves

  function Target(moved: Row, newPath: string, p: Row): string
    requires Below(moved.path, p.path)
  {
    RebasedPath(moved.path, newPath, p.path)
  }

  /** Another row holds the path that the descendant p is to get: a row outside the moved folder, or
      one inside with a longer path, which is rewritten only later. */
  ghost predicate Blocked(rows: seq<Row>, moved: Row, newPath: string, p: Row)
    requires Below(moved.path, p.path)
  {
    exists o :: o in rows && o != moved && SameName(o.path, Target(moved, newPath, p))
                && (Below(moved.path, o.path) ==> |o.path| > |p.path|)
  }

  ghost predicate MoveIsBlocked(rows: seq<Row>, moved: Row, newPath: string) {
    || (exists o :: o in rows && o != moved && SameName(o.path, newPath))
    || (exists p :: p in rows && Below(moved.path, p.path) && Blocked(rows, moved, newPath, p))
  }

  /** The rows once all descendants but the pending ones are rewritten. */
  ghost predicate Partly(
    original: seq<Row>, rows: seq<Row>, pending: seq<Row>, moved: Row, newPath: string, ident: Identity
  ) {
    && |rows| == |original|
    && forall i :: 0 <= i < |rows| ==>
         rows[i] == if original[i] in pending then original[i] else Rebase(original[i], moved, newPath, ident)
  }

  /** Pending are descendants of the moved folder, shortest first, and none shorter is done later. */
  ghost predicate InTurn(original: seq<Row>, pending: seq<Row>, moved: Row) {
    && Distinct(pending) && SortedBy(pending, PathLength())
    && (forall p :: p in pending ==> p in original && p != moved && Below(moved.path, p.path))
    && (forall o, p :: o in original && o != moved && Below(moved.path, o.path) && o !in pending && p in pending
                       ==> |o.path| <= |p.path|)
  }

  /** A descendant of the same length as p is not in the way. */
  lemma SameLengthFits(original: seq<Row>, moved: Row, newPath: string, p: Row, o: Row)
    requires UniqueRows(original) && p in original && o in original && o != p
    requires Below(moved.path, p.path) && Below(moved.path, o.path) && |o.path| == |p.path|
    ensures !SameName(o.path, Target(moved, newPath, p))
  {
    var n, t := |moved.path|, Target(moved, newPath, p);
    if SameName(o.path, t) {
      assert |Lower(o.path)| == |Lower(t)|;
      SameNameSlice(o.path, t, 0, n);
    }
  }

  /** What stands in the way of p now, and what stands in its way by the definition. */
  lemma InTheWay(
    original: seq<Row>, rows: seq<Row>, pending: seq<Row>, moved: Row, newPath: string, ident: Identity, i: nat
  )
    requires UniqueRows(original) && moved in original && moved.kind == FOLDER && pending != [] && i < |original|
    requires Partly(original, rows, pending, moved, newPath, ident) && InTurn(original, pending, moved)
    ensures var p, o := pending[0], original[i];
            !IsKey(rows[i], p.kind, p.id) && SameName(rows[i].path, Target(moved, newPath, p)) <==>
            o != moved && SameName(o.path, Target(moved, newPath, p))
            && (Below(moved.path, o.path) ==> |o.path| > |p.path|)
  {
    hide Below, SameName, RebasedPath;
    var p, o := pending[0], original[i];
    assert p in pending && o in original;
    assert IsKey(rows[i], p.kind, p.id) <==> o == p;
    if o == moved {
      LongerTarget(moved, newPath, p);
    } else if o == p {
      SameNameReflexive(p.path);
    } else if Below(moved.path, o.path) {
      if o in pending {
        PendingIsLonger(pending, o);
        if |o.path| == |p.path| {
          SameLengthFits(original, moved, newPath, p, o);
        }
      } else {
        OtherTarget(original, moved, newPath, p, o);
      }
    }
  }

  lemma LongerTarget(moved: Row, newPath: string, p: Row)
    requires Below(moved.path, p.path)
    ensures !SameName(newPath, Target(moved, newPath, p))
  {
    assert |Lower(newPath)| < |Lower(Target(moved, newPath, p))|;
  }

  lemma PendingIsLonger(pending: seq<Row>, o: Row)
    requires SortedBy(pending, PathLength()) && o in pending
    ensures |pending[0].path| <= |o.path|
  {
    var j :| 0 <= j < |pending| && pending[j] == o;
    assert PathLength()(pending[0]) <= PathLength()(pending[j]);
  }

  /** Different descendants get different paths. */
  lemma OtherTarget(original: seq<Row>, moved: Row, newPath: string, p: Row, o: Row)
    requires UniqueRows(original) && p in original && o in original && o != p
    requires Below(moved.path, p.path) && Below(moved.path, o.path)
    ensures !SameName(Target(moved, newPath, o), Target(moved, newPath, p))
  {
    if SameName(Target(moved, newPath, o), Target(moved, newPath, p)) {
      SameTail(|moved.path|, newPath, o.path, p.path);
    }
  }

  /** The update of p throws exactly when p is blocked. */
  lemma RenameThrowsExactly(
    original: seq<Row>, rows: seq<Row>, pending: seq<Row>, moved: Row, newPath: string, ident: Identity
  )
    requires UniqueRows(original) && moved in original && moved.kind == FOLDER && pending != []
    requires Partly(original, rows, pending, moved, newPath, ident) && InTurn(original, pending, moved)
    ensures RenameRow(rows, pending[0], Target(moved, newPath, pending[0])).None?
            <==> Blocked(original, moved, newPath, pending[0])
  {
    hide Below, SameName, Partly, InTurn, UniqueRows;
    var p := pending[0];
    PartlyRow(original, rows, pending, moved, newPath, ident);
    forall i | 0 <= i < |original|
      ensures !IsKey(rows[i], p.kind, p.id) && SameName(rows[i].path, Target(moved, newPath, p)) <==>
              original[i] != moved && SameName(original[i].path, Target(moved, newPath, p))
              && (Below(moved.path, original[i].path) ==> |original[i].path| > |p.path|)
    {
      InTheWay(original, rows, pending, moved, newPath, ident, i);
    }
    if Blocked(original, moved, newPath, p) {
      var o :| o in original && o != moved && SameName(o.path, Target(moved, newPath, p))
               && (Below(moved.path, o.path) ==> |o.path| > |p.path|);
      var i :| 0 <= i < |original| && original[i] == o;
      assert rows[i] in rows;
    }
    if b :| b in rows && !IsKey(b, p.kind, p.id) && SameName(b.path, Target(moved, newPath, p)) {
      var i :| 0 <= i < |rows| && rows[i] == b;
      assert original[i] in original;
    }
  }

  lemma PartlyRow(original: seq<Row>, rows: seq<Row>, pending: seq<Row>, moved: Row, newPath: string, ident: Identity)
    requires pending != [] && Partly(original, rows, pending, moved, newPath, ident) && InTurn(original, pending, moved)
    ensures |rows| == |original| && pending[0] in rows && Below(moved.path, pending[0].path)
  {
    assert pending[0] in pending;
    var i :| 0 <= i < |original| && original[i] == pending[0];
    assert rows[i] == pending[0];
  }

  lemma RestInTurn(original: seq<Row>, pending: seq<Row>, moved: Row)
    requires pending != [] && InTurn(original, pending, moved)
    ensures InTurn(original, pending[1..], moved)
  {
    hide Below;
    var rest := pending[1..];
    forall p | p in rest ensures p in pending {}
    forall o, p | o in original && o != moved && Below(moved.path, o.path) && o !in rest && p in rest
      ensures |o.path| <= |p.path|
    {
      if o == pending[0] {
        PendingIsLonger(pending, p);
      }
    }
  }

  lemma PartlyNext(
    original: seq<Row>, rows: seq<Row>, pending: seq<Row>, moved: Row, newPath: string, ident: Identity, next: seq<Row>
  )
    requires UniqueRows(original) && moved in original && moved.kind == FOLDER && pending != []
    requires Partly(original, rows, pending, moved, newPath, ident) && InTurn(original, pending, moved)
    requires Below(moved.path, pending[0].path)
    requires RenameRow(rows, pending[0], Target(moved, newPath, pending[0])) == Some(next)
    ensures Partly(original, next, pending[1..], moved, newPath, ident)
  {
    hide Below, RebasedPath;
    var p, rest := pending[0], pending[1..];
    assert pending == [p] + rest && p in pending;
    forall i | 0 <= i < |next|
      ensures next[i] == if original[i] in rest then original[i] else Rebase(original[i], moved, newPath, ident)
    {
      assert original[i] in original;
      assert IsKey(rows[i], p.kind, p.id) <==> original[i] == p;
    }
  }

  lemma {:induction false} RebaseThrowsExactly(
    original: seq<Row>, rows: seq<Row>, pending: seq<Row>, moved: Row, newPath: string, ident: Identity
  )
    requires UniqueRows(original) && moved in original && moved.kind == FOLDER
    requires forall p :: p in pending ==> Below(moved.path, p.path)
    requires Partly(original, rows, pending, moved, newPath, ident) && InTurn(original, pending, moved)
    ensures RebaseRows(rows, pending, moved.path, newPath).None?
            <==> exists p :: p in pending && Blocked(original, moved, newPath, p)
    decreases |pending|
  {
    hide Below, Partly, InTurn, Blocked, UniqueRows, RenameRow;
    if pending != [] {
      var p, rest := pending[0], pending[1..];
      assert pending == [p] + rest;
      RenameThrowsExactly(original, rows, pending, moved, newPath, ident);
      var next := RenameRow(rows, p, Target(moved, newPath, p));
      if next.Some? {
        RestInTurn(original, pending, moved);
        PartlyNext(original, rows, pending, moved, newPath, ident, next.value);
        RebaseThrowsExactly(original, next.value, rest, moved, newPath, ident);
      }
    }
  }

  lemma FirstRow(rows: seq<Row>, moved: Row, newPath: string, ident: Identity)
    requires UniqueRows(rows) && moved in rows && moved.kind == FOLDER
    ensures Relocate(rows, FOLDER, moved.id, newPath, ident).None?
            <==> exists o :: o in rows && o != moved && SameName(o.path, newPath)
  {
    hide SameName;
    assert IsKey(moved, FOLDER, moved.id);
    assert forall o :: o in rows ==> (IsKey(o, FOLDER, moved.id) <==> o == moved);
  }

  lemma AllPending(rows: seq<Row>, moved: Row, newPath: string, ident: Identity, first: seq<Row>)
    requires UniqueRows(rows) && Distinct(rows) && moved in rows && moved.kind == FOLDER
    requires Relocate(rows, FOLDER, moved.id, newPath, ident) == Some(first)
    ensures var pending := Descendants(rows, moved.path);
            && (forall row :: row in pending <==> row in rows && Below(moved.path, row.path))
            && Partly(rows, first, pending, moved, newPath, ident) && InTurn(rows, pending, moved)
  {
    var pending := Descendants(rows, moved.path);
    DescendantsListed(rows, moved.path);
    RowsBelowDistinct(rows, moved.path);
    SortDistinct(RowsBelow(rows, moved.path), PathLength());
    hide Below, Descendants;
    forall i | 0 <= i < |first|
      ensures first[i] == if rows[i] in pending then rows[i] else Rebase(rows[i], moved, newPath, ident)
    {
      assert rows[i] in rows;
      assert IsKey(rows[i], FOLDER, moved.id) <==> rows[i] == moved;
      NotBelowItself(moved.path);
    }
  }

  lemma NotBelowItself(path: string)
    ensures !Below(path, path)
  {}

  /** A folder move throws if and only if another mapping holds the new path, or the path that some
      descendant is to get at the time it is rewritten. */
  lemma MoveThrowsExactly(rows: seq<Row>, moved: Row, newPath: string, ident: Identity)
    requires UniqueRows(rows) && Distinct(rows) && moved in rows && moved.kind == FOLDER
    ensures MoveMappings(rows, moved, newPath, ident).None? <==> MoveIsBlocked(rows, moved, newPath)
  {
    hide UniqueRows, Distinct, Below, Blocked, Partly, InTurn, Relocate, SameName;
    FirstRow(rows, moved, newPath, ident);
    var first := Relocate(rows, FOLDER, moved.id, newPath, ident);
    if first.Some? {
      AllPending(rows, moved, newPath, ident, first.value);
      RebaseThrowsExactly(rows, first.value, Descendants(rows, moved.path), moved, newPath, ident);
    }
  }
}

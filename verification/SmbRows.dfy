/** A mapping table holds each row once; every statement keeps that, and keeps identifiers
    below nextId. */
module SmbRows {
  import opened Wrappers
  import opened Text
  import opened Sorting
  import opened SmbTables
  import opened SmbSync
  import opened SmbSettling

  /** The constraints of the tables: unique paths and keys, each row once, fresh identifiers. */
  ghost predicate Constraints(db: Db) {
    UniqueRows(db.rows) && Distinct(db.rows) && Bounded(db)
  }

  lemma RelocateDistinct(rows: seq<Row>, kind: Kind, id: nat, path: string, ident: Identity)
    requires UniqueRows(rows) && Distinct(rows) && Relocate(rows, kind, id, path, ident).Some?
    ensures Distinct(Relocate(rows, kind, id, path, ident).value)
  {
    var r := Relocate(rows, kind, id, path, ident).value;
    forall i, j | 0 <= i < j < |r| ensures r[i] != r[j] {
      assert rows[i] in rows && rows[j] in rows && rows[i] != rows[j];
      assert IsKey(r[i], kind, id) <==> IsKey(rows[i], kind, id);
      assert IsKey(r[j], kind, id) <==> IsKey(rows[j], kind, id);
    }
  }

  lemma {:induction false} RemoveTreeDistinct(rows: seq<Row>, path: string)
    requires Distinct(rows)
    ensures Distinct(RemoveTree(rows, path))
  {
    if rows != [] {
      RemoveTreeDistinct(rows[1..], path);
      HeadNotInTail(rows);
    }
  }

  lemma {:induction false} RemoveKeyDistinct(rows: seq<Row>, kind: Kind, id: nat)
    requires Distinct(rows)
    ensures Distinct(RemoveKey(rows, kind, id))
  {
    if rows != [] {
      RemoveKeyDistinct(rows[1..], kind, id);
      HeadNotInTail(rows);
    }
  }

  lemma HeadNotInTail(rows: seq<Row>)
    requires Distinct(rows) && rows != []
    ensures rows[0] !in rows[1..]
  {}

  lemma RelocateConstraints(db: Db, kind: Kind, id: nat, path: string, ident: Identity)
    requires Constraints(db) && Relocate(db.rows, kind, id, path, ident).Some?
    ensures Constraints(db.(rows := Relocate(db.rows, kind, id, path, ident).value))
  {
    var r := Relocate(db.rows, kind, id, path, ident).value;
    RelocateMembers(db.rows, kind, id, path, ident);
    RelocateDistinct(db.rows, kind, id, path, ident);
    forall row | row in r ensures row.id < db.nextId {
      var i :| 0 <= i < |r| && r[i] == row;
      assert db.rows[i] in db.rows;
    }
  }

  lemma UpdateFolderConstraints(db: Db, id: nat, parent: Option<nat>, name: string)
    requires Constraints(db) && UpdateFolder(db.folders, id, parent, name).Some?
    ensures Constraints(db.(folders := UpdateFolder(db.folders, id, parent, name).value))
  {
    hide UniqueRows, Distinct, NameTaken;
  }

  lemma DeleteFolderConstraints(db: Db, row: Row)
    requires Constraints(db) && DeleteFolderObject(db, row).Some?
    ensures Constraints(DeleteFolderObject(db, row).value)
  {
    SubsetUnique(db.rows, RemoveTree(db.rows, row.path));
    RemoveTreeDistinct(db.rows, row.path);
  }

  lemma DeleteFileConstraints(db: Db, id: nat)
    requires Constraints(db)
    ensures Constraints(DeleteFileObject(db, id))
  {
    SubsetUnique(db.rows, RemoveKey(db.rows, FILE, id));
    RemoveKeyDistinct(db.rows, FILE, id);
  }

  lemma AppendConstraints(db: Db, row: Row, db': Db)
    requires Constraints(db) && RowAt(db.rows, row.path).None? && row.id == db.nextId
    requires db'.rows == db.rows + [row] && db'.nextId == db.nextId + 1
    requires forall id :: id in db'.folders ==> id in db.folders || id == db.nextId
    requires forall id :: id in db'.files ==> id in db.files || id == db.nextId
    ensures Constraints(db')
  {
    AppendRow(db.rows, row, row.path);
  }

  lemma {:induction false} RebaseRowsConstraints(
    db: Db, pending: seq<Row>, oldPath: string, newPath: string, r: seq<Row>
  )
    requires Constraints(db)
    requires forall row :: row in pending ==> Below(oldPath, row.path)
    requires RebaseRows(db.rows, pending, oldPath, newPath) == Some(r)
    ensures Constraints(db.(rows := r))
    decreases |pending|
  {
    if pending != [] {
      var p := pending[0];
      var next := RenameRow(db.rows, p, RebasedPath(oldPath, newPath, p.path)).value;
      RelocateConstraints(db, p.kind, p.id, RebasedPath(oldPath, newPath, p.path), p.ident);
      RebaseRowsConstraints(db.(rows := next), pending[1..], oldPath, newPath, r);
    }
  }

  lemma MoveMappingsConstraints(db: Db, moved: Row, newPath: string, ident: Identity)
    requires Constraints(db) && MoveMappings(db.rows, moved, newPath, ident).Some?
    ensures Constraints(db.(rows := MoveMappings(db.rows, moved, newPath, ident).value))
  {
    SortMembers(RowsBelow(db.rows, moved.path), PathLength());
    var first := Relocate(db.rows, FOLDER, moved.id, newPath, ident).value;
    RelocateConstraints(db, FOLDER, moved.id, newPath, ident);
    RebaseRowsConstraints(db.(rows := first), Descendants(db.rows, moved.path), moved.path, newPath,
                          MoveMappings(db.rows, moved, newPath, ident).value);
  }
}

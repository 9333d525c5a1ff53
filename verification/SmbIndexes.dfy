/** The Maps that a pass builds over the mapping table, and for how long they can be trusted. */
module SmbIndexes {
  import opened Wrappers
  import opened Text
  import opened SmbTables
  import opened SmbScan
  import opened SmbSettling

  /** new Map(rows.map(row => [row.relative_path.toLowerCase(), row])) */
  function ByPath(rows: seq<Row>): (index: map<string, Row>)
    ensures forall key :: key in index ==> index[key] in rows && Lower(index[key].path) == key
    ensures forall row :: row in rows ==> Lower(row.path) in index
  {
    if rows == [] then map[]
    else
      var last := rows[|rows| - 1];
      ByPath(rows[..|rows| - 1])[Lower(last.path) := last]
  }

  /** new Map of the rows of one kind by identityKey; rows without an identity are left out. */
  function ByIdentity(rows: seq<Row>, kind: Kind): (index: map<Identity, Row>)
    ensures forall ident :: ident in index <==> LastWithIdentity(rows, kind, ident).Some?
    ensures forall ident :: ident in index ==> LastWithIdentity(rows, kind, ident) == Some(index[ident])
  {
    if rows == [] then map[]
    else
      var last := rows[|rows| - 1];
      var index := ByIdentity(rows[..|rows| - 1], kind);
      if last.kind == kind && last.ident.Inode? then index[last.ident := last] else index
  }

  function At<K, V>(index: map<K, V>, key: K): Option<V> {
    if key in index then Some(index[key]) else None
  }

  /** The same object and inode, at the same path but for case. */
  predicate SameMapping(a: Row, b: Row) {
    a.kind == b.kind && a.id == b.id && a.ident == b.ident && SameName(a.path, b.path)
  }

  /** What an index holds of a row, or nothing of nothing. */
  ghost predicate HeldAs(mapping: Option<Row>, row: Option<Row>) {
    match row
    case None => mapping.None?
    case Some(r) => mapping.Some? && SameMapping(mapping.value, r)
  }

  /** What the index says about a path is what the table says, up to the case of the path. */
  ghost predicate Trusted(index: map<string, Row>, rows: seq<Row>, path: string) {
    match RowAt(rows, path)
    case None => Lower(path) !in index
    case Some(row) => Lower(path) in index && SameMapping(index[Lower(path)], row)
  }

  /** The entries still to be visited can be looked up in the index. */
  ghost predicate TrustedFrom(index: map<string, Row>, rows: seq<Row>, scan: seq<Entry>, k: nat) {
    forall j :: k <= j < |scan| ==> Trusted(index, rows, scan[j].path)
  }

  lemma FreshIndex(rows: seq<Row>, path: string)
    requires UniqueRows(rows)
    ensures Trusted(ByPath(rows), rows, path)
  {
    var row := RowAt(rows, path);
    if row.Some? {
      assert Lower(row.value.path) in ByPath(rows);
    }
  }

  lemma FreshIndexFrom(rows: seq<Row>, scan: seq<Entry>, k: nat)
    requires UniqueRows(rows)
    ensures TrustedFrom(ByPath(rows), rows, scan, k)
  {
    forall j | k <= j < |scan| ensures Trusted(ByPath(rows), rows, scan[j].path) {
      FreshIndex(rows, scan[j].path);
    }
  }

  /** After an update of the row at the visited path the index still serves the later entries. */
  lemma IndexAfterUpdate(index: map<string, Row>, rows: seq<Row>, scan: seq<Entry>, k: nat, row: Row, ident: Identity)
    requires UniqueRows(rows) && PathsDistinct(scan) && k < |scan|
    requires TrustedFrom(index, rows, scan, k) && RowAt(rows, scan[k].path) == Some(row)
    requires Relocate(rows, row.kind, row.id, scan[k].path, ident).Some?
    ensures TrustedFrom(index, Relocate(rows, row.kind, row.id, scan[k].path, ident).value, scan, k + 1)
  {
    var rows' := Relocate(rows, row.kind, row.id, scan[k].path, ident).value;
    forall j | k + 1 <= j < |scan| ensures RowAt(rows', scan[j].path) == RowAt(rows, scan[j].path) {
      assert !SameName(scan[k].path, scan[j].path);
      LookupAfterUpdate(rows, row, scan[k].path, ident, scan[j].path);
    }
  }

  lemma LookupAfterUpdate(rows: seq<Row>, row: Row, path: string, ident: Identity, at: string)
    requires UniqueRows(rows) && RowAt(rows, path) == Some(row) && !SameName(path, at)
    requires Relocate(rows, row.kind, row.id, path, ident).Some?
    ensures RowAt(Relocate(rows, row.kind, row.id, path, ident).value, at) == RowAt(rows, at)
  {
    var rows' := Relocate(rows, row.kind, row.id, path, ident).value;
    RelocateMembers(rows, row.kind, row.id, path, ident);
    if RowAt(rows, at).Some? {
      RelocateElsewhere(rows, row.kind, row.id, path, ident, at);
    }
  }

  /** A stale folder makes way for a file whose import is then rejected: the index is not
      rebuilt, and no later entry can notice, since a scan holds nothing below a file. */
  lemma IndexAfterRemoval(index: map<string, Row>, rows: seq<Row>, scan: seq<Entry>, k: nat, path: string)
    requires UniqueRows(rows) && PathsDistinct(scan) && k < |scan| && SameName(path, scan[k].path)
    requires TrustedFrom(index, rows, scan, k)
    requires forall j :: k < j < |scan| ==> !Below(scan[k].path, scan[j].path)
    ensures TrustedFrom(index, RemoveTree(rows, path), scan, k + 1)
  {
    forall j | k + 1 <= j < |scan| ensures RowAt(RemoveTree(rows, path), scan[j].path) == RowAt(rows, scan[j].path) {
      assert !SameName(scan[k].path, scan[j].path);
      BelowSameName(path, scan[k].path, scan[j].path, scan[j].path);
      RemoveTreeElsewhere(rows, path, scan[j].path);
    }
  }

  /** What a step of the file loop may do without rebuilding the index: nothing, an update of
      the row at the visited path, or the removal of the stale folder there. */
  ghost predicate OnlyHere(before: seq<Row>, rows: seq<Row>, path: string) {
    rows != before ==>
      RowAt(before, path).Some? &&
      var row := RowAt(before, path).value;
      (exists ident :: Relocate(before, row.kind, row.id, path, ident) == Some(rows))
          || rows == RemoveTree(before, row.path)
  }

  lemma IndexStillTrusted(index: map<string, Row>, before: seq<Row>, rows: seq<Row>, scan: seq<Entry>, k: nat)
    requires UniqueRows(before) && PathsDistinct(scan) && k < |scan|
    requires TrustedFrom(index, before, scan, k) && OnlyHere(before, rows, scan[k].path)
    requires forall j :: k < j < |scan| ==> !Below(scan[k].path, scan[j].path)
    ensures TrustedFrom(index, rows, scan, k + 1)
  {
    if rows != before {
      var row := RowAt(before, scan[k].path).value;
      if rows == RemoveTree(before, row.path) {
        IndexAfterRemoval(index, before, scan, k, row.path);
      } else {
        var ident :| Relocate(before, row.kind, row.id, scan[k].path, ident) == Some(rows);
        IndexAfterUpdate(index, before, scan, k, row, ident);
      }
    }
  }

  /** DELETE by a mapping read earlier removes what the current one would. */
  lemma {:induction false} RemoveTreeSameName(rows: seq<Row>, p: string, q: string)
    requires SameName(p, q)
    ensures RemoveTree(rows, p) == RemoveTree(rows, q)
  {
    if rows != [] {
      BelowSameName(p, q, rows[0].path, rows[0].path);
      LikeMatchesDescendants(p, rows[0].path);
      LikeMatchesDescendants(q, rows[0].path);
      RemoveTreeSameName(rows[1..], p, q);
    }
  }

  lemma DeleteSameMapping(db: Db, cached: Row, row: Row)
    requires SameMapping(cached, row)
    ensures DeleteFolderObject(db, cached) == DeleteFolderObject(db, row)
  {
    RemoveTreeSameName(db.rows, cached.path, row.path);
  }

  /** No scanned file lies below another one. */
  lemma NothingBelowFile(folders: seq<Entry>, files: seq<Entry>, k: nat)
    requires FolderOrder(folders) && FileList(folders, files) && k < |files|
    ensures forall j :: 0 <= j < |files| ==> !Below(files[k].path, files[j].path)
  {
    forall j | 0 <= j < |files| ensures !Below(files[k].path, files[j].path) {
      if Below(files[k].path, files[j].path) {
        assert !TopLevel(files[j].path) ==> ParentListed(folders, files[j].path);
        AncestorOfListed(folders, files[j].path, files[k].path);
        assert false;
      }
    }
  }
}

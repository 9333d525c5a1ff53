/** Exactly when a pass keeps a folder that one of its own replacements has deleted: a condition
    on the tables and the scan that can be checked before the pass. */
module SmbOrphans {
  import opened Wrappers
  import opened Text
  import Sorting
  import opened SmbTables
  import opened SmbSync
  import opened SmbScan
  import opened SmbSettling
  import opened SmbLinks
  import opened SmbFolders

  // ----- the condition -----

  /** The path of the scanned folder is mapped to a folder of another inode. */
  predicate Stale(rows: seq<Row>, e: Entry) {
    var r := RowAt(rows, e.path);
    r.Some? && r.value.kind == FOLDER && !SameIdentity(r.value.ident, e.ident)
  }

  predicate Matched(rows: seq<Row>, e: Entry) {
    var r := RowAt(rows, e.path);
    r.Some? && r.value.kind == FOLDER && SameIdentity(r.value.ident, e.ident)
  }

  /** Among the first n scanned folders, one above the path is stale: replacing it removes every
      mapping below it. */
  predicate Swept(rows: seq<Row>, scan: seq<Entry>, n: nat, path: string)
    requires n <= |scan|
  {
    exists i :: 0 <= i < n && Stale(rows, scan[i]) && Below(scan[i].path, path)
  }

  predicate Replaced(rows: seq<Row>, scan: seq<Entry>, j: nat)
    requires j < |scan|
  {
    Stale(rows, scan[j]) && !Swept(rows, scan, j, scan[j].path)
  }

  predicate Kept(rows: seq<Row>, scan: seq<Entry>, k: nat)
    requires k < |scan|
  {
    Matched(rows, scan[k]) && !Swept(rows, scan, k, scan[k].path)
  }

  function IdAt(rows: seq<Row>, e: Entry): nat
    requires RowAt(rows, e.path).Some?
  {
    RowAt(rows, e.path).value.id
  }

  function KeptIds(rows: seq<Row>, scan: seq<Entry>, n: nat): set<nat>
    requires n <= |scan|
  {
    set k | 0 <= k < n && Kept(rows, scan, k) :: IdAt(rows, scan[k])
  }

  /** What the j-th replacement takes along: folders kept before it hang under their new parents
      by then, so no chain of parents passes through them. */
  function SweptAway(db: Db, scan: seq<Entry>, j: nat): set<nat>
    requires j < |scan| && Replaced(db.rows, scan, j)
  {
    Cascade(db.folders - KeptIds(db.rows, scan, j), {IdAt(db.rows, scan[j])})
  }

  predicate Lost(db: Db, scan: seq<Entry>, n: nat, id: nat)
    requires n <= |scan|
  {
    exists j :: 0 <= j < n && Replaced(db.rows, scan, j) && id in SweptAway(db, scan, j)
  }

  predicate LostBeforeKept(db: Db, scan: seq<Entry>, k: nat)
    requires k < |scan|
  {
    Kept(db.rows, scan, k) && Lost(db, scan, k, IdAt(db.rows, scan[k]))
  }

  /** Some folder that stays at its place is taken along by an earlier replacement. */
  predicate Orphans(db: Db, scan: seq<Entry>) {
    exists k :: 0 <= k < |scan| && LostBeforeKept(db, scan, k)
  }

  /** The same of a whole pass: the folder moves come first. */
  predicate OrphansFolder(db: Db, scan: seq<Entry>) {
    var folders := ScanFolders(scan);
    var moves := MoveFolders(db, StableMappings(db.rows, folders, FOLDER), folders, 0, false);
    moves.Some? && Orphans(moves.value.db, folders)
  }

  // ----- what the first n steps of the folder loop have done to the tables they started from -----

  ghost predicate RowsTracked(rows: seq<Row>, scan: seq<Entry>, n: nat, now: seq<Row>)
    requires n <= |scan|
  {
    forall path :: Unvisited(scan, n, path) ==>
      RowAt(now, path) == if Swept(rows, scan, n, path) then None else RowAt(rows, path)
  }

  ghost predicate Unvisited(scan: seq<Entry>, n: nat, path: string)
    requires n <= |scan|
  {
    forall i :: 0 <= i < n ==> !SameName(scan[i].path, path)
  }

  lemma StillUnvisited(scan: seq<Entry>, n: nat, path: string)
    requires n < |scan| && Unvisited(scan, n + 1, path)
    ensures Unvisited(scan, n, path) && !SameName(scan[n].path, path)
  {}

  lemma NextUnvisited(scan: seq<Entry>, n: nat)
    requires FolderOrder(scan) && n < |scan|
    ensures Unvisited(scan, n, scan[n].path)
  {}

  ghost predicate FoldersTracked(db: Db, scan: seq<Entry>, n: nat, now: map<nat, Folder>)
    requires n <= |scan|
  {
    forall id :: id in db.folders ==> (id in now <==> !Lost(db, scan, n, id))
  }

  /** A folder that was not accounted for yet is as it was. */
  ghost predicate UnseenUnchanged(before: map<nat, Folder>, now: map<nat, Folder>, seen: set<nat>) {
    forall id :: id in now && id !in seen ==> id in before && now[id] == before[id]
  }

  ghost predicate SeenTracked(db: Db, scan: seq<Entry>, n: nat, seen: set<nat>)
    requires n <= |scan|
  {
    && KeptIds(db.rows, scan, n) <= seen
    && forall id :: id in seen && id < db.nextId ==> id in KeptIds(db.rows, scan, n)
  }

  ghost predicate NoneLost(db: Db, scan: seq<Entry>, n: nat)
    requires n <= |scan|
  {
    forall k :: 0 <= k < n ==> !LostBeforeKept(db, scan, k)
  }

  ghost predicate Tracks(db: Db, scan: seq<Entry>, n: nat, p: Progress)
    requires n <= |scan|
  {
    && db.nextId <= p.db.nextId
    && RowsTracked(db.rows, scan, n, p.db.rows)
    && FoldersTracked(db, scan, n, p.db.folders)
    && UnseenUnchanged(db.folders, p.db.folders, p.seen)
    && SeenTracked(db, scan, n, p.seen)
    && p.hits == NoneLost(db, scan, n)
  }

  /** The tables before the loop: identifiers in use are known, and no folder row lacks its folder. */
  ghost predicate Complete(db: Db) {
    Bounded(db) && forall row :: row in db.rows && row.kind == FOLDER ==> row.id in db.folders
  }

  // ----- one more step -----

  lemma SweptByOne(rows: seq<Row>, scan: seq<Entry>, n: nat, path: string)
    requires n < |scan|
    ensures Swept(rows, scan, n + 1, path) <==>
             Swept(rows, scan, n, path) || (Stale(rows, scan[n]) && Below(scan[n].path, path))
  {
    hide Stale, Below;
    if Swept(rows, scan, n + 1, path) && !(Stale(rows, scan[n]) && Below(scan[n].path, path)) {
      var i :| 0 <= i < n + 1 && Stale(rows, scan[i]) && Below(scan[i].path, path);
      assert i < n;
    }
  }

  /** A stale entry that is swept itself sweeps nothing more. */
  lemma SweptOnce(rows: seq<Row>, scan: seq<Entry>, n: nat, path: string)
    requires n < |scan| && !Replaced(rows, scan, n)
    ensures Swept(rows, scan, n + 1, path) <==> Swept(rows, scan, n, path)
  {
    hide Stale, Below;
    SweptByOne(rows, scan, n, path);
    if Stale(rows, scan[n]) && Below(scan[n].path, path) {
      var i :| 0 <= i < n && Stale(rows, scan[i]) && Below(scan[i].path, scan[n].path);
      BelowTransitive(scan[i].path, scan[n].path, path);
    }
  }

  lemma KeptIdsByOne(rows: seq<Row>, scan: seq<Entry>, n: nat)
    requires n < |scan|
    ensures KeptIds(rows, scan, n + 1) == KeptIds(rows, scan, n) + if Kept(rows, scan, n) then {IdAt(rows, scan[n])}
             else {}
  {}

  lemma LostByOne(db: Db, scan: seq<Entry>, n: nat, id: nat)
    requires n < |scan|
    ensures Lost(db, scan, n + 1, id)
            <==> Lost(db, scan, n, id) || (Replaced(db.rows, scan, n) && id in SweptAway(db, scan, n))
  {
    hide Replaced, SweptAway;
    if Lost(db, scan, n + 1, id) && !(Replaced(db.rows, scan, n) && id in SweptAway(db, scan, n)) {
      var j :| 0 <= j < n + 1 && Replaced(db.rows, scan, j) && id in SweptAway(db, scan, j);
      assert j < n;
    }
  }

  lemma NoneLostByOne(db: Db, scan: seq<Entry>, n: nat)
    requires n < |scan|
    ensures NoneLost(db, scan, n + 1) <==> NoneLost(db, scan, n) && !LostBeforeKept(db, scan, n)
  {
    hide LostBeforeKept;
  }

  // ----- the cascade of a replacement -----

  /** The children of lost folders are lost, unless they were kept. */
  lemma LostClosed(db: Db, scan: seq<Entry>, n: nat, x: nat)
    requires n <= |scan| && x in db.folders && x !in KeptIds(db.rows, scan, n)
    requires db.folders[x].parent.Some? && Lost(db, scan, n, db.folders[x].parent.value)
    ensures Lost(db, scan, n, x)
  {
    hide Replaced, Kept;
    var j :| 0 <= j < n && Replaced(db.rows, scan, j) && db.folders[x].parent.value in SweptAway(db, scan, j);
    var left := db.folders - KeptIds(db.rows, scan, j);
    assert x in Children(left, SweptAway(db, scan, j));
  }

  /** What a replacement takes along is in its cascade or was lost before. */
  lemma SweptWithin(db: Db, scan: seq<Entry>, n: nat, now: map<nat, Folder>, seen: set<nat>, gone: set<nat>)
    requires n < |scan| && Replaced(db.rows, scan, n) && IdAt(db.rows, scan[n]) in db.folders
    requires FoldersTracked(db, scan, n, now) && UnseenUnchanged(db.folders, now, seen)
    requires forall id :: id in seen && id in db.folders ==> id in KeptIds(db.rows, scan, n)
    requires Children(now, gone) <= gone
    requires IdAt(db.rows, scan[n]) in gone || IdAt(db.rows, scan[n]) !in now
    ensures SweptAway(db, scan, n) <= gone + (db.folders.Keys - now.Keys)
  {
    hide Swept, Kept, Lost;
    var left, bound := db.folders - KeptIds(db.rows, scan, n), gone + (db.folders.Keys - now.Keys);
    forall x | x in Children(left, bound) ensures x in bound {
      var y := left[x].parent.value;
      if x in now {
        assert now[x] == db.folders[x];
        if y in gone {
          assert x in Children(now, gone);
        } else {
          LostClosed(db, scan, n, x);
          assert false;
        }
      }
    }
    CascadeWithin(left, {IdAt(db.rows, scan[n])}, bound);
  }

  /** The cascade takes only folders that the condition foresees. */
  lemma CascadeForeseen(db: Db, scan: seq<Entry>, n: nat, now: map<nat, Folder>, seen: set<nat>)
    requires n < |scan| && Replaced(db.rows, scan, n) && IdAt(db.rows, scan[n]) !in seen
    requires UnseenUnchanged(db.folders, now, seen) && KeptIds(db.rows, scan, n) <= seen
    requires forall id :: id in seen && id in db.folders ==> id in KeptIds(db.rows, scan, n)
    requires forall id :: id in now && id in seen && now[id].parent.Some? ==> now[id].parent.value in seen
    ensures Cascade(now, {IdAt(db.rows, scan[n])}) <= SweptAway(db, scan, n)
  {
    hide Swept, Kept;
    var d, left := IdAt(db.rows, scan[n]), db.folders - KeptIds(db.rows, scan, n);
    var foreseen := SweptAway(db, scan, n);
    CascadeWithin(left, {d}, {d} + left.Keys);
    forall x | x in Children(now, foreseen) ensures x in foreseen {
      assert now[x].parent.value in foreseen;
      assert x !in seen;
      assert x in Children(left, foreseen);
    }
    CascadeWithin(now, {d}, foreseen);
  }

  // ----- the steps -----

  /** Rewriting the row of a path in place changes no other path. */
  lemma RelocateAway(rows: seq<Row>, row: Row, path: string, ident: Identity, at: string)
    requires UniqueRows(rows) && row in rows && SameName(row.path, path) && !SameName(path, at)
    requires Relocate(rows, row.kind, row.id, path, ident).Some?
    ensures RowAt(Relocate(rows, row.kind, row.id, path, ident).value, at) == RowAt(rows, at)
  {
    var r := RowAt(rows, at);
    if r.Some? {
      assert !IsKey(r.value, row.kind, row.id);
      RelocateElsewhere(rows, row.kind, row.id, path, ident, at);
    } else {
      RelocateMembers(rows, row.kind, row.id, path, ident);
    }
  }

  lemma KeepTracksRows(db: Db, scan: seq<Entry>, n: nat, now: Db, row: Row, db': Db)
    requires FolderOrder(scan) && n < |scan| && UniqueRows(now.rows) && RowsTracked(db.rows, scan, n, now.rows)
    requires RowAt(now.rows, scan[n].path) == Some(row) && row.kind == FOLDER && SameIdentity(row.ident, scan[n].ident)
    requires KeptFolder(now, db', row, scan[n])
    ensures Kept(db.rows, scan, n) && RowAt(db.rows, scan[n].path) == Some(row)
    ensures RowsTracked(db.rows, scan, n + 1, db'.rows)
  {
    NextUnvisited(scan, n);
    assert Kept(db.rows, scan, n);
    hide UniqueRows, Below, Relocate, NamedAfter, LookupParent, Unvisited;
    forall path | Unvisited(scan, n + 1, path)
      ensures RowAt(db'.rows, path) == if Swept(db.rows, scan, n + 1, path) then None else RowAt(db.rows, path)
    {
      StillUnvisited(scan, n, path);
      SweptOnce(db.rows, scan, n, path);
      RelocateAway(now.rows, row, scan[n].path, scan[n].ident, path);
    }
  }

  /** Where nothing is replaced, nothing more is lost. */
  lemma FoldersTrackedOn(db: Db, scan: seq<Entry>, n: nat, now: map<nat, Folder>, now': map<nat, Folder>)
    requires n < |scan| && !Replaced(db.rows, scan, n) && FoldersTracked(db, scan, n, now)
    requires forall id :: id in db.folders ==> (id in now' <==> id in now)
    ensures FoldersTracked(db, scan, n + 1, now')
  {
    hide Replaced, Lost;
    forall id | id in db.folders ensures Lost(db, scan, n + 1, id) <==> Lost(db, scan, n, id) {
      LostByOne(db, scan, n, id);
    }
  }

  lemma KeptSeen(db: Db, scan: seq<Entry>, n: nat, seen: set<nat>)
    requires n < |scan| && Kept(db.rows, scan, n) && SeenTracked(db, scan, n, seen)
    ensures SeenTracked(db, scan, n + 1, seen + {IdAt(db.rows, scan[n])})
  {
    hide Swept, KeptIds;
    KeptIdsByOne(db.rows, scan, n);
  }

  lemma KeptHit(db: Db, scan: seq<Entry>, n: nat, now: map<nat, Folder>, hits: bool)
    requires n < |scan| && Kept(db.rows, scan, n) && FoldersTracked(db, scan, n, now)
    requires IdAt(db.rows, scan[n]) in db.folders && hits == NoneLost(db, scan, n)
    ensures (hits && IdAt(db.rows, scan[n]) in now) == NoneLost(db, scan, n + 1)
  {
    hide Swept, Lost, NoneLost;
    NoneLostByOne(db, scan, n);
  }

  lemma KeepTracks(db: Db, scan: seq<Entry>, n: nat, p: Progress, row: Row, q: Progress)
    requires Complete(db) && FolderOrder(scan) && n < |scan| && UniqueRows(p.db.rows) && Tracks(db, scan, n, p)
    requires RowAt(p.db.rows, scan[n].path) == Some(row) && row.kind == FOLDER && SameIdentity(row.ident, scan[n].ident)
    requires KeptFolder(p.db, q.db, row, scan[n])
    requires q.seen == p.seen + {row.id} && q.hits == (p.hits && row.id in p.db.folders)
    ensures Tracks(db, scan, n + 1, q)
  {
    hide Kept, Replaced, FoldersTracked, SeenTracked, NoneLost, RowsTracked, Relocate, NamedAfter, LookupParent,
         FolderOrder, UniqueRows;
    KeepTracksRows(db, scan, n, p.db, row, q.db);
    assert row in db.rows;
    KeptNotReplaced(db.rows, scan, n);
    FoldersTrackedOn(db, scan, n, p.db.folders, q.db.folders);
    KeptSeen(db, scan, n, p.seen);
    KeptHit(db, scan, n, p.db.folders, p.hits);
  }

  lemma KeptNotReplaced(rows: seq<Row>, scan: seq<Entry>, n: nat)
    requires n < |scan| && Kept(rows, scan, n)
    ensures !Replaced(rows, scan, n)
  {}

  /** A path that is free or holds a file: no mapping but the file's goes. */
  lemma ClearOtherRows(db: Db, scan: seq<Entry>, n: nat, now: Db, cleared: Db)
    requires FolderOrder(scan) && n < |scan| && UniqueRows(now.rows) && RowsTracked(db.rows, scan, n, now.rows)
    requires RowAt(now.rows, scan[n].path).Some? ==> RowAt(now.rows, scan[n].path).value.kind == FILE
    requires ClearPath(now, RowAt(now.rows, scan[n].path)) == Some(cleared)
    ensures !Replaced(db.rows, scan, n) && !Kept(db.rows, scan, n)
    ensures RowsTracked(db.rows, scan, n + 1, cleared.rows) && cleared.folders == now.folders
  {
    NextUnvisited(scan, n);
    assert !Replaced(db.rows, scan, n) && !Kept(db.rows, scan, n);
    hide Below, Kept, Replaced, Swept, Unvisited;
    forall path | Unvisited(scan, n + 1, path)
      ensures RowAt(cleared.rows, path) == if Swept(db.rows, scan, n + 1, path) then None else RowAt(db.rows, path)
    {
      StillUnvisited(scan, n, path);
      SweptOnce(db.rows, scan, n, path);
      var row, r := RowAt(now.rows, scan[n].path), RowAt(now.rows, path);
      if row.Some? && r.Some? {
        RemoveKeyElsewhere(now.rows, FILE, row.value.id, path);
      }
    }
  }

  /** Replacing a folder removes the mappings below it. */
  lemma ClearReplacedRows(db: Db, scan: seq<Entry>, n: nat, now: seq<Row>, row: Row)
    requires FolderOrder(scan) && n < |scan| && UniqueRows(now) && RowsTracked(db.rows, scan, n, now)
    requires RowAt(now, scan[n].path) == Some(row) && row.kind == FOLDER && !SameIdentity(row.ident, scan[n].ident)
    ensures Replaced(db.rows, scan, n) && RowAt(db.rows, scan[n].path) == Some(row)
    ensures RowsTracked(db.rows, scan, n + 1, RemoveTree(now, row.path))
  {
    NextUnvisited(scan, n);
    assert Replaced(db.rows, scan, n);
    hide Below, Unvisited, UniqueRows;
    forall path | Unvisited(scan, n + 1, path)
      ensures RowAt(RemoveTree(now, row.path), path)
              == if Swept(db.rows, scan, n + 1, path) then None else RowAt(db.rows, path)
    {
      StillUnvisited(scan, n, path);
      SweptByOne(db.rows, scan, n, path);
      RemovedOrNot(now, row, scan[n].path, path);
    }
  }

  lemma RemovedOrNot(now: seq<Row>, row: Row, path: string, at: string)
    requires UniqueRows(now) && RowAt(now, path) == Some(row) && !SameName(path, at)
    ensures RowAt(RemoveTree(now, row.path), at) == if Below(path, at) then None else RowAt(now, at)
  {
    hide Below;
    BelowSameName(path, row.path, at, at);
    if Below(path, at) {
      var r := RowAt(RemoveTree(now, row.path), at);
      if r.Some? {
        BelowSameName(row.path, row.path, r.value.path, at);
        assert false;
      }
    } else {
      RemoveTreeElsewhere(now, row.path, at);
    }
  }

  lemma ReplacedNotKept(rows: seq<Row>, scan: seq<Entry>, n: nat)
    requires n < |scan| && Replaced(rows, scan, n)
    ensures !Kept(rows, scan, n)
  {}

  /** What holds of the folders before the n-th replacement. */
  ghost predicate BeforeReplacement(db: Db, scan: seq<Entry>, n: nat, now: map<nat, Folder>, seen: set<nat>) {
    && n < |scan| && Replaced(db.rows, scan, n)
    && IdAt(db.rows, scan[n]) in db.folders && IdAt(db.rows, scan[n]) !in seen
    && FoldersTracked(db, scan, n, now) && UnseenUnchanged(db.folders, now, seen)
    && KeptIds(db.rows, scan, n) <= seen
    && (forall id :: id in seen && id in db.folders ==> id in KeptIds(db.rows, scan, n))
    && (forall id :: id in now && id in seen && now[id].parent.Some? ==> now[id].parent.value in seen)
  }

  function GoneWith(now: map<nat, Folder>, id: nat): set<nat> {
    if id in now then Cascade(now, {id}) else {}
  }

  /** The folders that go are those the condition foresees, as far as they are still there. */
  lemma GoneAsForeseen(db: Db, scan: seq<Entry>, n: nat, now: map<nat, Folder>, seen: set<nat>, id: nat)
    requires BeforeReplacement(db, scan, n, now, seen) && id in now
    ensures id in GoneWith(now, IdAt(db.rows, scan[n])) <==> id in SweptAway(db, scan, n)
  {
    hide FoldersTracked, UnseenUnchanged, Swept, KeptIds;
    CascadeForeseen(db, scan, n, now, seen);
    SweptWithin(db, scan, n, now, seen, GoneWith(now, IdAt(db.rows, scan[n])));
  }

  lemma ReplacementTracksFolders(db: Db, scan: seq<Entry>, n: nat, now: map<nat, Folder>, seen: set<nat>)
    requires BeforeReplacement(db, scan, n, now, seen)
    ensures FoldersTracked(db, scan, n + 1, now - GoneWith(now, IdAt(db.rows, scan[n])))
  {
    hide Lost, Swept, KeptIds, GoneWith, SweptAway;
    forall id | id in db.folders
      ensures id in now - GoneWith(now, IdAt(db.rows, scan[n])) <==> !Lost(db, scan, n + 1, id)
    {
      LostByOne(db, scan, n, id);
      if id in now {
        GoneAsForeseen(db, scan, n, now, seen, id);
      }
    }
  }

  /** The tables once the path of the n-th entry is cleared, the entry not counted as seen yet. */
  ghost predicate Cleared(db: Db, scan: seq<Entry>, n: nat, p: Progress, cleared: Db)
    requires n < |scan|
  {
    && !Kept(db.rows, scan, n)
    && RowsTracked(db.rows, scan, n + 1, cleared.rows)
    && FoldersTracked(db, scan, n + 1, cleared.folders)
    && UnseenUnchanged(db.folders, cleared.folders, p.seen)
  }

  lemma ClearTracks(db: Db, scan: seq<Entry>, n: nat, p: Progress, cleared: Db)
    requires Complete(db) && FolderOrder(scan) && n < |scan| && FolderInvariant(p, scan, n) && Tracks(db, scan, n, p)
    requires var row := RowAt(p.db.rows, scan[n].path);
             && !(row.Some? && row.value.kind == FOLDER && SameIdentity(row.value.ident, scan[n].ident))
             && ClearPath(p.db, row) == Some(cleared)
    ensures Cleared(db, scan, n, p, cleared)
  {
    var row := RowAt(p.db.rows, scan[n].path);
    if row.Some? && row.value.kind == FOLDER {
      ClearFolderTracks(db, scan, n, p, row.value, cleared);
    } else {
      hide Kept, Replaced, RowsTracked, FoldersTracked, FoldersSettled, FilesLinked, SeenTracked, Bounded, FolderOrder,
           UniqueRows;
      ClearOtherRows(db, scan, n, p.db, cleared);
      FoldersTrackedOn(db, scan, n, p.db.folders, cleared.folders);
    }
  }

  lemma SeenAreKept(db: Db, scan: seq<Entry>, n: nat, seen: set<nat>)
    requires Bounded(db) && n <= |scan| && SeenTracked(db, scan, n, seen)
    ensures KeptIds(db.rows, scan, n) <= seen
    ensures forall id :: id in seen && id in db.folders ==> id in KeptIds(db.rows, scan, n)
  {
    hide KeptIds;
  }

  lemma SeenParentsSeen(p: Progress, scan: seq<Entry>, n: nat)
    requires FolderOrder(scan) && FolderInvariant(p, scan, n)
    ensures forall id :: id in p.db.folders && id in p.seen && p.db.folders[id].parent.Some?
                         ==> p.db.folders[id].parent.value in p.seen
  {
    hide FolderOrder, FoldersSettled;
    forall id | id in p.db.folders && id in p.seen && p.db.folders[id].parent.Some?
      ensures p.db.folders[id].parent.value in p.seen
    {
      SeenClosed(p.db, scan, n, p.seen, id);
    }
  }

  lemma StaleUnseen(p: Progress, scan: seq<Entry>, n: nat, row: Row)
    requires FolderOrder(scan) && n < |scan| && FolderInvariant(p, scan, n)
    requires RowAt(p.db.rows, scan[n].path) == Some(row) && row.kind == FOLDER
    ensures row.id !in p.seen
  {
    hide FoldersSettled;
    forall j | 0 <= j < n ensures !SameName(scan[j].path, row.path) {
      assert !SameName(scan[j].path, scan[n].path);
    }
    ElsewhereUnseen(p.db, scan, n, p.seen, row);
  }

  lemma ClearFolderTracks(db: Db, scan: seq<Entry>, n: nat, p: Progress, row: Row, cleared: Db)
    requires Complete(db) && FolderOrder(scan) && n < |scan| && FolderInvariant(p, scan, n) && Tracks(db, scan, n, p)
    requires RowAt(p.db.rows, scan[n].path) == Some(row) && row.kind == FOLDER
    requires !SameIdentity(row.ident, scan[n].ident)
    requires DeleteFolderObject(p.db, row) == Some(cleared)
    ensures Cleared(db, scan, n, p, cleared)
  {
    hide FoldersSettled, FilesLinked, FolderOrder, RowsTracked, FoldersTracked, SeenTracked, Kept, Swept, Cascade,
         UniqueRows;
    ClearReplacedRows(db, scan, n, p.db.rows, row);
    ReplacedNotKept(db.rows, scan, n);
    StaleUnseen(p, scan, n, row);
    SeenAreKept(db, scan, n, p.seen);
    SeenParentsSeen(p, scan, n);
    ReplacementTracksFolders(db, scan, n, p.db.folders, p.seen);
    assert cleared.folders == p.db.folders - GoneWith(p.db.folders, row.id);
  }

  lemma BoundedFolders(db: Db)
    requires Bounded(db)
    ensures forall id :: id in db.folders ==> id < db.nextId
  {}

  /** Recording the new folder. */
  lemma CreateTracks(db: Db, scan: seq<Entry>, n: nat, p: Progress, cleared: Db, q: Progress)
    requires FolderOrder(scan) && n < |scan| && Tracks(db, scan, n, p) && Cleared(db, scan, n, p, cleared)
    requires UniqueRows(cleared.rows) && Bounded(cleared) && cleared.nextId == p.db.nextId
    requires Bounded(db) && RowAt(cleared.rows, scan[n].path).None? && CreatedFolder(cleared, q.db, scan[n])
    requires q.seen == p.seen + {cleared.nextId} && q.hits == p.hits
    ensures Tracks(db, scan, n + 1, q)
  {
    hide Kept, Swept, Lost, KeptIds, NoneLost, NamedAfter, LookupParent, Bounded, UniqueRows;
    forall path | Unvisited(scan, n + 1, path) ensures RowAt(q.db.rows, path) == RowAt(cleared.rows, path) {
      CreatedFolderRows(cleared, q.db, scan[n], path);
    }
    KeptIdsByOne(db.rows, scan, n);
    NoneLostByOne(db, scan, n);
    BoundedFolders(db);
  }

  lemma ReconcileFolderTracks(db: Db, settings: Settings, scan: seq<Entry>, n: nat, p: Progress)
    requires Complete(db) && FolderOrder(scan) && n < |scan| && FolderInvariant(p, scan, n) && Tracks(db, scan, n, p)
    requires ReconcileFolder(p, settings, scan[n]).Some? && ReconcileFolder(p, settings, scan[n]).value.clean
    ensures Tracks(db, scan, n + 1, ReconcileFolder(p, settings, scan[n]).value)
  {
    hide FoldersSettled, Tracks, KeepFolder, CreateFolder, ClearPath, LookupParent, KeptFolder, CreatedFolder, Bounded,
         FilesLinked, UniqueRows;
    var row, q := RowAt(p.db.rows, scan[n].path), ReconcileFolder(p, settings, scan[n]).value;
    assert !TopLevel(scan[n].path) ==> ParentBefore(scan, n);
    SettledParent(p.db, scan, n, p.seen, scan[n].path);
    if row.Some? && row.value.kind == FOLDER && SameIdentity(row.value.ident, scan[n].ident) {
      KeepFolderShape(p, row.value, scan[n]);
      KeepTracks(db, scan, n, p, row.value, q);
    } else {
      var cleared := ClearPath(p.db, row).value;
      ClearTracks(db, scan, n, p, cleared);
      ClearFolderPath(p.db, p.seen, scan, n, cleared);
      SettledParent(cleared, scan, n, p.seen, scan[n].path);
      CreateFolderShape(p.(db := cleared), settings, scan[n]);
      ClearPathNext(p.db, row, cleared);
      CompleteIsBounded(db);
      CreateTracks(db, scan, n, p, cleared, q);
    }
  }

  lemma CompleteIsBounded(db: Db)
    requires Complete(db)
    ensures Bounded(db)
  {}

  lemma ClearPathNext(db: Db, row: Option<Row>, cleared: Db)
    requires ClearPath(db, row) == Some(cleared)
    ensures cleared.nextId == db.nextId
  {}

  lemma {:induction false} ReconcileFoldersTrack(db: Db, settings: Settings, scan: seq<Entry>, n: nat, p: Progress)
    requires Complete(db) && FolderOrder(scan) && n <= |scan| && FolderInvariant(p, scan, n) && Tracks(db, scan, n, p)
    requires ReconcileFolders(p, settings, scan, n).Some? && ReconcileFolders(p, settings, scan, n).value.clean
    ensures ReconcileFolders(p, settings, scan, n).value.hits <==> !Orphans(db, scan)
    decreases |scan| - n
  {
    hide Tracks, FolderInvariant, ReconcileFolder;
    if n < |scan| {
      var next := ReconcileFolder(p, settings, scan[n]).value;
      ReconcileFoldersClean(next, settings, scan, n + 1);
      ReconcileFolderSettles(p, settings, scan, n);
      ReconcileFolderTracks(db, settings, scan, n, p);
      ReconcileFoldersTrack(db, settings, scan, n + 1, next);
    } else {
      TracksHits(db, scan, p);
    }
  }

  lemma TracksHits(db: Db, scan: seq<Entry>, p: Progress)
    requires Tracks(db, scan, |scan|, p)
    ensures p.hits <==> !Orphans(db, scan)
  {
    hide LostBeforeKept, RowsTracked, FoldersTracked, SeenTracked;
  }

  /** From complete tables the folder loop finds every folder it keeps, exactly when none is orphaned. */
  lemma HitsUnlessOrphaned(db: Db, settings: Settings, scan: seq<Entry>)
    requires Complete(db) && UniqueRows(db.rows) && FilesLinked(db) && FolderOrder(scan)
    requires var p := ReconcileFolders(Progress(db, {}, true, true), settings, scan, 0); p.Some? && p.value.clean
    ensures ReconcileFolders(Progress(db, {}, true, true), settings, scan, 0).value.hits <==> !Orphans(db, scan)
  {
    hide ReconcileFolders, Stale, Replaced, Kept;
    ReconcileFoldersTrack(db, settings, scan, 0, Progress(db, {}, true, true));
  }

  // ----- the folder moves before the loop -----

  lemma MoveFolderComplete(db: Db, db': Db, moved: Row, e: Entry)
    requires Complete(db) && MovedFolder(db, db', moved, e)
    ensures Complete(db')
  {
    MoveKeepsBounded(db, db', moved, e);
    forall row' | row' in db'.rows && row'.kind == FOLDER ensures row'.id in db'.folders {
      var row := RebasedFrom(db.rows, moved, e.path, e.ident, db'.rows, row');
    }
  }

  lemma {:induction false} MoveFoldersComplete(db: Db, stable: set<nat>, scan: seq<Entry>, k: nat, nested: bool)
    requires k <= |scan| && MoveInvariant(db) && Complete(db) && MoveFolders(db, stable, scan, k, nested).Some?
    ensures Complete(MoveFolders(db, stable, scan, k, nested).value.db)
    decreases |scan| - k
  {
    hide MoveInvariant, Complete;
    if k < |scan| {
      var moved := LastWithIdentity(db.rows, FOLDER, scan[k].ident);
      if !WantsMove(moved, stable, scan[k]) {
        MoveFoldersComplete(db, stable, scan, k + 1, nested);
      } else {
        var r := MoveFolderFromSmb(db, moved.value, scan[k]).value;
        MoveKeepsInvariant(db, moved.value, scan[k]);
        if r.moved {
          MovableParts(db);
          MoveFolderShape(db, moved.value, scan[k]);
          MoveFolderComplete(db, r.db, moved.value, scan[k]);
        }
        MoveFoldersComplete(r.db, stable, scan, k + 1, nested || (r.moved && Below(moved.value.path, scan[k].path)));
      }
    }
  }

  lemma MovableParts(db: Db)
    requires MoveInvariant(db)
    ensures UniqueRows(db.rows) && Sorting.Distinct(db.rows) && Bounded(db) && FilesLinked(db)
  {}
}

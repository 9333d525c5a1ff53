/** The folders, files and repository_smb_entries tables of one repository, and the
    SQL statements that the SMB reconciler runs on them. */
module SmbTables {
  import opened Wrappers
  import opened Text
  import opened Names
  import opened Totals
  import opened QuotaLimits

  datatype Kind = FOLDER | FILE

  /** device:inode; NoIdentity is the empty key, which matches nothing. */
  datatype Identity = NoIdentity | Inode(device: nat, inode: nat)

  predicate SameIdentity(a: Identity, b: Identity) {
    a.Inode? && a == b
  }

  datatype Row = Row(kind: Kind, id: nat, path: string, ident: Identity)
  datatype Folder = Folder(parent: Option<nat>, name: string)
  datatype File = File(folder: Option<nat>, name: string, size: nat, stored: Identity)

  /** Identifiers below nextId are in use or were used; randomUUID never repeats one. */
  datatype Db = Db(folders: map<nat, Folder>, files: map<nat, File>, rows: seq<Row>, nextId: nat)

  /** One entry found by scanProjection. */
  datatype Entry = Entry(kind: Kind, path: string, ident: Identity, size: nat)

  datatype Settings = Settings(limits: Limits, maxFolders: nat, elsewhere: Usage)

  // ----- repository_smb_entries -----

  /** UNIQUE(relative_path COLLATE NOCASE) and the primary key. */
  ghost predicate UniqueRows(rows: seq<Row>) {
    && (forall a, b :: a in rows && b in rows && SameName(a.path, b.path) ==> a == b)
    && (forall a, b :: a in rows && b in rows && a.kind == b.kind && a.id == b.id ==> a == b)
  }

  function RowAt(rows: seq<Row>, path: string): (r: Option<Row>)
    ensures r.Some? ==> r.value in rows && SameName(r.value.path, path)
    ensures r.None? ==> forall row :: row in rows ==> !SameName(row.path, path)
  {
    if rows == [] then None
    else if SameName(rows[0].path, path) then Some(rows[0])
    else RowAt(rows[1..], path)
  }

  lemma RowAtIs(rows: seq<Row>, path: string, row: Row)
    requires UniqueRows(rows) && row in rows && SameName(row.path, path)
    ensures RowAt(rows, path) == Some(row)
  {}

  lemma RowAtSameName(rows: seq<Row>, p: string, q: string)
    requires SameName(p, q)
    ensures RowAt(rows, p) == RowAt(rows, q)
  {}

  function FolderIdAt(rows: seq<Row>, path: string): Option<nat> {
    var row := RowAt(rows, path);
    if row.Some? && row.value.kind == FOLDER then Some(row.value.id) else None
  }

  datatype ParentLookup = MissingParent | FoundParent(folder: Option<nat>)

  /** folderIdForParentPath together with the check that only a top-level path may have none. */
  function LookupParent(rows: seq<Row>, path: string): ParentLookup {
    if TopLevel(path) then FoundParent(None)
    else
      var id := FolderIdAt(rows, Parent(path));
      if id.Some? then FoundParent(id) else MissingParent
  }

  /** new Map(rows.map(...)).get(identityKey): the last row of that kind and identity. */
  function LastWithIdentity(rows: seq<Row>, kind: Kind, ident: Identity): (r: Option<Row>)
    ensures r.Some? ==> r.value in rows && r.value.kind == kind && SameIdentity(r.value.ident, ident)
    ensures r.None? ==> forall row :: row in rows && row.kind == kind ==> !SameIdentity(row.ident, ident)
  {
    if rows == [] then None
    else
      var last := rows[|rows| - 1];
      if last.kind == kind && SameIdentity(last.ident, ident) then Some(last)
      else LastWithIdentity(rows[..|rows| - 1], kind, ident)
  }

  predicate IsKey(row: Row, kind: Kind, id: nat) {
    row.kind == kind && row.id == id
  }

  /** UPDATE ... SET relative_path, device, inode WHERE entry_type AND object_id; throws when
      another row holds the path. */
  function Relocate(rows: seq<Row>, kind: Kind, id: nat, path: string, ident: Identity): (r: Option<seq<Row>>)
    ensures r.Some? ==> |r.value| == |rows|
    ensures r.Some? ==> forall i :: 0 <= i < |rows| ==>
              r.value[i] == if IsKey(rows[i], kind, id) then Row(kind, id, path, ident) else rows[i]
    ensures r.None? <==>
            (exists a :: a in rows && IsKey(a, kind, id))
            && (exists b :: b in rows && !IsKey(b, kind, id) && SameName(b.path, path))
  {
    if (exists a :: a in rows && IsKey(a, kind, id))
       && (exists b :: b in rows && !IsKey(b, kind, id) && SameName(b.path, path))
    then None
    else Some(seq(|rows|, i requires 0 <= i < |rows| =>
                    if IsKey(rows[i], kind, id) then Row(kind, id, path, ident) else rows[i]))
  }

  lemma RelocateMembers(rows: seq<Row>, kind: Kind, id: nat, path: string, ident: Identity)
    requires UniqueRows(rows) && Relocate(rows, kind, id, path, ident).Some?
    ensures var r := Relocate(rows, kind, id, path, ident).value;
            && UniqueRows(r)
            && (forall a :: a in rows && !IsKey(a, kind, id) ==> a in r)
            && (forall a :: a in r && !IsKey(a, kind, id) ==> a in rows)
            && (forall a :: a in r && IsKey(a, kind, id) ==> a == Row(kind, id, path, ident))
            && ((exists a :: a in rows && IsKey(a, kind, id)) ==> Row(kind, id, path, ident) in r)
  {
    var r := Relocate(rows, kind, id, path, ident).value;
    forall a | a in rows && !IsKey(a, kind, id) ensures a in r {
      var i :| 0 <= i < |rows| && rows[i] == a;
      assert r[i] == a;
    }
    forall a | a in r
      ensures if IsKey(a, kind, id) then a == Row(kind, id, path, ident) else a in rows
    {
      var i :| 0 <= i < |r| && r[i] == a;
    }
    if a :| a in rows && IsKey(a, kind, id) {
      var i :| 0 <= i < |rows| && rows[i] == a;
      assert r[i] == Row(kind, id, path, ident);
    } else {
      forall a | a in r ensures !IsKey(a, kind, id) {
        var i :| 0 <= i < |r| && r[i] == a;
        assert rows[i] in rows;
      }
    }
    RelocateUnique(rows, r, kind, id, path, ident);
  }

  lemma RelocateUnique(rows: seq<Row>, r: seq<Row>, kind: Kind, id: nat, path: string, ident: Identity)
    requires UniqueRows(rows)
    requires forall a :: a in r ==> if IsKey(a, kind, id) then a == Row(kind, id, path, ident) else a in rows
    requires (exists a :: a in r && IsKey(a, kind, id)) ==>
               forall b :: b in rows && !IsKey(b, kind, id) ==> !SameName(b.path, path)
    ensures UniqueRows(r)
  {}

  /** The rows that DELETE ... WHERE path = ? OR path LIKE ? leaves. */
  function RemoveTree(rows: seq<Row>, path: string): (r: seq<Row>)
    ensures forall row :: row in r <==> row in rows && !SameName(row.path, path) && !Below(path, row.path)
  {
    if rows == [] then []
    else
      LikeMatchesDescendants(path, rows[0].path);
      (if SameName(rows[0].path, path) || Like(DescendantPattern(path), rows[0].path) then [] else [rows[0]])
      + RemoveTree(rows[1..], path)
  }

  function RemoveKey(rows: seq<Row>, kind: Kind, id: nat): (r: seq<Row>)
    ensures forall row :: row in r <==> row in rows && !IsKey(row, kind, id)
  {
    if rows == [] then []
    else (if IsKey(rows[0], kind, id) then [] else [rows[0]]) + RemoveKey(rows[1..], kind, id)
  }

  // ----- folders -----

  predicate ParentExists(folders: map<nat, Folder>, parent: Option<nat>) {
    parent.Some? ==> parent.value in folders
  }

  /** idx_folders_unique_sibling_name would be violated. */
  predicate NameTaken(folders: map<nat, Folder>, id: nat, parent: Option<nat>, name: string) {
    exists other :: other in folders && other != id && folders[other].parent == parent
                    && SameName(folders[other].name, name)
  }

  ghost predicate SiblingsUnique(folders: map<nat, Folder>) {
    forall a, b :: a in folders && b in folders && a != b && folders[a].parent == folders[b].parent
                   ==> !SameName(folders[a].name, folders[b].name)
  }

  function SiblingNames(folders: map<nat, Folder>, parent: Option<nat>, excluded: Option<nat>): set<string> {
    set id | id in folders && folders[id].parent == parent && Some(id) != excluded :: Lower(folders[id].name)
  }

  /** What the name of a folder is made from, for names without control characters. */
  function NameBase(desired: string): string {
    var named := if desired == "" then "folder" else desired;
    if |named| > MAX_FOLDER_NAME_LENGTH then named[..MAX_FOLDER_NAME_LENGTH] else named
  }

  /** The last component of the path, possibly cut short and with an index. */
  ghost predicate NamedAfter(name: string, path: string) {
    exists i :: 1 <= i <= MAX_ATTEMPTS && name == SuffixName(NameBase(BaseName(path)), i, MAX_FOLDER_NAME_LENGTH)
  }

  lemma UniqueNameIsCandidate(folders: map<nat, Folder>, parent: Option<nat>, path: string, excluded: Option<nat>)
    requires UniqueFolderName(folders, parent, BaseName(path), excluded).Some?
    ensures NamedAfter(UniqueFolderName(folders, parent, BaseName(path), excluded).value, path)
  {
    hide SuffixName, NameBase, BaseName;
    FirstFreeIsCandidate(NameBase(BaseName(path)), MAX_FOLDER_NAME_LENGTH, SiblingNames(folders, parent, excluded), 1);
  }

  /** uniqueDatabaseFolderName */
  function UniqueFolderName(
    folders: map<nat, Folder>, parent: Option<nat>, desired: string, excluded: Option<nat>
  ): (r: Option<string>)
    ensures r.Some? ==> forall id :: id in folders && folders[id].parent == parent && Some(id) != excluded
                                     ==> !SameName(folders[id].name, r.value)
  {
    var taken := SiblingNames(folders, parent, excluded);
    assert forall id :: id in folders && folders[id].parent == parent && Some(id) != excluded
                        ==> Lower(folders[id].name) in taken;
    FirstFree(NameBase(desired), MAX_FOLDER_NAME_LENGTH, taken, 1)
  }

  /** A folder name is found while fewer than 9,999 siblings have one of the names that are tried. */
  lemma FolderNameIsFound(folders: map<nat, Folder>, parent: Option<nat>, desired: string, excluded: Option<nat>)
    requires |Conflicting(NameBase(desired), MAX_FOLDER_NAME_LENGTH,
                          SiblingNames(folders, parent, excluded))| < MAX_ATTEMPTS - 1
    ensures UniqueFolderName(folders, parent, desired, excluded).Some?
  {
    AllocationSucceeds(NameBase(desired), MAX_FOLDER_NAME_LENGTH, SiblingNames(folders, parent, excluded));
  }

  /** UPDATE folders SET parent_id, name WHERE id: no row, no check; otherwise the foreign
      key and the sibling index may throw. */
  function UpdateFolder(
    folders: map<nat, Folder>, id: nat, parent: Option<nat>, name: string
  ): Option<map<nat, Folder>> {
    if id !in folders then Some(folders)
    else if !ParentExists(folders, parent) || NameTaken(folders, id, parent, name) then None
    else Some(folders[id := Folder(parent, name)])
  }

  function Children(folders: map<nat, Folder>, parents: set<nat>): set<nat> {
    set id | id in folders && folders[id].parent.Some? && folders[id].parent.value in parents
  }

  /** ON DELETE CASCADE: everything whose chain of parents reaches the doomed folders. */
  function Cascade(folders: map<nat, Folder>, doomed: set<nat>): (r: set<nat>)
    ensures doomed <= r
    ensures Children(folders, r) <= r
    decreases |folders.Keys - doomed|
  {
    var next := doomed + Children(folders, doomed);
    if next == doomed then doomed
    else
      assert folders.Keys - next < folders.Keys - doomed by {
        var id :| id in next && id !in doomed;
        assert id in folders.Keys - doomed && id !in folders.Keys - next;
      }
      SubsetCardinality(folders.Keys - next, folders.Keys - doomed);
      Cascade(folders, next)
  }

  lemma SubsetCardinality<T>(a: set<T>, b: set<T>)
    requires a < b
    ensures |a| < |b|
  {
    var x :| x in b && x !in a;
    SubsetSize(a, b - {x});
  }

  /** The cascade is the least closed set: it lies inside every closed one. */
  lemma {:induction false} CascadeWithin(folders: map<nat, Folder>, doomed: set<nat>, bound: set<nat>)
    requires doomed <= bound && Children(folders, bound) <= bound
    ensures Cascade(folders, doomed) <= bound
    decreases |folders.Keys - doomed|
  {
    var next := doomed + Children(folders, doomed);
    if next != doomed {
      assert folders.Keys - next < folders.Keys - doomed by {
        var id :| id in next && id !in doomed;
        assert id in folders.Keys - doomed && id !in folders.Keys - next;
      }
      SubsetCardinality(folders.Keys - next, folders.Keys - doomed);
      forall id | id in Children(folders, doomed) ensures id in bound {
        assert id in Children(folders, bound);
      }
      CascadeWithin(folders, next, bound);
    }
  }

  /** The recursive query of filesInFolderTree (UNION ALL) does not terminate on such a folder. */
  predicate OnCycle(folders: map<nat, Folder>, id: nat) {
    id in folders && folders[id].parent.Some? && folders[id].parent.value in Cascade(folders, {id})
  }

  predicate InFolders(file: File, gone: set<nat>) {
    file.folder.Some? && file.folder.value in gone
  }

  /** deleteFolderObject; None when the tree query diverges. */
  function DeleteFolderObject(db: Db, row: Row): (r: Option<Db>)
    ensures r.Some? ==> r.value.nextId == db.nextId && r.value.folders.Keys <= db.folders.Keys
                        && r.value.files.Keys <= db.files.Keys
  {
    if OnCycle(db.folders, row.id) then None
    else
      var gone := if row.id in db.folders then Cascade(db.folders, {row.id}) else {};
      Some(Db(db.folders - gone,
              map id | id in db.files && !InFolders(db.files[id], gone) :: db.files[id],
              RemoveTree(db.rows, row.path),
              db.nextId))
  }

  function DeleteFileObject(db: Db, id: nat): Db {
    db.(files := db.files - {id}, rows := RemoveKey(db.rows, FILE, id))
  }

  // ----- quota -----

  function SizeOf(): File -> nat {
    (f: File) => f.size
  }

  ghost function RepositoryUsage(files: map<nat, File>): Usage {
    Usage(|files|, Total(files, SizeOf()))
  }

  ghost function EnforceQuota(
    db: Db, settings: Settings, nextSize: nat, replacedSize: nat, addsFile: bool
  ): Option<Quota> {
    var here := RepositoryUsage(db.files);
    EnforceSmbFileQuota(
      settings.limits, here,
      Usage(here.count + settings.elsewhere.count, here.size + settings.elsewhere.size),
      nextSize, replacedSize, addsFile)
  }
}

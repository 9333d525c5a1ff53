/** Folders created and deleted on the web: a forest of bounded depth, and the stored files that
    go with a folder (src/repository-folders.js). */
module RepositoryFolders {
  import opened Wrappers
  import opened Text
  import opened SmbTables

  const MAX_FOLDER_DEPTH := 32
  const MAX_NAME_LENGTH := 100

  datatype FolderError =
    | INVALID_NAME_LENGTH | INVALID_NAME | FOLDER_NOT_FOUND | DEPTH_LIMIT | FOLDER_LIMIT | DUPLICATE_NAME

  /** A row of files: its folder and the file on disk that it owns. */
  datatype Stored = Stored(folder: Option<nat>, blob: nat)

  // ----- depth and chains -----

  /** The folder is n levels deep; its parents lead to a top-level folder in n - 1 steps. */
  ghost predicate AtDepth(folders: map<nat, Folder>, id: nat, n: nat)
    decreases n
  {
    && n >= 1 && id in folders
    && (match folders[id].parent
        case None => n == 1
        case Some(p) => n >= 2 && AtDepth(folders, p, n - 1))
  }

  ghost predicate WithinDepth(folders: map<nat, Folder>, id: nat) {
    exists n: nat :: n <= MAX_FOLDER_DEPTH && AtDepth(folders, id, n)
  }

  /** Every folder hangs from a top-level one, at most 32 levels deep. */
  ghost predicate Forest(folders: map<nat, Folder>) {
    forall id :: id in folders ==> WithinDepth(folders, id)
  }

  lemma {:induction false} DepthIsUnique(folders: map<nat, Folder>, id: nat, m: nat, n: nat)
    requires AtDepth(folders, id, m) && AtDepth(folders, id, n)
    ensures m == n
    decreases m
  {
    if folders[id].parent.Some? {
      DepthIsUnique(folders, folders[id].parent.value, m - 1, n - 1);
    }
  }

  /** The recursive query of folderDepth: one row per ancestor, as long as depth <= 32. */
  function QueryDepth(folders: map<nat, Folder>, id: nat, depth: nat): nat
    requires id in folders
    decreases MAX_FOLDER_DEPTH + 1 - depth
  {
    var parent := folders[id].parent;
    if parent.None? || parent.value !in folders || depth > MAX_FOLDER_DEPTH then depth
    else QueryDepth(folders, parent.value, depth + 1)
  }

  function FolderDepth(folders: map<nat, Folder>, id: Option<nat>): nat {
    if id.None? || id.value !in folders then 0 else QueryDepth(folders, id.value, 1)
  }

  lemma {:induction false} QueryDepthAt(folders: map<nat, Folder>, id: nat, n: nat, depth: nat)
    requires AtDepth(folders, id, n) && depth + n <= MAX_FOLDER_DEPTH + 2
    ensures QueryDepth(folders, id, depth) == depth + n - 1
    decreases n
  {
    if folders[id].parent.Some? {
      QueryDepthAt(folders, folders[id].parent.value, n - 1, depth + 1);
    }
  }

  /** In a forest the query gives the true depth: its cap is never felt. */
  lemma FolderDepthIsExact(folders: map<nat, Folder>, id: nat, n: nat)
    requires AtDepth(folders, id, n) && n <= MAX_FOLDER_DEPTH
    ensures FolderDepth(folders, Some(id)) == n
  {
    QueryDepthAt(folders, id, n, 1);
  }

  /** The rows of the breadcrumb query, root first. */
  function Crumbs(folders: map<nat, Folder>, id: nat, depth: nat): (r: seq<nat>)
    requires id in folders
    ensures r != [] && r[|r| - 1] == id && forall i :: 0 <= i < |r| ==> r[i] in folders
    decreases MAX_FOLDER_DEPTH - depth
  {
    var parent := folders[id].parent;
    if parent.None? || parent.value !in folders || depth >= MAX_FOLDER_DEPTH then [id]
    else Crumbs(folders, parent.value, depth + 1) + [id]
  }

  function Breadcrumbs(folders: map<nat, Folder>, id: Option<nat>): seq<nat> {
    if id.None? || id.value !in folders then [] else Crumbs(folders, id.value, 0)
  }

  /** A chain of folders from a top-level one, each the parent of the next. */
  ghost predicate IsChain(folders: map<nat, Folder>, chain: seq<nat>) {
    && chain != [] && (forall i :: 0 <= i < |chain| ==> chain[i] in folders)
    && folders[chain[0]].parent == None
    && forall i :: 1 <= i < |chain| ==> folders[chain[i]].parent == Some(chain[i - 1])
  }

  lemma {:induction false} CrumbsAreChain(folders: map<nat, Folder>, id: nat, n: nat, depth: nat)
    requires AtDepth(folders, id, n) && depth + n <= MAX_FOLDER_DEPTH + 1
    ensures IsChain(folders, Crumbs(folders, id, depth)) && |Crumbs(folders, id, depth)| == n
    decreases n
  {
    if folders[id].parent.Some? {
      CrumbsAreChain(folders, folders[id].parent.value, n - 1, depth + 1);
    }
  }

  /** Breadcrumbs show the complete way from the root, in spite of the cap on the recursion. */
  lemma BreadcrumbsAreComplete(folders: map<nat, Folder>, id: nat)
    requires Forest(folders) && id in folders
    ensures var crumbs := Breadcrumbs(folders, Some(id));
            IsChain(folders, crumbs) && crumbs[|crumbs| - 1] == id && |crumbs| == FolderDepth(folders, Some(id))
  {
    assert WithinDepth(folders, id);
    var n: nat :| n <= MAX_FOLDER_DEPTH && AtDepth(folders, id, n);
    CrumbsAreChain(folders, id, n, 0);
    FolderDepthIsExact(folders, id, n);
  }

  // ----- creation -----

  predicate UnsafeControl(c: char) {
    c < ' ' || c == 127 as char
  }

  /** normalizeFolderName, of a name that is already trimmed. */
  function NameError(name: string): Option<FolderError> {
    if name == "" || |name| > MAX_NAME_LENGTH then Some(INVALID_NAME_LENGTH)
    else if name == "." || name == ".." || '/' in name || '\\' in name || exists c :: c in name && UnsafeControl(c) then
      Some(INVALID_NAME)
    else None
  }

  predicate Duplicate(folders: map<nat, Folder>, parent: Option<nat>, name: string) {
    exists id :: id in folders && folders[id].parent == parent && SameName(folders[id].name, name)
  }

  /** The checks of createRepositoryFolder, in their order. */
  function CreateError(folders: map<nat, Folder>, parent: Option<nat>, name: string, limit: nat): Option<FolderError> {
    if NameError(name).Some? then NameError(name)
    else if parent.Some? && parent.value !in folders then Some(FOLDER_NOT_FOUND)
    else if parent.Some? && FolderDepth(folders, parent) >= MAX_FOLDER_DEPTH then Some(DEPTH_LIMIT)
    else if |folders| >= limit then Some(FOLDER_LIMIT)
    else if Duplicate(folders, parent, name) then Some(DUPLICATE_NAME)
    else None
  }

  lemma {:induction false} DepthAfterCreate(folders: map<nat, Folder>, id: nat, folder: Folder, other: nat, n: nat)
    requires id !in folders && AtDepth(folders, other, n)
    ensures AtDepth(folders[id := folder], other, n)
    decreases n
  {
    if folders[other].parent.Some? {
      DepthAfterCreate(folders, id, folder, folders[other].parent.value, n - 1);
    }
  }

  /** A created folder is one level below its parent, and the others stay where they are. */
  lemma CreateKeepsForest(folders: map<nat, Folder>, id: nat, parent: Option<nat>, name: string, limit: nat)
    requires Forest(folders) && SiblingsUnique(folders) && id !in folders
    requires CreateError(folders, parent, name, limit).None?
    ensures var created := folders[id := Folder(parent, name)];
            && Forest(created) && SiblingsUnique(created) && |created| <= limit
            && FolderDepth(created, Some(id)) == FolderDepth(folders, parent) + 1
  {
    hide NameError, FolderDepth, SiblingsUnique, AtDepth;
    var created := folders[id := Folder(parent, name)];
    CreatedSiblings(folders, id, parent, name);
    assert created.Keys == folders.Keys + {id} && |created| == |created.Keys| && |folders| == |folders.Keys|;
    forall other | other in folders ensures WithinDepth(created, other) {
      assert WithinDepth(folders, other);
      var n: nat :| n <= MAX_FOLDER_DEPTH && AtDepth(folders, other, n);
      DepthAfterCreate(folders, id, Folder(parent, name), other, n);
    }
    CreatedDepth(folders, id, parent, name);
  }

  lemma CreatedSiblings(folders: map<nat, Folder>, id: nat, parent: Option<nat>, name: string)
    requires SiblingsUnique(folders) && id !in folders && !Duplicate(folders, parent, name)
    ensures SiblingsUnique(folders[id := Folder(parent, name)])
  {}

  lemma CreatedDepth(folders: map<nat, Folder>, id: nat, parent: Option<nat>, name: string)
    requires Forest(folders) && id !in folders
    requires parent.Some? ==> parent.value in folders && FolderDepth(folders, parent) < MAX_FOLDER_DEPTH
    ensures var created := folders[id := Folder(parent, name)];
            WithinDepth(created, id) && FolderDepth(created, Some(id)) == FolderDepth(folders, parent) + 1
  {
    var created := folders[id := Folder(parent, name)];
    if parent.None? {
      assert AtDepth(created, id, 1);
    } else {
      assert WithinDepth(folders, parent.value);
      var n: nat :| n <= MAX_FOLDER_DEPTH && AtDepth(folders, parent.value, n);
      FolderDepthIsExact(folders, parent.value, n);
      DepthAfterCreate(folders, id, Folder(parent, name), parent.value, n);
      assert AtDepth(created, id, n + 1);
      FolderDepthIsExact(created, id, n + 1);
    }
  }

  // ----- deletion -----

  lemma {:induction false} DepthAfterDelete(folders: map<nat, Folder>, gone: set<nat>, id: nat, n: nat)
    requires Children(folders, gone) <= gone && AtDepth(folders, id, n) && id !in gone
    ensures AtDepth(folders - gone, id, n)
    decreases n
  {
    if folders[id].parent.Some? {
      var p := folders[id].parent.value;
      assert p in gone ==> id in Children(folders, gone);
      DepthAfterDelete(folders, gone, p, n - 1);
    }
  }

  /** What a cascade leaves is a forest again. */
  lemma DeleteKeepsForest(folders: map<nat, Folder>, id: nat)
    requires Forest(folders) && SiblingsUnique(folders)
    ensures Forest(folders - Cascade(folders, {id})) && SiblingsUnique(folders - Cascade(folders, {id}))
  {
    var gone := Cascade(folders, {id});
    forall other | other in folders - gone ensures WithinDepth(folders - gone, other) {
      assert WithinDepth(folders, other);
      var n: nat :| n <= MAX_FOLDER_DEPTH && AtDepth(folders, other, n);
      DepthAfterDelete(folders, gone, other, n);
    }
  }

  /** One level of the tree query after another. */
  ghost predicate AllAtDepth(folders: map<nat, Folder>, level: set<nat>, n: nat) {
    forall id :: id in level ==> AtDepth(folders, id, n)
  }

  lemma ChildrenAreDeeper(folders: map<nat, Folder>, level: set<nat>, n: nat)
    requires Forest(folders) && AllAtDepth(folders, level, n)
    ensures AllAtDepth(folders, Children(folders, level), n + 1)
    ensures n >= MAX_FOLDER_DEPTH ==> Children(folders, level) == {}
  {
    forall id | id in Children(folders, level) ensures AtDepth(folders, id, n + 1) && n < MAX_FOLDER_DEPTH {
      assert WithinDepth(folders, id);
      var m: nat :| m <= MAX_FOLDER_DEPTH && AtDepth(folders, id, m);
      DepthIsUnique(folders, folders[id].parent.value, m - 1, n);
    }
  }

  function BlobsOf(files: map<nat, Stored>): set<nat> {
    set id | id in files :: files[id].blob
  }

  class Repository {
    var folders: map<nat, Folder>
    var files: map<nat, Stored>
    /** The stored files on disk. */
    var blobs: set<nat>
    var nextId: nat
    const folderLimit: nat

    /** A forest with distinct sibling names; every file row lies in an existing folder and owns a
        stored file of its own, and nothing else is stored. */
    ghost predicate Valid()
      reads this
    {
      && Forest(folders) && SiblingsUnique(folders)
      && (forall id :: id in folders ==> id < nextId) && (forall id :: id in files ==> id < nextId)
      && (forall id :: id in files && files[id].folder.Some? ==> files[id].folder.value in folders)
      && (forall a, b :: a in files && b in files && files[a].blob == files[b].blob ==> a == b)
      && blobs == BlobsOf(files)
    }

    constructor (folderLimit: nat)
      ensures Valid() && folders == map[] && files == map[] && this.folderLimit == folderLimit
    {
      folders, files, blobs, nextId := map[], map[], {}, 0;
      this.folderLimit := folderLimit;
    }

    method GetBreadcrumbs(id: Option<nat>) returns (crumbs: seq<nat>)
      requires Valid()
      ensures crumbs == Breadcrumbs(folders, id)
      ensures id.Some? && id.value in folders ==> IsChain(folders, crumbs) && crumbs[|crumbs| - 1] == id.value
    {
      if id.None? || id.value !in folders {
        return [];
      }
      BreadcrumbsAreComplete(folders, id.value);
      var at, depth := id.value, 0;
      crumbs := [at];
      while folders[at].parent.Some? && folders[at].parent.value in folders && depth < MAX_FOLDER_DEPTH
        invariant at in folders && depth <= MAX_FOLDER_DEPTH && crumbs != []
        invariant Crumbs(folders, id.value, 0)
                 == Crumbs(folders, at, depth)[..|Crumbs(folders, at, depth)| - 1] + crumbs
        decreases MAX_FOLDER_DEPTH - depth
      {
        var parent := folders[at].parent.value;
        CrumbStep(folders, at, depth, crumbs);
        at, depth := parent, depth + 1;
        crumbs := [parent] + crumbs;
      }
    }

    method CreateFolder(parent: Option<nat>, name: string) returns (id: nat, error: Option<FolderError>)
      requires Valid()
      modifies this
      ensures Valid() && error == CreateError(old(folders), parent, name, folderLimit)
      ensures error.Some? ==> folders == old(folders)
      ensures error.None? ==> id !in old(folders) && folders == old(folders)[id := Folder(parent, name)]
      ensures files == old(files) && blobs == old(blobs)
    {
      hide Forest, SiblingsUnique, NameError, Duplicate, FolderDepth;
      id := nextId;
      error := CreateError(folders, parent, name, folderLimit);
      if error.None? {
        CreateKeepsForest(folders, id, parent, name, folderLimit);
        folders := folders[id := Folder(parent, name)];
        nextId := nextId + 1;
      }
    }

    /** A committed upload: the row, and the stored file under a name that was never used. */
    method UploadFile(folder: Option<nat>, blob: nat) returns (id: nat, error: Option<FolderError>)
      requires Valid() && blob !in blobs
      modifies this
      ensures Valid() && folders == old(folders)
      ensures error == if folder.Some? && folder.value !in old(folders) then Some(FOLDER_NOT_FOUND) else None
      ensures error.Some? ==> files == old(files) && blobs == old(blobs)
      ensures error.None? ==> id !in old(files) && files == old(files)[id := Stored(folder, blob)]
                              && blobs == old(blobs) + {blob}
    {
      hide Forest, SiblingsUnique;
      id := nextId;
      error := None;
      if folder.Some? && folder.value !in folders {
        return id, Some(FOLDER_NOT_FOUND);
      }
      BlobAdded(files, id, Stored(folder, blob));
      files := files[id := Stored(folder, blob)];
      blobs := blobs + {blob};
      nextId := nextId + 1;
    }

    /** The folders of the recursive query, level by level. */
    method FolderTree(id: nat) returns (tree: set<nat>)
      requires Valid() && id in folders
      ensures tree == Cascade(folders, {id})
    {
      hide Cascade, SiblingsUnique;
      assert WithinDepth(folders, id);
      ghost var n: nat :| n <= MAX_FOLDER_DEPTH && AtDepth(folders, id, n);
      var level := {id};
      tree := {};
      while level != {}
        invariant AllAtDepth(folders, level, n) && n <= MAX_FOLDER_DEPTH + 1
        invariant n == MAX_FOLDER_DEPTH + 1 ==> level == {}
        invariant id in tree + level && tree + level <= Cascade(folders, {id})
        invariant Children(folders, tree) <= tree + level
        decreases MAX_FOLDER_DEPTH + 1 - n
      {
        ChildrenAreDeeper(folders, level, n);
        ChildrenInCascade(folders, id, level);
        tree := tree + level;
        level := Children(folders, level);
        n := n + 1;
      }
      CascadeWithin(folders, {id}, tree);
    }

    /** The stored files of the tree go first, then the folder row and all that hangs from it. */
    method DeleteFolder(id: nat) returns (error: Option<FolderError>, deletedFiles: nat)
      requires Valid()
      modifies this
      ensures Valid()
      ensures error.Some? <==> id !in old(folders)
      ensures error.Some? ==> folders == old(folders) && files == old(files) && blobs == old(blobs)
      ensures error.None? ==>
                var gone := Cascade(old(folders), {id});
                && folders == old(folders) - gone
                && (forall f :: f in files <==> f in old(files) && !InTree(old(files)[f], gone))
                && (forall f :: f in files ==> files[f] == old(files)[f])
                && blobs == old(blobs) - (set f | f in old(files) && InTree(old(files)[f], gone) :: old(files)[f].blob)
    {
      hide Cascade, Forest, SiblingsUnique, BlobsOf;
      deletedFiles := 0;
      if id !in folders {
        return Some(FOLDER_NOT_FOUND), 0;
      }
      var tree := FolderTree(id);
      DeleteKeepsForest(folders, id);
      var doomed := set f | f in files && InTree(files[f], tree);
      deletedFiles := |doomed|;
      blobs := blobs - (set f | f in doomed :: files[f].blob);
      BlobsLeft(files, doomed);
      // ON DELETE CASCADE
      folders := folders - tree;
      files := files - doomed;
      error := None;
    }
  }

  predicate InTree(file: Stored, tree: set<nat>) {
    file.folder.Some? && file.folder.value in tree
  }

  lemma BlobAdded(files: map<nat, Stored>, id: nat, file: Stored)
    requires id !in files
    ensures BlobsOf(files[id := file]) == BlobsOf(files) + {file.blob}
  {
    var more := files[id := file];
    forall x | x in BlobsOf(files) + {file.blob} ensures x in BlobsOf(more) {
      if x == file.blob {
        assert more[id].blob == x;
      } else {
        var f :| f in files && files[f].blob == x;
        assert more[f].blob == x;
      }
    }
  }

  lemma BlobsLeft(files: map<nat, Stored>, doomed: set<nat>)
    requires forall a, b :: a in files && b in files && files[a].blob == files[b].blob ==> a == b
    requires forall f :: f in doomed ==> f in files
    ensures BlobsOf(files) - (set f | f in doomed :: files[f].blob) == BlobsOf(files - doomed)
  {
    var gone := set f | f in doomed :: files[f].blob;
    forall x | x in BlobsOf(files - doomed) ensures x in BlobsOf(files) - gone {
      var f :| f in files - doomed && files[f].blob == x;
    }
    forall x | x in BlobsOf(files) - gone ensures x in BlobsOf(files - doomed) {
      var f :| f in files && files[f].blob == x;
      assert f in files - doomed;
    }
  }

  lemma CrumbStep(folders: map<nat, Folder>, at: nat, depth: nat, crumbs: seq<nat>)
    requires at in folders && folders[at].parent.Some? && folders[at].parent.value in folders
    requires depth < MAX_FOLDER_DEPTH
    ensures var parent, here := folders[at].parent.value, Crumbs(folders, at, depth);
            var above := Crumbs(folders, parent, depth + 1);
            here[..|here| - 1] + crumbs == above[..|above| - 1] + ([parent] + crumbs)
  {
    var above := Crumbs(folders, folders[at].parent.value, depth + 1);
    assert (above + [at])[..|above|] == above;
    assert above == above[..|above| - 1] + [folders[at].parent.value];
  }

  lemma ChildrenInCascade(folders: map<nat, Folder>, id: nat, level: set<nat>)
    requires level <= Cascade(folders, {id})
    ensures Children(folders, level) <= Cascade(folders, {id})
  {
    hide Cascade;
    forall x | x in Children(folders, level) ensures x in Cascade(folders, {id}) {
      assert x in Children(folders, Cascade(folders, {id}));
    }
  }
}

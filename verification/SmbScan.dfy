/** The scans that a directory tree gives, and the order in which folders are visited. */
module SmbScan {
  import opened Text
  import opened Sorting
  import opened SmbTables
  import opened SmbSync

  /** Paths distinct ignoring case, and every entry inside a scanned folder. */
  ghost predicate ValidScan(scan: seq<Entry>) {
    && PathsDistinct(scan)
    && (forall e :: e in scan ==> e.ident.Inode? && e.path != "" && e.path[0] != '/')
    && (forall e :: e in scan && !TopLevel(e.path) ==> InFolder(scan, e.path))
  }

  ghost predicate PathsDistinct(entries: seq<Entry>) {
    forall i, j :: 0 <= i < j < |entries| ==> !SameName(entries[i].path, entries[j].path)
  }

  ghost predicate InFolder(scan: seq<Entry>, path: string) {
    exists f :: f in scan && f.kind == FOLDER && f.path == Parent(path)
  }

  /** The folders in visiting order: parents first. */
  ghost predicate FolderOrder(folders: seq<Entry>) {
    && PathsDistinct(folders)
    && (forall i :: 0 <= i < |folders| ==>
          folders[i].ident.Inode? && folders[i].path != "" && folders[i].path[0] != '/')
    && (forall j :: 0 <= j < |folders| && !TopLevel(folders[j].path) ==> ParentBefore(folders, j))
  }

  ghost predicate ParentBefore(folders: seq<Entry>, j: nat)
    requires j < |folders|
  {
    exists i :: 0 <= i < j && folders[i].path == Parent(folders[j].path)
  }

  /** The files of a scan, relative to its folders. */
  ghost predicate FileList(folders: seq<Entry>, files: seq<Entry>) {
    && PathsDistinct(files)
    && (forall i, j :: 0 <= i < |folders| && 0 <= j < |files| ==> !SameName(folders[i].path, files[j].path))
    && (forall j :: 0 <= j < |files| ==>
          files[j].ident.Inode? && files[j].path != "" && files[j].path[0] != '/')
    && (forall j :: 0 <= j < |files| && !TopLevel(files[j].path) ==> ParentListed(folders, files[j].path))
  }

  ghost predicate ParentListed(folders: seq<Entry>, path: string) {
    exists i :: 0 <= i < |folders| && folders[i].path == Parent(path)
  }

  lemma {:induction false} OfKindDistinct(scan: seq<Entry>, kind: Kind)
    requires PathsDistinct(scan)
    ensures PathsDistinct(OfKind(scan, kind))
  {
    if scan != [] {
      var rest := OfKind(scan[1..], kind);
      OfKindDistinct(scan[1..], kind);
      forall e | e in rest ensures !SameName(scan[0].path, e.path) {
        var i :| 0 <= i < |scan[1..]| && scan[1..][i] == e;
        assert scan[i + 1] == e;
      }
    }
  }

  lemma EntriesDiffer(scan: seq<Entry>, e: Entry, f: Entry)
    requires ValidScan(scan) && e in scan && f in scan && e != f
    ensures !SameName(e.path, f.path)
  {
    var i :| 0 <= i < |scan| && scan[i] == e;
    var j :| 0 <= j < |scan| && scan[j] == f;
    if i < j {
      assert !SameName(scan[i].path, scan[j].path);
    } else {
      assert !SameName(scan[j].path, scan[i].path);
    }
  }

  lemma SortedDistinct(list: seq<Entry>, rank: Entry -> int)
    requires PathsDistinct(list)
    ensures PathsDistinct(Sort(list, rank))
  {
    var r := Sort(list, rank);
    SortMembers(list, rank);
    SortDistinct(list, rank);
    forall i, j | 0 <= i < j < |r| ensures !SameName(r[i].path, r[j].path) {
      assert r[i] in r && r[j] in r;
      var a :| 0 <= a < |list| && list[a] == r[i];
      var b :| 0 <= b < |list| && list[b] == r[j];
      if a < b {
        assert !SameName(list[a].path, list[b].path);
      } else {
        assert !SameName(list[b].path, list[a].path);
      }
    }
  }

  lemma ScanFoldersMembers(scan: seq<Entry>)
    ensures forall e :: e in ScanFolders(scan) <==> e in scan && e.kind == FOLDER
  {
    SortMembers(OfKind(scan, FOLDER), DepthOf());
  }

  lemma ScanParentBefore(scan: seq<Entry>, j: nat)
    requires ValidScan(scan) && j < |ScanFolders(scan)| && !TopLevel(ScanFolders(scan)[j].path)
    ensures ParentBefore(ScanFolders(scan), j)
  {
    hide Sort, OfKind, PathsDistinct;
    var folders := ScanFolders(scan);
    ScanFoldersMembers(scan);
    assert folders[j] in folders && InFolder(scan, folders[j].path);
    var f :| f in scan && f.kind == FOLDER && f.path == Parent(folders[j].path);
    assert f in folders;
    var i :| 0 <= i < |folders| && folders[i] == f;
    ParentIsShallower(folders[j].path);
    assert DepthOf()(folders[i]) < DepthOf()(folders[j]);
  }

  lemma ScanFoldersOrdered(scan: seq<Entry>)
    requires ValidScan(scan)
    ensures FolderOrder(ScanFolders(scan))
    ensures forall e :: e in ScanFolders(scan) <==> e in scan && e.kind == FOLDER
  {
    var folders := ScanFolders(scan);
    ScanFoldersMembers(scan);
    OfKindDistinct(scan, FOLDER);
    SortedDistinct(OfKind(scan, FOLDER), DepthOf());
    forall i | 0 <= i < |folders|
      ensures folders[i].ident.Inode? && folders[i].path != "" && folders[i].path[0] != '/'
    {
      assert folders[i] in folders;
    }
    forall j | 0 <= j < |folders| && !TopLevel(folders[j].path) ensures ParentBefore(folders, j) {
      ScanParentBefore(scan, j);
    }
  }

  lemma ScanFilesListed(scan: seq<Entry>)
    requires ValidScan(scan)
    ensures FileList(ScanFolders(scan), ScanFiles(scan))
    ensures forall e :: e in ScanFiles(scan) <==> e in scan && e.kind == FILE
  {
    var folders, files := ScanFolders(scan), ScanFiles(scan);
    ScanFoldersOrdered(scan);
    OfKindDistinct(scan, FILE);
    forall i, j | 0 <= i < |folders| && 0 <= j < |files| ensures !SameName(folders[i].path, files[j].path) {
      assert folders[i] in folders && files[j] in files;
      EntriesDiffer(scan, folders[i], files[j]);
    }
    forall j | 0 <= j < |files| ensures files[j].ident.Inode? && files[j].path != "" && files[j].path[0] != '/' {
      assert files[j] in files;
    }
    forall j | 0 <= j < |files| && !TopLevel(files[j].path) ensures ParentListed(folders, files[j].path) {
      assert files[j] in files && InFolder(scan, files[j].path);
      var f :| f in scan && f.kind == FOLDER && f.path == Parent(files[j].path);
      assert f in folders;
    }
  }

  /** Whatever path lies above a scanned folder is itself a folder visited earlier. */
  lemma {:induction false} AncestorEarlier(folders: seq<Entry>, j: nat, path: string)
    requires FolderOrder(folders) && j < |folders| && Below(path, folders[j].path)
    ensures exists i :: 0 <= i < j && SameName(folders[i].path, path)
    decreases j
  {
    BelowParent(path, folders[j].path);
    assert ParentBefore(folders, j);
    var i :| 0 <= i < j && folders[i].path == Parent(folders[j].path);
    if Below(path, folders[i].path) {
      AncestorEarlier(folders, i, path);
    }
  }

  lemma AncestorOfListed(folders: seq<Entry>, p: string, path: string)
    requires FolderOrder(folders) && (TopLevel(p) || ParentListed(folders, p)) && Below(path, p)
    ensures exists i :: 0 <= i < |folders| && SameName(folders[i].path, path)
  {
    BelowParent(path, p);
    var i :| 0 <= i < |folders| && folders[i].path == Parent(p);
    if Below(path, folders[i].path) {
      AncestorEarlier(folders, i, path);
    }
  }
}

/** The SMB reconciler of one repository as the service runs it: statements that change the
    tables one after another, transactions that roll back, and Maps kept beside the tables. */
module SmbRepository {
  import opened Wrappers
  import opened Text
  import opened Names
  import opened Sorting
  import opened Totals
  import opened QuotaLimits
  import opened SmbTables
  import opened SmbSync
  import opened SmbRows
  import opened SmbScan
  import opened SmbOrphans
  import opened SmbAgreement
  import opened SmbIndexes

  class Repository {
    var folders: map<nat, Folder>
    var files: map<nat, File>
    var rows: seq<Row>
    var nextId: nat
    const settings: Settings

    constructor (settings: Settings)
      ensures Valid() && Tables() == Db(map[], map[], [], 0) && this.settings == settings
    {
      folders, files, rows, nextId := map[], map[], [], 0;
      this.settings := settings;
    }

    function Tables(): Db
      reads this
    {
      Db(folders, files, rows, nextId)
    }

    ghost predicate Valid()
      reads this
    {
      Constraints(Tables())
    }

    // ----- names -----

    method UniqueDatabaseFolderName(
      parent: Option<nat>, desired: string, excluded: Option<nat>
    ) returns (r: Option<string>)
      ensures r == UniqueFolderName(folders, parent, desired, excluded)
    {
      r := FirstUnused(parent, NameBase(desired), excluded, SiblingNames(folders, parent, excluded));
    }

    method FirstUnused(
      parent: Option<nat>, base: string, excluded: Option<nat>, ghost taken: set<string>
    ) returns (r: Option<string>)
      requires taken == SiblingNames(folders, parent, excluded)
      ensures r == FirstFree(base, MAX_FOLDER_NAME_LENGTH, taken, 1)
    {
      hide SuffixName, SiblingNames, SameName;
      var index := 1;
      while index <= MAX_ATTEMPTS
        invariant 1 <= index <= MAX_ATTEMPTS + 1
        invariant FirstFree(base, MAX_FOLDER_NAME_LENGTH, taken, 1)
                  == FirstFree(base, MAX_FOLDER_NAME_LENGTH, taken, index)
      {
        var candidate := SuffixName(base, index, MAX_FOLDER_NAME_LENGTH);
        var duplicate := exists id :: id in folders && folders[id].parent == parent
                                      && Some(id) != excluded && SameName(folders[id].name, candidate);
        NameTakenBySibling(folders, parent, excluded, candidate);
        if !duplicate {
          return Some(candidate);
        }
        index := index + 1;
      }
      return None;
    }

    // ----- single objects -----

    /** Answers false where the tree query would not end. */
    method DeleteFolderObject(mapping: Row) returns (ok: bool)
      requires Valid()
      modifies this
      ensures Valid()
      ensures ok <==> SmbTables.DeleteFolderObject(old(Tables()), mapping).Some?
      ensures ok ==> Some(Tables()) == SmbTables.DeleteFolderObject(old(Tables()), mapping)
      ensures !ok ==> Tables() == old(Tables())
    {
      if OnCycle(folders, mapping.id) {
        return false;
      }
      DeleteFolderConstraints(Tables(), mapping);
      if mapping.id in folders {
        var gone := Cascade(folders, {mapping.id});
        folders := folders - gone;
        files := map id | id in files && !InFolders(files[id], gone) :: files[id];
      }
      rows := RemoveTree(rows, mapping.path);
      ghost var expected := SmbTables.DeleteFolderObject(old(Tables()), mapping).value;
      assert folders == expected.folders && files == expected.files;
      return true;
    }

    method DeleteFileObject(id: nat)
      requires Valid()
      modifies this
      ensures Valid() && Tables() == SmbTables.DeleteFileObject(old(Tables()), id)
    {
      DeleteFileConstraints(Tables(), id);
      if id in files {
        files := files - {id};
      }
      rows := RemoveKey(rows, FILE, id);
    }

    /** One UPDATE per descendant. */
    method RenameDescendants(descendants: seq<Row>, oldPath: string, nextPath: string) returns (ok: bool)
      requires Valid() && forall row :: row in descendants ==> Below(oldPath, row.path)
      modifies `rows
      ensures Valid()
      ensures RebaseRows(old(rows), descendants, oldPath, nextPath).Some? <==> ok
      ensures ok ==> RebaseRows(old(rows), descendants, oldPath, nextPath) == Some(rows)
    {
      ghost var before := rows;
      var i := 0;
      while i < |descendants|
        invariant 0 <= i <= |descendants|
        invariant Valid()
        invariant RebaseRows(before, descendants, oldPath, nextPath)
                 == RebaseRows(rows, descendants[i..], oldPath, nextPath)
      {
        var d := descendants[i];
        assert d in descendants && descendants[i..][0] == d && descendants[i..][1..] == descendants[i + 1..];
        var path := nextPath + d.path[|oldPath|..];
        var renamed := RenameRow(rows, d, path);
        if renamed.None? {
          return false;
        }
        RelocateConstraints(Tables(), d.kind, d.id, path, d.ident);
        rows := renamed.value;
        i := i + 1;
      }
      return true;
    }

    /** The folder's mapping and then its descendants; a statement that throws rolls all of
        them back. */
    method UpdateFolderMappingPrefix(mapping: Row, nextPath: string, ident: Identity) returns (ok: bool)
      requires Valid()
      modifies `rows
      ensures Valid()
      ensures MoveMappings(old(rows), mapping, nextPath, ident) == if ok then Some(rows) else None
      ensures !ok ==> rows == old(rows)
    {
      var descendants := Descendants(rows, mapping.path);
      SortMembers(RowsBelow(rows, mapping.path), PathLength());
      var before := rows;
      var relocated := Relocate(rows, FOLDER, mapping.id, nextPath, ident);
      if relocated.None? {
        return false;
      }
      RelocateConstraints(Tables(), FOLDER, mapping.id, nextPath, ident);
      rows := relocated.value;
      ok := RenameDescendants(descendants, mapping.path, nextPath);
      if !ok {
        rows := before;
      }
    }

    method MoveFolderFromSmb(mapping: Row, e: Entry) returns (ok: bool, moved: bool)
      requires Valid()
      modifies this
      ensures Valid()
      ensures SmbSync.MoveFolderFromSmb(old(Tables()), mapping, e) == if ok then Some(MoveResult(Tables(), moved))
               else None
      ensures !ok || !moved ==> Tables() == old(Tables())
    {
      hide LookupParent, UniqueFolderName, UpdateFolder, MoveMappings, BaseName, Constraints;
      var parent := LookupParent(rows, e.path);
      if parent.MissingParent? {
        return true, false;
      }
      var name := UniqueDatabaseFolderName(parent.folder, BaseName(e.path), Some(mapping.id));
      if name.None? {
        return false, false;
      }
      var before := folders;
      var updated := UpdateFolder(folders, mapping.id, parent.folder, name.value);
      if updated.None? {
        return false, false;
      }
      UpdateFolderConstraints(Tables(), mapping.id, parent.folder, name.value);
      folders := updated.value;
      ok := UpdateFolderMappingPrefix(mapping, e.path, e.ident);
      if !ok {
        folders := before;
      }
      moved := ok;
    }

    // ----- one scanned folder -----

    /** The folder is still the mapped inode: its parent, name and path are brought up to date. */
    method KeepFolder(mapping: Row, e: Entry, ghost p: Progress) returns (ok: bool, kept: bool, ghost q: Progress)
      requires Valid() && p.db == Tables()
      modifies this
      ensures Valid()
      ensures SmbSync.KeepFolder(p, mapping, e) == if ok then Some(q) else None
      ensures ok ==> q.db == Tables() && q.seen == p.seen + if kept then {mapping.id} else {}
      ensures ok && kept ==> Relocate(old(rows), FOLDER, mapping.id, e.path, e.ident) == Some(rows)
      ensures ok && !kept ==> rows == old(rows)
    {
      hide LookupParent, UniqueFolderName, BaseName, Relocate, Constraints;
      q := p;
      var parent := LookupParent(rows, e.path);
      if parent.MissingParent? {
        return true, false, p;
      }
      var name := UniqueDatabaseFolderName(parent.folder, BaseName(e.path), Some(mapping.id));
      if name.None? {
        return false, false, p;
      }
      var updated := UpdateFolder(folders, mapping.id, parent.folder, name.value);
      var relocated := Relocate(rows, FOLDER, mapping.id, e.path, e.ident);
      if updated.None? || relocated.None? {
        return false, false, p;
      }
      RelocateConstraints(Tables(), FOLDER, mapping.id, e.path, e.ident);
      UpdateFolderConstraints(Tables().(rows := relocated.value), mapping.id, parent.folder, name.value);
      q := Progress(p.db.(folders := updated.value, rows := relocated.value), p.seen + {mapping.id},
                    p.clean, p.hits && mapping.id in folders);
      folders, rows := updated.value, relocated.value;
      return true, true, q;
    }

    /** The folder and its mapping, in one transaction. */
    method InsertFolder(parent: Option<nat>, name: string, e: Entry) returns (id: nat)
      requires Valid() && RowAt(rows, e.path).None?
      modifies this
      ensures Valid() && id == old(nextId)
      ensures Tables() == SmbSync.InsertFolder(old(Tables()), parent, name, e)
    {
      id := nextId;
      var row := Row(FOLDER, id, e.path, e.ident);
      AppendConstraints(Tables(), row, SmbSync.InsertFolder(Tables(), parent, name, e));
      folders := folders[id := Folder(parent, name)];
      rows := rows + [row];
      nextId := id + 1;
    }

    /** A new folder and its mapping; id stays None where nothing was made. */
    method CreateSmbFolderRecord(e: Entry, ghost p: Progress) returns (ok: bool, id: Option<nat>, ghost q: Progress)
      requires Valid() && p.db == Tables()
      modifies this
      ensures Valid()
      ensures SmbSync.CreateFolder(p, settings, e) == if ok then Some(q) else None
      ensures ok ==> q.db == Tables() && q.seen == p.seen + if id.Some? then {id.value} else {}
    {
      ok, id, q := true, None, p;
      var parent := LookupParent(rows, e.path);
      if parent.MissingParent? {
        return;
      }
      if |folders| >= settings.maxFolders {
        q := p.(clean := false);
        return;
      }
      var name := UniqueDatabaseFolderName(parent.folder, BaseName(e.path), None);
      if name.None? || !ParentExists(folders, parent.folder) {
        ok := false;
        return;
      }
      if NameTaken(folders, nextId, parent.folder, name.value) || RowAt(rows, e.path).Some? {
        q := p.(clean := false);
        return;
      }
      var created := InsertFolder(parent.folder, name.value, e);
      id := Some(created);
      q := p.(db := Tables(), seen := p.seen + {created});
    }

    /** What held the path makes way. */
    method ClearPath(mapping: Option<Row>) returns (ok: bool)
      requires Valid()
      modifies this
      ensures Valid()
      ensures SmbSync.ClearPath(old(Tables()), mapping) == if ok then Some(Tables()) else None
    {
      if mapping.None? {
        return true;
      }
      if mapping.value.kind == FOLDER {
        ok := DeleteFolderObject(mapping.value);
      } else {
        DeleteFileObject(mapping.value.id);
        ok := true;
      }
    }

    // ----- the folder loops -----

    /** One scanned folder that is mapped elsewhere by its inode. */
    method ApplyFolderMove(mapping: Row, scan: seq<Entry>, k: nat, ghost stable: set<nat>, ghost nested: bool)
      returns (ok: bool, moved: bool, ghost more: bool)
      requires Valid() && k < |scan|
      requires LastWithIdentity(rows, FOLDER, scan[k].ident) == Some(mapping)
      requires WantsMove(Some(mapping), stable, scan[k])
      modifies this
      ensures Valid()
      ensures MoveFolders(old(Tables()), stable, scan, k, nested)
              == if ok then MoveFolders(Tables(), stable, scan, k + 1, more) else None
      ensures ok && !moved ==> rows == old(rows)
    {
      ok, moved := MoveFolderFromSmb(mapping, scan[k]);
      more := nested || (moved && Below(mapping.path, scan[k].path));
    }

    /** Folders recognised by their inode at another path, in visiting order. */
    method ApplyFolderMoves(stable: set<nat>, scan: seq<Entry>) returns (ok: bool, ghost nested: bool)
      requires Valid()
      modifies this
      ensures Valid()
      ensures MoveFolders(old(Tables()), stable, scan, 0, false) == if ok then Some(FolderMoves(Tables(), nested))
               else None
    {
      hide MoveFolders, Constraints, LastWithIdentity;
      var folderByIdentity := ByIdentity(rows, FOLDER);
      nested := false;
      ghost var start := MoveFolders(Tables(), stable, scan, 0, false);
      var k := 0;
      while k < |scan|
        invariant 0 <= k <= |scan| && Valid()
        invariant folderByIdentity == ByIdentity(rows, FOLDER)
        invariant start == MoveFolders(Tables(), stable, scan, k, nested)
      {
        var mapping := At(folderByIdentity, scan[k].ident);
        if WantsMove(mapping, stable, scan[k]) {
          var moved;
          ok, moved, nested := ApplyFolderMove(mapping.value, scan, k, stable, nested);
          if !ok {
            return;
          }
          if moved {
            folderByIdentity := ByIdentity(rows, FOLDER);
          }
        } else {
          FolderStays(Tables(), stable, scan, k, nested);
        }
        k := k + 1;
      }
      FolderMovesEnd(Tables(), stable, scan, nested);
      ok := true;
    }

    /** One scanned folder, given what the index holds at its path; the caller learns whether
        the index must be rebuilt. */
    method SyncFolder(mapping: Option<Row>, e: Entry, ghost p: Progress)
      returns (ok: bool, id: Option<nat>, stale: bool, ghost q: Progress)
      requires Valid() && p.db == Tables()
      requires HeldAs(mapping, RowAt(rows, e.path))
      modifies this
      ensures Valid()
      ensures ReconcileFolder(p, settings, e) == if ok then Some(q) else None
      ensures ok ==> q.db == Tables() && q.seen == p.seen + if id.Some? then {id.value} else {}
      ensures ok && !stale ==>
                rows == old(rows)
                || (RowAt(old(rows), e.path).Some? &&
                    var row := RowAt(old(rows), e.path).value;
                    Relocate(old(rows), row.kind, row.id, e.path, e.ident) == Some(rows))
    {
      hide Constraints, SmbSync.CreateFolder, Relocate, UpdateFolder, UniqueFolderName, LookupParent;
      if mapping.Some? && mapping.value.kind == FOLDER && SameIdentity(mapping.value.ident, e.ident) {
        var kept;
        ok, kept, q := KeepFolder(mapping.value, e, p);
        id := if kept then Some(mapping.value.id) else None;
        stale := false;
      } else {
        if mapping.Some? {
          DeleteSameMapping(Tables(), mapping.value, RowAt(rows, e.path).value);
        }
        ok := ClearPath(mapping);
        id, stale, q := None, true, p;
        if ok {
          ok, id, q := CreateSmbFolderRecord(e, p.(db := Tables()));
        }
      }
    }

    method SyncFolders(scan: seq<Entry>) returns (ok: bool, seen: set<nat>, ghost q: Progress)
      requires Valid() && PathsDistinct(scan)
      modifies this
      ensures Valid()
      ensures ReconcileFolders(Progress(old(Tables()), {}, true, true), settings, scan, 0) == if ok then Some(q)
               else None
      ensures ok ==> q.db == Tables() && q.seen == seen
    {
      hide UniqueRows, Distinct, ReconcileFolder, Relocate, RowAt, PathsDistinct;
      var mappingByPath := ByPath(rows);
      FreshIndexFrom(rows, scan, 0);
      seen := {};
      q := Progress(Tables(), {}, true, true);
      ghost var start := ReconcileFolders(q, settings, scan, 0);
      var k := 0;
      while k < |scan|
        invariant 0 <= k <= |scan| && Valid()
        invariant q.db == Tables() && q.seen == seen
        invariant TrustedFrom(mappingByPath, rows, scan, k)
        invariant start == ReconcileFolders(q, settings, scan, k)
      {
        var e := scan[k];
        ghost var before := rows;
        assert Trusted(mappingByPath, rows, e.path);
        var id, stale;
        ok, id, stale, q := SyncFolder(At(mappingByPath, Lower(e.path)), e, q);
        if !ok {
          return;
        }
        if id.Some? {
          seen := seen + {id.value};
        }
        if stale {
          mappingByPath := ByPath(rows);
          FreshIndexFrom(rows, scan, k + 1);
        } else if rows != before {
          IndexAfterUpdate(mappingByPath, before, scan, k, RowAt(before, e.path).value, e.ident);
        }
        k := k + 1;
      }
      ok := true;
    }

    // ----- files -----

    /** The bytes of all recorded files. */
    method RecordedBytes() returns (size: nat)
      ensures size == RepositoryUsage(files).size
    {
      size := 0;
      var rest := files;
      while rest != map[]
        invariant rest.Keys <= files.Keys && size + Total(rest, SizeOf()) == Total(files, SizeOf())
        decreases |rest|
      {
        var id :| id in rest;
        TotalWithout(rest, SizeOf(), id);
        size := size + rest[id].size;
        rest := rest - {id};
      }
    }

    method EnforceSmbFileQuota(nextSize: nat, replacedSize: nat, addsFile: bool) returns (broken: Option<Quota>)
      ensures broken == EnforceQuota(Tables(), settings, nextSize, replacedSize, addsFile)
    {
      var size := RecordedBytes();
      var here := Usage(|files|, size);
      var everywhere := Usage(here.count + settings.elsewhere.count, here.size + settings.elsewhere.size);
      broken := QuotaLimits.EnforceSmbFileQuota(settings.limits, here, everywhere, nextSize, replacedSize, addsFile);
    }

    /** UPDATE files and UPDATE repository_smb_entries of one file, both or neither. */
    method UpdateFileAndMapping(
      id: nat, updated: Option<map<nat, File>>, path: string, ident: Identity
    ) returns (ok: bool)
      requires Valid() && (updated.Some? ==> updated.value.Keys == files.Keys)
      modifies this
      ensures Valid()
      ensures ok <==> updated.Some? && Relocate(old(rows), FILE, id, path, ident).Some?
      ensures ok ==> Some(files) == updated && Some(rows) == Relocate(old(rows), FILE, id, path, ident)
      ensures !ok ==> Tables() == old(Tables())
      ensures folders == old(folders) && nextId == old(nextId)
    {
      var relocated := Relocate(rows, FILE, id, path, ident);
      if updated.None? || relocated.None? {
        return false;
      }
      RelocateConstraints(Tables(), FILE, id, path, ident);
      files := updated.value;
      rows := relocated.value;
      ok := true;
    }

    /** The scanned file is truncated where the quota rejects its growth; size is what remains. */
    method MoveFileFromSmb(mapping: Row, e: Entry) returns (ok: bool, moved: bool, size: nat, ghost clean: bool)
      requires Valid()
      modifies this
      ensures Valid()
      ensures SmbSync.MoveFileFromSmb(old(Tables()), settings, mapping, e)
              == if ok then Some(FileMove(Tables(), moved, size, clean)) else None
      ensures ok && !moved ==> rows == old(rows) && size == e.size && clean
    {
      ok, moved, size, clean := true, false, e.size, true;
      var parent := LookupParent(rows, e.path);
      if parent.MissingParent? || mapping.id !in files {
        return;
      }
      var file := files[mapping.id];
      if e.size > file.size {
        var broken := EnforceSmbFileQuota(e.size, file.size, false);
        if broken.Some? {
          size := file.size;
          clean := false;
        }
      }
      var updated := UpdateFile(Tables(), mapping.id, parent.folder, BaseName(e.path), size, file.stored);
      ok := UpdateFileAndMapping(mapping.id, updated, e.path, e.ident);
      moved := true;
    }

    /** The new inode replaces the stored one, or, where the quota rejects it, the stored one
        is linked back. */
    method ReplaceMappedFile(
      mapping: Row, e: Entry, file: File, ghost p: Progress
    ) returns (ok: bool, ghost q: Progress)
      requires Valid() && p.db == Tables()
      modifies this
      ensures Valid()
      ensures SmbSync.ReplaceMappedFile(p, settings, mapping, e, file) == if ok then Some(q) else None
      ensures ok ==> q.db == Tables() && q.seen == p.seen + {mapping.id}
      ensures ok ==> exists ident :: Relocate(old(rows), FILE, mapping.id, e.path, ident) == Some(rows)
    {
      var broken := EnforceSmbFileQuota(e.size, file.size, false);
      if broken.Some? {
        ok := UpdateFileAndMapping(mapping.id, Some(files), e.path, file.stored);
        q := p.(db := Tables(), seen := p.seen + {mapping.id}, clean := false);
      } else {
        var updated := UpdateFile(Tables(), mapping.id, FolderOfFile(rows, e.path), BaseName(e.path), e.size, e.ident);
        ok := UpdateFileAndMapping(mapping.id, updated, e.path, e.ident);
        q := p.(db := Tables(), seen := p.seen + {mapping.id});
      }
    }

    /** The file is still the mapped inode. */
    method KeepFile(mapping: Row, e: Entry, file: File, ghost p: Progress) returns (ok: bool, ghost q: Progress)
      requires Valid() && p.db == Tables()
      modifies this
      ensures Valid()
      ensures SmbSync.KeepFile(p, settings, mapping, e, file) == if ok then Some(q) else None
      ensures ok ==> q.db == Tables() && q.seen == p.seen + {mapping.id}
      ensures ok ==> exists ident :: Relocate(old(rows), FILE, mapping.id, e.path, ident) == Some(rows)
    {
      hide Relocate, Constraints, EnforceQuota, FolderOfFile;
      var broken := None;
      if e.size > file.size {
        broken := EnforceSmbFileQuota(e.size, file.size, false);
      }
      if broken.Some? {
        ok := UpdateFileAndMapping(mapping.id, Some(files), e.path, e.ident);
      } else {
        var updated := UpdateFile(Tables(), mapping.id, FolderOfFile(rows, e.path), BaseName(e.path), e.size,
                                  file.stored);
        ok := UpdateFileAndMapping(mapping.id, updated, e.path, e.ident);
      }
      q := p.(db := Tables(), seen := p.seen + {mapping.id}, clean := p.clean && broken.None?);
    }

    method ImportSmbFile(e: Entry, ghost p: Progress)
      returns (ok: bool, id: Option<nat>, rejected: bool, ghost q: Progress)
      requires Valid() && p.db == Tables()
      modifies this
      ensures Valid()
      ensures SmbSync.ImportSmbFile(p, settings, e) == if ok then Some(q) else None
      ensures ok ==> q.db == Tables() && q.seen == p.seen + if id.Some? then {id.value} else {}
      ensures rejected ==> ok && id.None? && rows == old(rows)
    {
      ok, id, rejected, q := true, None, false, p;
      var parent := LookupParent(rows, e.path);
      if parent.MissingParent? {
        return;
      }
      var broken := EnforceSmbFileQuota(e.size, 0, true);
      if broken.Some? {
        rejected := true;
        q := p.(clean := false);
        return;
      }
      if !ParentExists(folders, parent.folder) || RowAt(rows, e.path).Some? {
        ok := false;
        return;
      }
      var created := InsertFile(parent.folder, e);
      id := Some(created);
      q := p.(db := Tables(), seen := p.seen + {created});
    }

    /** The file and its mapping, in one transaction. */
    method InsertFile(folder: Option<nat>, e: Entry) returns (id: nat)
      requires Valid() && RowAt(rows, e.path).None?
      modifies this
      ensures Valid() && id == old(nextId)
      ensures Tables() == SmbSync.InsertFile(old(Tables()), folder, e)
    {
      id := nextId;
      var row := Row(FILE, id, e.path, e.ident);
      AppendConstraints(Tables(), row, SmbSync.InsertFile(Tables(), folder, e));
      files := files[id := File(folder, BaseName(e.path), e.size, e.ident)];
      rows := rows + [row];
      nextId := id + 1;
    }

    // ----- the file loops -----

    /** One scanned file that is mapped elsewhere by its inode. */
    method ApplyFileMove(mapping: Row, e: Entry, ghost k: nat, ghost stable: set<nat>, ghost m: FileMoves)
      returns (ok: bool, moved: bool, size: nat, ghost clean: bool)
      requires Valid() && m.db == Tables() && k < |m.scan| && e == m.scan[k]
      requires LastWithIdentity(rows, FILE, m.scan[k].ident) == Some(mapping)
      requires WantsMove(Some(mapping), stable, m.scan[k])
      modifies this
      ensures Valid()
      ensures MoveFiles(m, settings, stable, k)
              == if ok then MoveFiles(FileMoves(Tables(), m.scan[k := m.scan[k].(size := size)], clean), settings,
                                      stable, k + 1)
                 else None
      ensures ok && !moved ==> rows == old(rows)
    {
      ghost var unharmed;
      ok, moved, size, unharmed := MoveFileFromSmb(mapping, e);
      clean := m.clean && unharmed;
    }

    method ApplyFileMoves(
      stable: set<nat>, scan: seq<Entry>, ghost clean: bool
    ) returns (ok: bool, kept: seq<Entry>, ghost still: bool)
      requires Valid()
      modifies this
      ensures Valid()
      ensures MoveFiles(FileMoves(old(Tables()), scan, clean), settings, stable, 0)
              == if ok then Some(FileMoves(Tables(), kept, still)) else None
      ensures ResizedOnly(scan, kept)
    {
      hide MoveFiles;
      var fileByIdentity := ByIdentity(rows, FILE);
      kept, still := scan, clean;
      ghost var start := MoveFiles(FileMoves(Tables(), scan, clean), settings, stable, 0);
      var k := 0;
      while k < |kept|
        invariant 0 <= k <= |kept| && Valid()
        invariant fileByIdentity == ByIdentity(rows, FILE)
        invariant start == MoveFiles(FileMoves(Tables(), kept, still), settings, stable, k)
        invariant ResizedOnly(scan, kept)
      {
        var mapping := At(fileByIdentity, kept[k].ident);
        if WantsMove(mapping, stable, kept[k]) {
          var moved, size;
          ok, moved, size, still := ApplyFileMove(mapping.value, kept[k], k, stable, FileMoves(Tables(), kept, still));
          if !ok {
            return;
          }
          Resize(scan, kept, k, size);
          kept := kept[k := kept[k].(size := size)];
          if moved {
            fileByIdentity := ByIdentity(rows, FILE);
          }
        } else {
          FileStays(FileMoves(Tables(), kept, still), settings, stable, k);
        }
        k := k + 1;
      }
      FileMovesEnd(FileMoves(Tables(), kept, still), settings, stable);
      ok := true;
    }

    /** One scanned file, given what the index holds at its path. */
    method SyncFile(mapping: Option<Row>, e: Entry, known: map<nat, File>, ghost p: Progress)
      returns (ok: bool, id: Option<nat>, stale: bool, ghost q: Progress)
      requires Valid() && p.db == Tables()
      requires HeldAs(mapping, RowAt(rows, e.path))
      modifies this
      ensures Valid()
      ensures ReconcileFile(p, settings, known, e) == if ok then Some(q) else None
      ensures ok ==> q.db == Tables() && q.seen == p.seen + if id.Some? then {id.value} else {}
      ensures ok && !stale ==> OnlyHere(old(rows), rows, e.path)
    {
      hide SmbSync.KeepFile, SmbSync.ReplaceMappedFile, Constraints, EnforceQuota, UpdateFile, Cascade, OnCycle;
      if mapping.Some? && mapping.value.kind == FILE {
        ok, id, q := SyncMappedFile(mapping.value, e, known, p);
        stale := false;
      } else {
        if mapping.Some? {
          DeleteSameMapping(Tables(), mapping.value, RowAt(rows, e.path).value);
          RemoveTreeSameName(rows, mapping.value.path, RowAt(rows, e.path).value.path);
        }
        id, stale, q := None, true, p;
        ok := ClearPath(mapping);
        if ok {
          var rejected;
          ok, id, rejected, q := ImportSmbFile(e, p.(db := Tables()));
          stale := !rejected;
        }
      }
    }

    method SyncMappedFile(mapping: Row, e: Entry, known: map<nat, File>, ghost p: Progress)
      returns (ok: bool, id: Option<nat>, ghost q: Progress)
      requires Valid() && p.db == Tables() && mapping.kind == FILE
      requires RowAt(rows, e.path).Some? && SameMapping(mapping, RowAt(rows, e.path).value)
      modifies this
      ensures Valid()
      ensures ReconcileFile(p, settings, known, e) == if ok then Some(q) else None
      ensures ok ==> q.db == Tables() && q.seen == p.seen + if id.Some? then {id.value} else {}
      ensures ok ==> OnlyHere(old(rows), rows, e.path)
    {
      ok, id, q := true, None, p;
      if mapping.id !in known && mapping.id !in files {
        return;
      }
      var file := if mapping.id in known then known[mapping.id] else files[mapping.id];
      KeepSameMapping(p, settings, mapping, RowAt(rows, e.path).value, e, file);
      if SameIdentity(mapping.ident, e.ident) {
        ok, q := KeepFile(mapping, e, file, p);
      } else {
        ok, q := ReplaceMappedFile(mapping, e, file, p);
      }
      id := Some(mapping.id);
    }

    method SyncFiles(scan: seq<Entry>, ghost start: Progress, ghost scanFolders: seq<Entry>)
      returns (ok: bool, seen: set<nat>, ghost q: Progress)
      requires Valid() && FolderOrder(scanFolders) && FileList(scanFolders, scan)
      requires start.db == Tables() && start.seen == {}
      modifies this
      ensures Valid()
      ensures ReconcileFiles(start, settings, old(files), scan, 0) == if ok then Some(q) else None
      ensures ok ==> q.db == Tables() && q.seen == seen
    {
      hide ReconcileFiles;
      var known := files;
      var mappingByPath := ByPath(rows);
      FreshIndexFrom(rows, scan, 0);
      seen := {};
      q := start;
      var k := 0;
      while k < |scan|
        invariant 0 <= k <= |scan| && Valid()
        invariant q.db == Tables() && q.seen == seen
        invariant TrustedFrom(mappingByPath, rows, scan, k)
        invariant ReconcileFiles(start, settings, known, scan, 0) == ReconcileFiles(q, settings, known, scan, k)
      {
        ghost var before, p := rows, q;
        assert Trusted(mappingByPath, rows, scan[k].path);
        var id, stale;
        ok, id, stale, q := SyncFile(At(mappingByPath, Lower(scan[k].path)), scan[k], known, p);
        NextFile(p, settings, known, scan, k, if ok then Some(q) else None);
        if !ok {
          return;
        }
        if id.Some? {
          seen := seen + {id.value};
        }
        if stale {
          mappingByPath := ByPath(rows);
          FreshIndexFrom(rows, scan, k + 1);
        } else {
          NothingBelowFile(scanFolders, scan, k);
          IndexStillTrusted(mappingByPath, before, rows, scan, k);
        }
        k := k + 1;
      }
      FilesEnd(q, settings, known, scan);
      ok := true;
    }

    // ----- what the scan no longer holds -----

    method DropUnseenFiles(seen: set<nat>)
      requires Valid()
      modifies this
      ensures Valid()
      ensures Tables() == DropFiles(old(Tables()), RowsOfKind(old(rows), FILE), seen)
    {
      var pending := RowsOfKind(rows, FILE);
      var i := 0;
      while i < |pending|
        invariant 0 <= i <= |pending| && Valid()
        invariant DropFiles(Tables(), pending[i..], seen) == DropFiles(old(Tables()), pending, seen)
      {
        assert pending[i..][1..] == pending[i + 1..];
        if pending[i].id !in seen {
          DeleteFileObject(pending[i].id);
        }
        i := i + 1;
      }
    }

    /** Deepest paths first. */
    method DropUnseenFolders(seen: set<nat>) returns (ok: bool)
      requires Valid()
      modifies this
      ensures Valid()
      ensures DropFolders(old(Tables()), Sort(RowsOfKind(old(rows), FOLDER), ShallownessOf()), seen)
              == if ok then Some(Tables()) else None
    {
      var pending := Sort(RowsOfKind(rows, FOLDER), ShallownessOf());
      var i := 0;
      while i < |pending|
        invariant 0 <= i <= |pending| && Valid()
        invariant DropFolders(Tables(), pending[i..], seen) == DropFolders(old(Tables()), pending, seen)
      {
        assert pending[i..][1..] == pending[i + 1..];
        if pending[i].id !in seen {
          ok := DeleteFolderObject(pending[i]);
          if !ok {
            return;
          }
        }
        i := i + 1;
      }
      ok := true;
    }

    // ----- the pass -----

    /** Answers false where the service throws or does not return. */
    method SyncProjectionToDatabase(scan: seq<Entry>) returns (ok: bool, ghost pass: Pass)
      requires Valid() && ValidScan(scan)
      modifies this
      ensures Valid()
      ensures SyncProjection(old(Tables()), settings, scan) == if ok then Some(pass) else None
      ensures ok ==> pass.db == Tables()
      ensures ok && pass.clean && Consistent(old(Tables())) ==>
                (Agreement(Tables(), scan) <==> !OrphansFolder(old(Tables()), scan))
    {
      hide MoveFolders, ReconcileFolders, MoveFiles, ReconcileFiles, DropFiles, DropFolders, ScanFolders, ScanFiles,
           StableMappings, Agreement, OrphansFolder, Consistent, Constraints, ValidScan, FileList;
      var scanFolders, scanFiles := ScanFolders(scan), ScanFiles(scan);
      FolderOrderDistinct(scanFolders);
      ScanFoldersOrdered(scan);
      ScanFilesListed(scan);
      pass := Pass(Tables(), true, true, false);
      ghost var nested, still;
      ghost var p, q: Progress;
      var stable := StableOf(rows, scanFolders, FOLDER);
      ok, nested := ApplyFolderMoves(stable, scanFolders);
      if !ok {
        return;
      }
      var seenFolders, seenFiles;
      ok, seenFolders, p := SyncFolders(scanFolders);
      if !ok {
        return;
      }
      stable := StableOf(rows, scanFiles, FILE);
      ok, scanFiles, still := ApplyFileMoves(stable, scanFiles, p.clean);
      if !ok {
        return;
      }
      ResizedListed(scanFolders, ScanFiles(scan), scanFiles);
      ok, seenFiles, q := SyncFiles(scanFiles, Progress(Tables(), {}, still, p.hits), scanFolders);
      if !ok {
        return;
      }
      DropUnseenFiles(seenFiles);
      ok := DropUnseenFolders(seenFolders);
      if !ok {
        return;
      }
      pass := Pass(Tables(), q.clean, p.hits, nested);
      if pass.clean && Consistent(old(Tables())) {
        CleanPassAgrees(old(Tables()), settings, scan);
      }
    }
  }

  // ----- steps of the loops -----

  lemma KeepSameMapping(p: Progress, settings: Settings, mapping: Row, row: Row, e: Entry, file: File)
    requires SameMapping(mapping, row)
    ensures SmbSync.KeepFile(p, settings, mapping, e, file) == SmbSync.KeepFile(p, settings, row, e, file)
    ensures SmbSync.ReplaceMappedFile(p, settings, mapping, e, file)
             == SmbSync.ReplaceMappedFile(p, settings, row, e, file)
  {}

  lemma NextFile(
    p: Progress, settings: Settings, known: map<nat, File>, scan: seq<Entry>, k: nat, next: Option<Progress>
  )
    requires k < |scan| && ReconcileFile(p, settings, known, scan[k]) == next
    ensures ReconcileFiles(p, settings, known, scan, k)
            == if next.None? then None else ReconcileFiles(next.value, settings, known, scan, k + 1)
  {}

  lemma FilesEnd(p: Progress, settings: Settings, known: map<nat, File>, scan: seq<Entry>)
    ensures ReconcileFiles(p, settings, known, scan, |scan|) == Some(p)
  {}

  lemma FolderOrderDistinct(folders: seq<Entry>)
    ensures FolderOrder(folders) ==> PathsDistinct(folders)
  {}

  lemma ResizedListed(folders: seq<Entry>, scan: seq<Entry>, kept: seq<Entry>)
    requires FileList(folders, scan) && ResizedOnly(scan, kept)
    ensures FileList(folders, kept)
  {}

  lemma FolderStays(db: Db, stable: set<nat>, scan: seq<Entry>, k: nat, nested: bool)
    requires k < |scan| && !WantsMove(LastWithIdentity(db.rows, FOLDER, scan[k].ident), stable, scan[k])
    ensures MoveFolders(db, stable, scan, k, nested) == MoveFolders(db, stable, scan, k + 1, nested)
  {}

  lemma FolderMovesEnd(db: Db, stable: set<nat>, scan: seq<Entry>, nested: bool)
    ensures MoveFolders(db, stable, scan, |scan|, nested) == Some(FolderMoves(db, nested))
  {}

  lemma FileStays(m: FileMoves, settings: Settings, stable: set<nat>, k: nat)
    requires k < |m.scan| && !WantsMove(LastWithIdentity(m.db.rows, FILE, m.scan[k].ident), stable, m.scan[k])
    ensures MoveFiles(m, settings, stable, k) == MoveFiles(m, settings, stable, k + 1)
  {}

  lemma FileMovesEnd(m: FileMoves, settings: Settings, stable: set<nat>)
    ensures MoveFiles(m, settings, stable, |m.scan|) == Some(m)
  {}

  lemma NameTakenBySibling(folders: map<nat, Folder>, parent: Option<nat>, excluded: Option<nat>, name: string)
    ensures Lower(name) in SiblingNames(folders, parent, excluded) <==>
            exists id :: id in folders && folders[id].parent == parent && Some(id) != excluded
                && SameName(folders[id].name, name)
  {}

  /** Rejected growth truncates scanned files and changes nothing else about them. */
  ghost predicate ResizedOnly(scan: seq<Entry>, kept: seq<Entry>) {
    |kept| == |scan| && forall j :: 0 <= j < |scan| ==> kept[j] == scan[j].(size := kept[j].size)
  }

  lemma Resize(scan: seq<Entry>, kept: seq<Entry>, k: nat, size: nat)
    requires ResizedOnly(scan, kept) && k < |kept|
    ensures ResizedOnly(scan, kept[k := kept[k].(size := size)])
  {}

  /** Objects whose mapped path still holds the mapped inode. */
  method StableOf(rows: seq<Row>, scan: seq<Entry>, kind: Kind) returns (stable: set<nat>)
    ensures stable == StableMappings(rows, scan, kind)
  {
    stable := {};
    var i := 0;
    while i < |rows|
      invariant 0 <= i <= |rows|
      invariant stable == StableMappings(rows[..i], scan, kind)
    {
      if rows[i].kind == kind && IsStable(rows[i], scan) {
        stable := stable + {rows[i].id};
      }
      assert rows[..i + 1] == rows[..i] + [rows[i]];
      i := i + 1;
    }
    assert rows[..i] == rows;
  }
}

/** Choosing the projected path of a database object (src/smb-sync-service.js). */
module SmbAllocation {
  import opened Wrappers
  import opened Text
  import opened Names
  import opened SmbTables

  /** path.posix.join of a normalized parent and one component. */
  function Join(parent: string, name: string): string {
    if parent == "" then name else parent + "/" + name
  }

  /** The mapping that may keep its own path. */
  predicate IsExcluded(row: Row, excluded: Option<Row>) {
    excluded.Some? && row.kind == excluded.value.kind && row.id == excluded.value.id
  }

  predicate MappingConflict(rows: seq<Row>, candidate: string, excluded: Option<Row>) {
    var row := RowAt(rows, candidate);
    row.Some? && !IsExcluded(row.value, excluded)
  }

  /** A directory entry of that name, other than the one at the current path. */
  predicate DiskNameConflict(children: set<string>, parent: string, name: string, current: string) {
    exists child :: child in children && SameName(child, name) && !SameName(Join(parent, child), current)
  }

  function CurrentPath(excluded: Option<Row>): string {
    if excluded.Some? then excluded.value.path else ""
  }

  predicate Conflicts(rows: seq<Row>, children: set<string>, parent: string, name: string, excluded: Option<Row>) {
    || MappingConflict(rows, Join(parent, name), excluded)
    || DiskNameConflict(children, parent, name, CurrentPath(excluded))
  }

  // ----- the names that are taken -----

  predicate DirectlyIn(parent: string, path: string) {
    && |Join(parent, "")| <= |path|
    && SameName(path[..|Join(parent, "")|], Join(parent, ""))
  }

  ghost function MappedNames(rows: seq<Row>, parent: string, excluded: Option<Row>): set<string> {
    set row | row in rows && !IsExcluded(row, excluded) && DirectlyIn(parent, row.path)
      :: Lower(row.path[|Join(parent, "")|..])
  }

  ghost function DiskNames(children: set<string>, parent: string, current: string): set<string> {
    set child | child in children && !SameName(Join(parent, child), current) :: Lower(child)
  }

  ghost function TakenNames(rows: seq<Row>, children: set<string>, parent: string, excluded: Option<Row>): set<string> {
    MappedNames(rows, parent, excluded) + DiskNames(children, parent, CurrentPath(excluded))
  }

  /** Those of the names tried that conflict with a mapping or a directory entry. */
  ghost function TakenCandidates(
    rows: seq<Row>, children: set<string>, parent: string, name: string, excluded: Option<Row>
  ): set<string> {
    Conflicting(name, MAX_COMPONENT_LENGTH, TakenNames(rows, children, parent, excluded))
  }

  lemma SameJoined(parent: string, name: string, path: string)
    ensures SameName(path, Join(parent, name)) <==>
            DirectlyIn(parent, path) && Lower(path[|Join(parent, "")|..]) == Lower(name)
  {
    var prefix := Join(parent, "");
    assert Join(parent, name) == prefix + name;
    LowerConcat(prefix, name);
    if |prefix| <= |path| {
      assert path == path[..|prefix|] + path[|prefix|..];
      LowerConcat(path[..|prefix|], path[|prefix|..]);
      assert |Lower(path[..|prefix|])| == |Lower(prefix)|;
      if SameName(path, prefix + name) {
        assert Lower(path)[..|prefix|] == Lower(path[..|prefix|]);
        assert Lower(prefix + name)[..|prefix|] == Lower(prefix);
        assert Lower(path)[|prefix|..] == Lower(path[|prefix|..]);
        assert Lower(prefix + name)[|prefix|..] == Lower(name);
      }
    } else {
      assert |Lower(path)| < |Lower(prefix + name)|;
    }
  }

  lemma ConflictIsTaken(rows: seq<Row>, children: set<string>, parent: string, name: string, excluded: Option<Row>)
    requires UniqueRows(rows)
    ensures Conflicts(rows, children, parent, name, excluded) <==>
             Lower(name) in TakenNames(rows, children, parent, excluded)
  {
    MappingConflictIsTaken(rows, parent, name, excluded);
  }

  lemma MappingConflictIsTaken(rows: seq<Row>, parent: string, name: string, excluded: Option<Row>)
    requires UniqueRows(rows)
    ensures MappingConflict(rows, Join(parent, name), excluded) <==> Lower(name) in MappedNames(rows, parent, excluded)
  {
    hide Join;
    if MappingConflict(rows, Join(parent, name), excluded) {
      SameJoined(parent, name, RowAt(rows, Join(parent, name)).value.path);
    }
    if Lower(name) in MappedNames(rows, parent, excluded) {
      var row :| row in rows && !IsExcluded(row, excluded) && DirectlyIn(parent, row.path)
                 && Lower(row.path[|Join(parent, "")|..]) == Lower(name);
      SameJoined(parent, name, row.path);
      RowAtIs(rows, Join(parent, name), row);
    }
  }

  /** The first of name, "name (2)", ... in the parent directory that no other mapping and no
      other directory entry has. */
  method AllocateRelativePath(
    rows: seq<Row>, children: set<string>, parent: string, name: string, excluded: Option<Row>
  )
    returns (r: Option<string>)
    requires UniqueRows(rows)
    ensures r.Some? ==>
             exists i :: 1 <= i <= MAX_ATTEMPTS && Allocated(rows, children, parent, name, excluded, i, r.value)
    ensures r.None? ==> forall i :: 1 <= i <= MAX_ATTEMPTS ==>
              Conflicts(rows, children, parent, SuffixName(name, i, MAX_COMPONENT_LENGTH), excluded)
    ensures |TakenCandidates(rows, children, parent, name, excluded)| < MAX_ATTEMPTS - 1 ==> r.Some?
  {
    hide Conflicts, TakenNames, SuffixName, Join, TakenCandidates;
    var index := 1;
    while index <= MAX_ATTEMPTS
      invariant 1 <= index <= MAX_ATTEMPTS + 1
      invariant forall i :: 1 <= i < index ==>
                  Conflicts(rows, children, parent, SuffixName(name, i, MAX_COMPONENT_LENGTH), excluded)
    {
      var candidate := SuffixName(name, index, MAX_COMPONENT_LENGTH);
      if !Conflicts(rows, children, parent, candidate, excluded) {
        assert Allocated(rows, children, parent, name, excluded, index, Join(parent, candidate));
        return Some(Join(parent, candidate));
      }
      index := index + 1;
    }
    r := None;
    AllTaken(rows, children, parent, name, excluded);
  }

  /** The i-th candidate is free, and all before it are not. */
  ghost predicate Allocated(
    rows: seq<Row>, children: set<string>, parent: string, name: string, excluded: Option<Row>, i: nat, path: string
  ) {
    && path == Join(parent, SuffixName(name, i, MAX_COMPONENT_LENGTH))
    && !Conflicts(rows, children, parent, SuffixName(name, i, MAX_COMPONENT_LENGTH), excluded)
    && forall j :: 1 <= j < i ==> Conflicts(rows, children, parent, SuffixName(name, j, MAX_COMPONENT_LENGTH), excluded)
  }

  lemma AllTaken(rows: seq<Row>, children: set<string>, parent: string, name: string, excluded: Option<Row>)
    requires UniqueRows(rows)
    requires forall i :: 1 <= i <= MAX_ATTEMPTS ==>
               Conflicts(rows, children, parent, SuffixName(name, i, MAX_COMPONENT_LENGTH), excluded)
    ensures |TakenCandidates(rows, children, parent, name, excluded)| >= MAX_ATTEMPTS - 1
  {
    hide Conflicts, TakenNames, SuffixName, Conflicting;
    var taken := TakenNames(rows, children, parent, excluded);
    forall i | 1 <= i <= MAX_ATTEMPTS ensures Lower(SuffixName(name, i, MAX_COMPONENT_LENGTH)) in taken {
      ConflictIsTaken(rows, children, parent, SuffixName(name, i, MAX_COMPONENT_LENGTH), excluded);
    }
    AllocationFailsExactly(name, MAX_COMPONENT_LENGTH, taken);
    if |Conflicting(name, MAX_COMPONENT_LENGTH, taken)| < MAX_ATTEMPTS - 1 {
      AllocationSucceeds(name, MAX_COMPONENT_LENGTH, taken);
    }
  }

  /** The chosen path belongs to no other mapping, whatever the case of its letters. */
  lemma AllocatedIsFree(
    rows: seq<Row>, children: set<string>, parent: string, name: string, excluded: Option<Row>, i: nat, path: string
  )
    requires UniqueRows(rows) && Allocated(rows, children, parent, name, excluded, i, path)
    ensures forall row :: row in rows && SameName(row.path, path) ==> IsExcluded(row, excluded)
    ensures forall child :: child in children && SameName(Join(parent, child), path) ==>
             SameName(path, CurrentPath(excluded))
  {
    var candidate := SuffixName(name, i, MAX_COMPONENT_LENGTH);
    forall child | child in children && SameName(Join(parent, child), path)
        ensures SameName(path, CurrentPath(excluded)) {
      SameJoined(parent, candidate, Join(parent, child));
      SameJoined(parent, child, Join(parent, child));
      assert SameName(child, candidate);
    }
    forall row | row in rows && SameName(row.path, path) ensures IsExcluded(row, excluded) {
      RowAtIs(rows, path, row);
    }
  }
}

/** The node budget of the server and the tree that the client builds from what was emitted
    (src/archive-preview-security.js, src/file-preview.js, public/js/app.js). */
module ArchiveTree {
  import opened Wrappers
  import opened Names
  import opened ArchiveNames

  const MAX_TREE_NODES := 10_000
  const ZIP_MAX_SCANNED_ENTRIES := 10_000
  const ZIP_MAX_VISIBLE_ENTRIES := 2500
  const ZIP_MAX_ENTRY_NAME_BYTES := 1024
  const ZIP_MAX_VISIBLE_NAME_BYTES := 1024 * 1024

  // ----- prefixes -----

  /** The non-empty prefixes of a component list: one tree node each. */
  ghost function Prefixes(components: seq<string>): set<seq<string>> {
    set i | 1 <= i <= |components| :: components[..i]
  }

  ghost function JoinAll(paths: set<seq<string>>): set<string> {
    set p | p in paths :: Join(p)
  }

  ghost predicate AllValid(paths: set<seq<string>>) {
    forall p :: p in paths ==> ValidComponents(p)
  }

  /** Distinct paths have distinct joined names, so counting strings is counting nodes. */
  lemma {:induction false} JoinAllSize(paths: set<seq<string>>)
    requires AllValid(paths)
    ensures |JoinAll(paths)| == |paths|
  {
    if paths != {} {
      var p :| p in paths;
      JoinAllSize(paths - {p});
      if Join(p) in JoinAll(paths - {p}) {
        var q :| q in paths - {p} && Join(q) == Join(p);
        JoinInjective(p, q);
        assert false;
      }
      assert JoinAll(paths) == JoinAll(paths - {p}) + {Join(p)};
    }
  }

  lemma PrefixesValid(components: seq<string>)
    requires ValidComponents(components)
    ensures AllValid(Prefixes(components))
  {
    forall p | p in Prefixes(components) ensures ValidComponents(p) {
      assert forall c :: c in p ==> c in components;
    }
  }

  /** The prefixes up to length i. */
  ghost function PrefixesUpTo(components: seq<string>, i: nat): set<seq<string>>
    requires i <= |components|
  {
    set k | 1 <= k <= i :: components[..k]
  }

  // ----- the budget -----

  class TreeBudget {
    var prefixes: set<string>
    const limit: nat
    /** The component lists behind the strings. */
    ghost var nodes: set<seq<string>>

    ghost predicate Valid()
      reads this
    {
      AllValid(nodes) && prefixes == JoinAll(nodes) && |prefixes| <= limit && |prefixes| == |nodes|
    }

    constructor (limit: nat)
      requires limit >= 1
      ensures Valid() && nodes == {} && this.limit == limit
    {
      prefixes := {};
      this.limit := limit;
      nodes := {};
    }

    /** All prefixes of the list, or nothing where they would not fit. */
    method Reserve(components: seq<string>) returns (ok: bool)
      requires Valid() && forall c :: c in components ==> ValidComponent(c)
      modifies this
      ensures Valid()
      ensures ok <==> components != [] && |old(nodes) + Prefixes(components)| <= limit
      ensures nodes == if ok then old(nodes) + Prefixes(components) else old(nodes)
    {
      if components == [] {
        return false;
      }
      PrefixesValid(components);
      var additions := NewPrefixes(components);
      ghost var all := nodes + Prefixes(components);
      JoinAllSize(all);
      assert prefixes + additions == JoinAll(all);
      assert |prefixes + additions| == |prefixes| + |additions|;
      if |prefixes| + |additions| > limit {
        return false;
      }
      prefixes := prefixes + additions;
      nodes := all;
      return true;
    }

    method NewPrefixes(components: seq<string>) returns (additions: set<string>)
      requires Valid() && ValidComponents(components)
      ensures additions == JoinAll(Prefixes(components)) - prefixes
    {
      additions := {};
      var prefix := "";
      var i := 0;
      while i < |components|
        invariant 0 <= i <= |components|
        invariant i > 0 ==> prefix == Join(components[..i])
        invariant i == 0 ==> prefix == ""
        invariant additions == JoinAll(PrefixesUpTo(components, i)) - prefixes
      {
        PrefixGrows(components, i);
        prefix := if prefix != "" then prefix + "/" + components[i] else components[i];
        if prefix !in prefixes {
          additions := additions + {prefix};
        }
        i := i + 1;
      }
      assert PrefixesUpTo(components, |components|) == Prefixes(components);
    }
  }

  lemma PrefixGrows(components: seq<string>, i: nat)
    requires ValidComponents(components) && i < |components|
    ensures Join(components[..i + 1]) == if i == 0 then components[0] else Join(components[..i]) + "/" + components[i]
    ensures i > 0 ==> Join(components[..i]) != ""
    ensures JoinAll(PrefixesUpTo(components, i + 1))
             == JoinAll(PrefixesUpTo(components, i)) + {Join(components[..i + 1])}
  {
    assert components[..i + 1] == components[..i] + [components[i]];
    assert PrefixesUpTo(components, i + 1) == PrefixesUpTo(components, i) + {components[..i + 1]};
    if i > 0 {
      JoinNext(components[..i], components[i]);
      assert forall c :: c in components[..i] ==> c in components;
      JoinEnds(components[..i]);
    }
  }

  // ----- the entries of a ZIP archive -----

  /** One emitted entry. */
  datatype Emitted = Emitted(name: string, directory: bool, compressedSize: nat, uncompressedSize: nat)

  ghost predicate FromName(e: Emitted, nodes: set<seq<string>>) {
    Normalize(e.name).Some? &&
    var n := Normalize(e.name).value;
    n.name == e.name && n.directory == e.directory && Prefixes(n.components) <= nodes
  }

  function NameBytes(entries: seq<Emitted>): nat {
    if entries == [] then 0 else NameBytes(entries[..|entries| - 1]) + |entries[|entries| - 1].name|
  }

  class ZipPreview {
    const budget: TreeBudget
    var entries: seq<Emitted>
    var totalEntries: nat
    var visibleNameBytes: nat
    var encrypted: bool
    var omittedEntries: bool

    ghost predicate Valid()
      reads this, budget
    {
      && budget.Valid() && budget.limit == MAX_TREE_NODES
      && (forall e :: e in entries ==> FromName(e, budget.nodes))
      && visibleNameBytes == NameBytes(entries) <= ZIP_MAX_VISIBLE_NAME_BYTES
      && |entries| <= ZIP_MAX_VISIBLE_ENTRIES
      && totalEntries <= ZIP_MAX_SCANNED_ENTRIES
    }

    constructor ()
      ensures Valid() && entries == [] && totalEntries == 0 && fresh(budget)
    {
      budget := new TreeBudget(MAX_TREE_NODES);
      entries, totalEntries, visibleNameBytes := [], 0, 0;
      encrypted, omittedEntries := false, false;
    }

    /** One 'entry' event; false where the archive is rejected for its size. */
    method OnEntry(rawName: string, compressedSize: nat, uncompressedSize: nat, encryptedEntry: bool) returns (ok: bool)
      requires Valid()
      modifies this, budget
      ensures Valid()
      ensures ok <==> old(totalEntries) < ZIP_MAX_SCANNED_ENTRIES && |rawName| <= ZIP_MAX_ENTRY_NAME_BYTES
      ensures ok ==> totalEntries == old(totalEntries) + 1
      ensures entries == old(entries) || (Normalize(rawName).Some? && !encrypted
                && entries == old(entries) + [Emitted(Normalize(rawName).value.name, Normalize(rawName).value.directory,
                                                      compressedSize, uncompressedSize)])
      ensures ok && entries == old(entries) && !encrypted && rawName != "" ==> omittedEntries
    {
      hide NameBytes, Prefixes;
      if totalEntries + 1 > ZIP_MAX_SCANNED_ENTRIES || |rawName| > ZIP_MAX_ENTRY_NAME_BYTES {
        return false;
      }
      totalEntries := totalEntries + 1;
      if encryptedEntry {
        encrypted := true;
      }
      if !encrypted {
        var normalized := Normalize(rawName);
        var fits := false;
        if normalized.Some? {
          fits := Admit(normalized.value);
        }
        if fits {
          var e := Emitted(normalized.value.name, normalized.value.directory, compressedSize, uncompressedSize);
          NormalizeIdempotent(rawName);
          NameBytesNext(entries, e);
          visibleNameBytes := visibleNameBytes + |e.name|;
          entries := entries + [e];
        } else if rawName != "" {
          omittedEntries := true;
        }
      }
      ok := true;
    }

    /** The budget first, then the limits on entries and on bytes of names. */
    method Admit(n: ArchiveName) returns (fits: bool)
      requires Valid() && ValidComponents(n.components)
      modifies budget
      ensures Valid() && old(budget.nodes) <= budget.nodes
      ensures fits ==> Prefixes(n.components) <= budget.nodes && |entries| < ZIP_MAX_VISIBLE_ENTRIES
                       && visibleNameBytes + |n.name| <= ZIP_MAX_VISIBLE_NAME_BYTES
    {
      hide Normalize;
      var reserved := budget.Reserve(n.components);
      fits := reserved && |entries| < ZIP_MAX_VISIBLE_ENTRIES
          && visibleNameBytes + |n.name| <= ZIP_MAX_VISIBLE_NAME_BYTES;
    }
  }

  lemma NameBytesNext(entries: seq<Emitted>, e: Emitted)
    ensures NameBytes(entries + [e]) == NameBytes(entries) + |e.name|
  {
    assert (entries + [e])[..|entries|] == entries;
  }

  // ----- the client's tree -----

  /** Nodes by their path, with the mark for directories. */
  type Tree = map<seq<string>, bool>

  /** One entry's parts from index i on, until a node cannot be added. */
  function AddParts(tree: Tree, parts: seq<string>, directory: bool, i: nat): Tree
    requires i <= |parts|
    decreases |parts| - i
  {
    if i == |parts| then tree
    else
      var path, last := parts[..i + 1], i == |parts| - 1;
      if path !in tree && |tree| >= MAX_TREE_NODES then tree
      else
        var mark := if last then directory else true;
        AddParts(tree[path := mark], parts, directory, i + 1)
  }

  function AddEntries(tree: Tree, entries: seq<Emitted>, k: nat): Tree
    requires k <= |entries|
    decreases |entries| - k
  {
    if k == |entries| then tree
    else
      var n := Normalize(entries[k].name);
      AddEntries(if n.None? then tree else AddParts(tree, n.value.components, entries[k].directory, 0), entries, k + 1)
  }

  /** buildArchiveTree */
  method BuildArchiveTree(entries: seq<Emitted>) returns (tree: Tree, nodeCount: nat)
    ensures tree == AddEntries(map[], entries, 0) && nodeCount == |tree|
  {
    hide Normalize;
    tree, nodeCount := map[], 0;
    var k := 0;
    while k < |entries|
      invariant 0 <= k <= |entries| && nodeCount == |tree|
      invariant AddEntries(map[], entries, 0) == AddEntries(tree, entries, k)
    {
      var n := Normalize(entries[k].name);
      if n.Some? {
        tree, nodeCount := AddEntry(tree, nodeCount, n.value.components, entries[k].directory);
      }
      k := k + 1;
    }
  }

  method AddEntry(
    start: Tree, startCount: nat, parts: seq<string>, entryIsDirectory: bool
  ) returns (tree: Tree, nodeCount: nat)
    requires startCount == |start|
    ensures tree == AddParts(start, parts, entryIsDirectory, 0) && nodeCount == |tree|
  {
    tree, nodeCount := start, startCount;
    var i := 0;
    while i < |parts|
      invariant 0 <= i <= |parts| && nodeCount == |tree|
      invariant AddParts(start, parts, entryIsDirectory, 0) == AddParts(tree, parts, entryIsDirectory, i)
    {
      var path, last := parts[..i + 1], i == |parts| - 1;
      var directory := !last || entryIsDirectory;
      if path !in tree {
        if nodeCount >= MAX_TREE_NODES {
          return;
        }
        nodeCount := nodeCount + 1;
        tree := tree[path := directory];
      } else if directory {
        tree := tree[path := true];
      } else {
        tree := tree[path := false];
      }
      i := i + 1;
    }
  }

  // ----- the cut-off is never taken -----

  /** The prefixes longer than i. */
  ghost function PrefixesFrom(parts: seq<string>, i: nat): set<seq<string>> {
    set k | i < k <= |parts| :: parts[..k]
  }

  lemma PrefixesNext(parts: seq<string>, i: nat)
    requires i < |parts|
    ensures PrefixesFrom(parts, i) == PrefixesFrom(parts, i + 1) + {parts[..i + 1]}
  {}

  lemma RoomForOne(tree: Tree, path: seq<string>, nodes: set<seq<string>>)
    requires tree.Keys <= nodes && path in nodes && |nodes| <= MAX_TREE_NODES
    ensures path !in tree ==> |tree| < MAX_TREE_NODES
  {
    if path !in tree {
      SubsetSize(tree.Keys + {path}, nodes);
      assert |tree| == |tree.Keys| && |tree.Keys + {path}| == |tree.Keys| + 1;
    }
  }

  lemma PrefixIn(parts: seq<string>, i: nat)
    requires 1 <= i <= |parts|
    ensures parts[..i] in Prefixes(parts)
  {}

  lemma AddPartsStep(tree: Tree, parts: seq<string>, directory: bool, i: nat)
    requires i < |parts| && (parts[..i + 1] !in tree ==> |tree| < MAX_TREE_NODES)
    ensures AddParts(tree, parts, directory, i)
            == AddParts(tree[parts[..i + 1] := if i == |parts| - 1 then directory else true], parts, directory, i + 1)
  {}

  lemma AddPartsEnd(tree: Tree, parts: seq<string>, directory: bool)
    ensures AddParts(tree, parts, directory, |parts|) == tree
    ensures PrefixesFrom(parts, |parts|) == {}
  {}

  lemma {:induction false} AddPartsFits(
    tree: Tree, parts: seq<string>, directory: bool, i: nat, nodes: set<seq<string>>
  )
    requires i <= |parts| && tree.Keys <= nodes && Prefixes(parts) <= nodes && |nodes| <= MAX_TREE_NODES
    ensures AddParts(tree, parts, directory, i).Keys == tree.Keys + PrefixesFrom(parts, i)
    decreases |parts| - i
  {
    hide PrefixesFrom, AddParts, Prefixes;
    if i == |parts| {
      AddPartsEnd(tree, parts, directory);
    } else {
      var path := parts[..i + 1];
      PrefixIn(parts, i + 1);
      RoomForOne(tree, path, nodes);
      AddPartsStep(tree, parts, directory, i);
      var next := tree[path := if i == |parts| - 1 then directory else true];
      assert next.Keys == tree.Keys + {path};
      AddPartsFits(next, parts, directory, i + 1, nodes);
      PrefixesNext(parts, i);
      assert (tree.Keys + {path}) + PrefixesFrom(parts, i + 1) == tree.Keys + (PrefixesFrom(parts, i + 1) + {path});
    }
  }

  /** The nodes that one entry needs. */
  ghost function NodesOf(e: Emitted): set<seq<string>> {
    if Normalize(e.name).None? then {} else Prefixes(Normalize(e.name).value.components)
  }

  /** The prefixes of all entries from the k-th on. */
  ghost function NodesFrom(entries: seq<Emitted>, k: nat): set<seq<string>>
    requires k <= |entries|
    decreases |entries| - k
  {
    if k == |entries| then {} else NodesOf(entries[k]) + NodesFrom(entries, k + 1)
  }

  lemma {:induction false} AddEntriesFits(tree: Tree, entries: seq<Emitted>, k: nat, nodes: set<seq<string>>)
    requires k <= |entries| && tree.Keys <= nodes && |nodes| <= MAX_TREE_NODES
    requires forall e :: e in entries ==> FromName(e, nodes)
    ensures AddEntries(tree, entries, k).Keys == tree.Keys + NodesFrom(entries, k)
    decreases |entries| - k
  {
    hide Normalize, AddParts, Prefixes;
    if k < |entries| {
      var e := entries[k];
      assert e in entries && FromName(e, nodes);
      var parts := Normalize(e.name).value.components;
      AddPartsFits(tree, parts, e.directory, 0, nodes);
      AllPrefixes(parts);
      AddEntriesFits(AddParts(tree, parts, e.directory, 0), entries, k + 1, nodes);
    }
  }

  lemma AllPrefixes(parts: seq<string>)
    ensures PrefixesFrom(parts, 0) == Prefixes(parts)
  {}

  /** From entries that were admitted under a budget, the client builds exactly one node per
      distinct prefix, and its own limit on nodes is never felt. */
  lemma ClientTreeIsComplete(entries: seq<Emitted>, nodes: set<seq<string>>)
    requires |nodes| <= MAX_TREE_NODES && forall e :: e in entries ==> FromName(e, nodes)
    ensures AddEntries(map[], entries, 0).Keys == NodesFrom(entries, 0)
    ensures NodesFrom(entries, 0) <= nodes
  {
    hide Normalize;
    AddEntriesFits(map[], entries, 0, nodes);
    NodesFromWithin(entries, 0, nodes);
  }

  lemma {:induction false} NodesFromWithin(entries: seq<Emitted>, k: nat, nodes: set<seq<string>>)
    requires k <= |entries| && forall e :: e in entries ==> FromName(e, nodes)
    ensures NodesFrom(entries, k) <= nodes
    decreases |entries| - k
  {
    hide Normalize;
    if k < |entries| {
      assert entries[k] in entries && FromName(entries[k], nodes);
      NodesFromWithin(entries, k + 1, nodes);
    }
  }

  // ----- from the archive to the client's tree -----

  /** An entry as the library reports it. */
  datatype Reported = Reported(name: string, compressedSize: nat, uncompressedSize: nat, encrypted: bool)

  /** The emitted entry is a reported one under its normalized name. */
  ghost predicate Stems(e: Emitted, reported: seq<Reported>) {
    exists r :: r in reported && Normalize(r.name).Some? && e.name == Normalize(r.name).value.name
                && e.directory == Normalize(r.name).value.directory
  }

  /** Whatever entries an archive reports, the tree that the client builds from the preview has
      exactly one node per distinct prefix of the emitted names, and each stems from the archive. */
  method PreviewTree(reported: seq<Reported>) returns (ok: bool, entries: seq<Emitted>, tree: Tree, nodeCount: nat)
    ensures tree.Keys == NodesFrom(entries, 0) && nodeCount == |tree| <= MAX_TREE_NODES
    ensures forall e :: e in entries ==> Stems(e, reported)
    ensures ok <==> |reported| <= ZIP_MAX_SCANNED_ENTRIES
                    && forall r :: r in reported ==> |r.name| <= ZIP_MAX_ENTRY_NAME_BYTES
  {
    hide Normalize, AddEntries, NodesFrom;
    var preview := new ZipPreview();
    ok := true;
    var i := 0;
    while i < |reported| && ok
      invariant 0 <= i <= |reported| && preview.Valid() && fresh(preview) && fresh(preview.budget)
      invariant ok ==> preview.totalEntries == i && forall k :: 0 <= k < i ==>
               |reported[k].name| <= ZIP_MAX_ENTRY_NAME_BYTES
      invariant !ok ==>
               |reported| > ZIP_MAX_SCANNED_ENTRIES || exists r :: r in reported && |r.name| > ZIP_MAX_ENTRY_NAME_BYTES
      invariant forall e :: e in preview.entries ==> Stems(e, reported)
      decreases |reported| - i, ok
    {
      var r := reported[i];
      assert r in reported;
      ghost var before := preview.entries;
      ok := preview.OnEntry(r.name, r.compressedSize, r.uncompressedSize, r.encrypted);
      forall e | e in preview.entries ensures Stems(e, reported) {
        if e !in before {
          assert Normalize(r.name).Some? && e.name == Normalize(r.name).value.name;
        }
      }
      i := i + 1;
    }
    entries := preview.entries;
    ClientTreeIsComplete(entries, preview.budget.nodes);
    NodesWithin(entries, preview.budget.nodes);
    tree, nodeCount := BuildArchiveTree(entries);
  }

  lemma NodesWithin(entries: seq<Emitted>, nodes: set<seq<string>>)
    requires NodesFrom(entries, 0) <= nodes
    ensures |NodesFrom(entries, 0)| <= |nodes|
  {
    SubsetSize(NodesFrom(entries, 0), nodes);
  }
}

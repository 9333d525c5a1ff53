/** Chains of database parents, and when they return to where they started. */
module ParentChains {
  import opened Wrappers
  import opened SmbTables

  /** The n-th ancestor; None above a top-level folder. */
  function Climb(folders: map<nat, Folder>, id: Option<nat>, n: nat): Option<nat>
    decreases n
  {
    if n == 0 || id.None? || id.value !in folders then id
    else Climb(folders, folders[id.value].parent, n - 1)
  }

  ghost predicate ReturnsAfter(folders: map<nat, Folder>, id: nat, n: nat) {
    id in folders && 0 < n && Climb(folders, Some(id), n) == Some(id)
  }

  lemma {:induction false} ClimbAdds(folders: map<nat, Folder>, id: Option<nat>, a: nat, b: nat)
    ensures Climb(folders, id, a + b) == Climb(folders, Climb(folders, id, a), b)
    decreases a
  {
    if a > 0 && id.Some? && id.value in folders {
      ClimbAdds(folders, folders[id.value].parent, a - 1, b);
    } else if a > 0 {
      ClimbStays(folders, id, a + b);
      ClimbStays(folders, id, b);
    }
  }

  lemma ClimbStays(folders: map<nat, Folder>, id: Option<nat>, n: nat)
    requires id.None? || id.value !in folders
    ensures Climb(folders, id, n) == id
  {}

  /** What climbs to x is in the cascade of x. */
  lemma {:induction false} ClimberIsBelow(folders: map<nat, Folder>, x: nat, y: nat, m: nat)
    requires Climb(folders, Some(y), m) == Some(x)
    ensures y in Cascade(folders, {x})
    decreases m
  {
    if m > 0 && y in folders {
      ClimbStays(folders, None, m - 1);
      ClimberIsBelow(folders, x, folders[y].parent.value, m - 1);
      assert y in Children(folders, Cascade(folders, {x}));
    }
  }

  lemma BelowClimbs(folders: map<nat, Folder>, x: nat, y: nat) returns (m: nat)
    requires y in Cascade(folders, {x})
    ensures Climb(folders, Some(y), m) == Some(x)
  {
    var climbers := set z | z in folders.Keys + {x} && exists k: nat :: Climb(folders, Some(z), k) == Some(x);
    assert Climb(folders, Some(x), 0) == Some(x);
    forall z | z in Children(folders, climbers) ensures z in climbers {
      var k: nat :| Climb(folders, Some(folders[z].parent.value), k) == Some(x);
      assert Climb(folders, Some(z), k + 1) == Some(x);
    }
    CascadeWithin(folders, {x}, climbers);
    m :| Climb(folders, Some(y), m) == Some(x);
  }

  /** The recursive query diverges on exactly the folders that are their own ancestors. */
  lemma OnCycleReturns(folders: map<nat, Folder>, id: nat) returns (n: nat)
    ensures OnCycle(folders, id) ==> ReturnsAfter(folders, id, n)
  {
    n := 0;
    if OnCycle(folders, id) {
      var m := BelowClimbs(folders, id, folders[id].parent.value);
      n := m + 1;
    }
  }

  lemma ReturningIsOnCycle(folders: map<nat, Folder>, id: nat, n: nat)
    requires ReturnsAfter(folders, id, n)
    ensures OnCycle(folders, id)
  {
    ClimbStays(folders, None, n - 1);
    ClimberIsBelow(folders, id, folders[id].parent.value, n - 1);
  }

  /** The i-th ancestor of a folder that returns exists and returns as well. */
  lemma AncestorReturns(folders: map<nat, Folder>, id: nat, n: nat, i: nat)
    requires ReturnsAfter(folders, id, n) && i <= n
    ensures Climb(folders, Some(id), i).Some? && ReturnsAfter(folders, Climb(folders, Some(id), i).value, n)
  {
    var up := Climb(folders, Some(id), i);
    ClimbAdds(folders, Some(id), i, n - i);
    ClimbAdds(folders, up, n - i, i);
  }

  /** If a folder on a cycle is in the cascade of another, that one is on a cycle too. */
  lemma RootIsOnCycle(folders: map<nat, Folder>, root: nat, id: nat)
    requires OnCycle(folders, id) && id in Cascade(folders, {root})
    ensures OnCycle(folders, root)
  {
    var n := OnCycleReturns(folders, id);
    var m := BelowClimbs(folders, root, id);
    AncestorOf(folders, id, n, m, root);
    ReturningIsOnCycle(folders, root, n);
  }

  lemma {:induction false} AncestorOf(folders: map<nat, Folder>, id: nat, n: nat, m: nat, root: nat)
    requires ReturnsAfter(folders, id, n) && Climb(folders, Some(id), m) == Some(root)
    ensures ReturnsAfter(folders, root, n)
    decreases m
  {
    if m <= n {
      AncestorReturns(folders, id, n, m);
    } else {
      ClimbAdds(folders, Some(id), n, m - n);
      AncestorOf(folders, id, n, m - n, root);
    }
  }

  /** From an ancestor of a folder on a cycle the chain leads back to the folder. */
  lemma {:induction false} LeadsBack(folders: map<nat, Folder>, id: nat, n: nat, i: nat, x: nat) returns (m: nat)
    requires ReturnsAfter(folders, id, n) && Climb(folders, Some(id), i) == Some(x)
    ensures Climb(folders, Some(x), m) == Some(id)
    decreases i
  {
    if i <= n {
      m := n - i;
      ClimbAdds(folders, Some(id), i, n - i);
    } else {
      ClimbAdds(folders, Some(id), n, i - n);
      m := LeadsBack(folders, id, n, i - n, x);
    }
  }

  /** A set that chains of parents never leave holds all of a cycle or nothing of it. */
  lemma CycleStaysOutside(folders: map<nat, Folder>, kept: set<nat>, id: nat, x: nat)
    requires forall y :: y in folders && y in kept && folders[y].parent.Some? ==> folders[y].parent.value in kept
    requires OnCycle(folders, id) && id !in kept && id in Cascade(folders, {x})
    ensures x !in kept
  {
    if x in kept {
      var n := OnCycleReturns(folders, id);
      var i := BelowClimbs(folders, x, id);
      var m := LeadsBack(folders, id, n, i, x);
      ClimbsInside(folders, kept, x, m);
    }
  }

  lemma {:induction false} ClimbsInside(folders: map<nat, Folder>, kept: set<nat>, x: nat, m: nat)
    requires forall y :: y in folders && y in kept && folders[y].parent.Some? ==> folders[y].parent.value in kept
    requires x in kept
    ensures var up := Climb(folders, Some(x), m); up.Some? ==> up.value in kept
    decreases m
  {
    if m > 0 && x in folders && folders[x].parent.Some? {
      ClimbsInside(folders, kept, folders[x].parent.value, m - 1);
    }
  }

  /** Two tables that agree on a chain agree on where it leads. */
  lemma {:induction false} SameChain(folders: map<nat, Folder>, others: map<nat, Folder>, id: nat, n: nat)
    requires forall i :: 0 <= i < n ==> SameAt(folders, others, Climb(folders, Some(id), i))
    ensures Climb(others, Some(id), n) == Climb(folders, Some(id), n)
    decreases n
  {
    if n > 0 {
      SameChain(folders, others, id, n - 1);
      ClimbAdds(folders, Some(id), n - 1, 1);
      ClimbAdds(others, Some(id), n - 1, 1);
      assert SameAt(folders, others, Climb(folders, Some(id), n - 1));
    }
  }

  ghost predicate SameAt(folders: map<nat, Folder>, others: map<nat, Folder>, id: Option<nat>) {
    id.Some? && id.value in folders && id.value in others && others[id.value].parent == folders[id.value].parent
  }

  /** A cycle whose folders are all in the other table, with the same parents, is one there too. */
  lemma SameCycle(folders: map<nat, Folder>, others: map<nat, Folder>, id: nat)
    requires OnCycle(folders, id)
    requires forall x :: OnCycle(folders, x) && id in Cascade(folders, {x}) ==> SameAt(folders, others, Some(x))
    ensures OnCycle(others, id)
  {
    var n := OnCycleReturns(folders, id);
    forall i | 0 <= i < n ensures SameAt(folders, others, Climb(folders, Some(id), i)) {
      AncestorReturns(folders, id, n, i);
      ReturningIsOnCycle(folders, Climb(folders, Some(id), i).value, n);
      ClimberIsBelow(folders, Climb(folders, Some(id), i).value, id, i);
    }
    assert Climb(folders, Some(id), 0) == Some(id);
    SameChain(folders, others, id, n);
    assert SameAt(folders, others, Climb(folders, Some(id), 0));
    ReturningIsOnCycle(others, id, n);
  }
}

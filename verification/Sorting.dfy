/** Array.prototype.sort with a numeric comparator: stable and ascending by rank. */
module Sorting {
  ghost predicate SortedBy<T>(s: seq<T>, rank: T -> int) {
    forall i, j :: 0 <= i < j < |s| ==> rank(s[i]) <= rank(s[j])
  }

  function Insert<T>(s: seq<T>, x: T, rank: T -> int): seq<T> {
    if s == [] || rank(s[|s| - 1]) <= rank(x) then s + [x]
    else Insert(s[..|s| - 1], x, rank) + [s[|s| - 1]]
  }

  lemma {:induction false} InsertMembers<T>(s: seq<T>, x: T, rank: T -> int)
    ensures multiset(Insert(s, x, rank)) == multiset(s) + multiset{x}
    ensures forall y :: y in Insert(s, x, rank) ==> y == x || y in s
    ensures Insert(s, x, rank) != []
  {
    if s == [] || rank(s[|s| - 1]) <= rank(x) {
    } else {
      assert s == s[..|s| - 1] + [s[|s| - 1]];
      InsertMembers(s[..|s| - 1], x, rank);
    }
  }

  lemma {:induction false} InsertSorted<T>(s: seq<T>, x: T, rank: T -> int)
    requires SortedBy(s, rank)
    ensures SortedBy(Insert(s, x, rank), rank)
  {
    if s == [] || rank(s[|s| - 1]) <= rank(x) {
    } else {
      var t, last := s[..|s| - 1], s[|s| - 1];
      InsertSorted(t, x, rank);
      InsertMembers(t, x, rank);
      var r := Insert(t, x, rank);
      forall i | 0 <= i < |r| ensures rank(r[i]) <= rank(last) {
        assert r[i] in r;
      }
    }
  }

  function Sort<T>(s: seq<T>, rank: T -> int): (r: seq<T>)
    ensures multiset(r) == multiset(s)
    ensures SortedBy(r, rank)
  {
    if s == [] then []
    else
      var t, last := s[..|s| - 1], s[|s| - 1];
      assert s == t + [last];
      InsertMembers(Sort(t, rank), last, rank);
      InsertSorted(Sort(t, rank), last, rank);
      Insert(Sort(t, rank), last, rank)
  }

  lemma SortMembers<T>(s: seq<T>, rank: T -> int)
    ensures forall x :: x in Sort(s, rank) <==> x in s
    ensures |Sort(s, rank)| == |s|
  {
    forall x ensures x in Sort(s, rank) <==> x in s {
      assert x in multiset(Sort(s, rank)) <==> x in multiset(s);
    }
    assert |multiset(Sort(s, rank))| == |multiset(s)|;
  }

  ghost predicate Distinct<T>(s: seq<T>) {
    forall i, j :: 0 <= i < j < |s| ==> s[i] != s[j]
  }

  lemma {:induction false} DistinctByCount<T>(s: seq<T>)
    ensures Distinct(s) <==> forall x :: x in s ==> multiset(s)[x] == 1
  {
    if s != [] {
      var t, last := s[..|s| - 1], s[|s| - 1];
      assert s == t + [last];
      DistinctByCount(t);
      if Distinct(s) {
        assert Distinct(t);
        assert last !in t;
      }
      if forall x :: x in s ==> multiset(s)[x] == 1 {
        assert multiset(s)[last] == multiset(t)[last] + 1;
        assert last !in t;
        forall x | x in t ensures multiset(t)[x] == 1 {
          assert x in s;
        }
        forall i, j | 0 <= i < j < |s| ensures s[i] != s[j] {
          if j == |t| { assert s[i] in t; }
        }
      }
    }
  }

  lemma SortDistinct<T>(s: seq<T>, rank: T -> int)
    requires Distinct(s)
    ensures Distinct(Sort(s, rank))
  {
    DistinctByCount(s);
    SortMembers(s, rank);
    forall x | x in Sort(s, rank) ensures multiset(Sort(s, rank))[x] == 1 {
      assert x in multiset(s);
    }
    DistinctByCount(Sort(s, rank));
  }
}

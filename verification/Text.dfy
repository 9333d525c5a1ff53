/** ASCII strings as SQLite and the service see them: case folding, LIKE with
    ESCAPE, and the parent of a relative path. */
module Text {
  function LowerChar(c: char): char {
    if 'A' <= c <= 'Z' then (c as int + 32) as char else c
  }

  /** toLowerCase() and COLLATE NOCASE agree on ASCII names. */
  function Lower(s: string): (r: string)
    ensures |r| == |s|
    ensures forall i :: 0 <= i < |s| ==> r[i] == LowerChar(s[i])
  {
    seq(|s|, i requires 0 <= i < |s| => LowerChar(s[i]))
  }

  predicate SameName(a: string, b: string) {
    Lower(a) == Lower(b)
  }

  lemma SameNameReflexive(p: string)
    ensures SameName(p, p)
  {}

  lemma SameNameSymmetric(p: string, q: string)
    requires SameName(p, q)
    ensures SameName(q, p)
  {}

  lemma LowerConcat(a: string, b: string)
    ensures Lower(a + b) == Lower(a) + Lower(b)
  {}

  lemma LowerSlice(s: string, i: nat, j: nat)
    requires i <= j <= |s|
    ensures Lower(s[i..j]) == Lower(s)[i..j]
  {}

  // ----- LIKE ... ESCAPE '\' -----

  /** SQLite's LIKE with '\' as the escape character; letters compare without case. */
  predicate Like(pattern: string, s: string)
    decreases |pattern|, |s|
  {
    if pattern == "" then s == ""
    else if pattern[0] == '%' then
      Like(pattern[1..], s) || (s != "" && Like(pattern, s[1..]))
    else if pattern[0] == '_' then
      s != "" && Like(pattern[1..], s[1..])
    else if pattern[0] == '\\' then
      |pattern| >= 2 && s != "" && LowerChar(pattern[1]) == LowerChar(s[0]) && Like(pattern[2..], s[1..])
    else
      s != "" && LowerChar(pattern[0]) == LowerChar(s[0]) && Like(pattern[1..], s[1..])
  }

  /** replaceAll(c, '\' + c) */
  function EscapeChar(s: string, c: char): string {
    if s == "" then ""
    else (if s[0] == c then ['\\', c] else [s[0]]) + EscapeChar(s[1..], c)
  }

  function EscapeLike(s: string): string {
    EscapeChar(EscapeChar(EscapeChar(s, '\\'), '%'), '_')
  }

  /** The pattern that selects the mappings of a folder's descendants. */
  function DescendantPattern(folderPath: string): string {
    EscapeLike(folderPath) + "/%"
  }

  /** s is at least one separator below folderPath, ignoring case. */
  predicate Below(folderPath: string, s: string) {
    && |folderPath| < |s|
    && s[|folderPath|] == '/'
    && SameName(s[..|folderPath|], folderPath)
  }

  lemma EscapeCharConcat(a: string, b: string, c: char)
    ensures EscapeChar(a + b, c) == EscapeChar(a, c) + EscapeChar(b, c)
  {
    if a == "" {
      assert a + b == b;
    } else {
      assert (a + b)[1..] == a[1..] + b;
      EscapeCharConcat(a[1..], b, c);
    }
  }

  function EscapedChar(c: char): string {
    if c == '\\' || c == '%' || c == '_' then ['\\', c] else [c]
  }

  lemma EscapeSingle(x: char, c: char)
    ensures EscapeChar([x], c) == if x == c then ['\\', c] else [x]
  {
    assert [x][1..] == "";
  }

  lemma EscapeLikeStep(s: string)
    requires s != ""
    ensures EscapeLike(s) == EscapedChar(s[0]) + EscapeLike(s[1..])
  {
    var x := s[0];
    assert s == [x] + s[1..];
    EscapeCharConcat([x], s[1..], '\\');
    EscapeSingle(x, '\\');
    var once := EscapeChar([x], '\\');
    EscapeCharConcat(once, EscapeChar(s[1..], '\\'), '%');
    var twice := EscapeChar(once, '%');
    EscapeCharConcat(twice, EscapeChar(EscapeChar(s[1..], '\\'), '%'), '_');
    EscapeSingle(x, '%');
    EscapeSingle(x, '_');
    if x == '\\' {
      assert once == ['\\'] + ['\\'];
      EscapeCharConcat(['\\'], ['\\'], '%');
      EscapeSingle('\\', '%');
      EscapeCharConcat(['\\'], ['\\'], '_');
      EscapeSingle('\\', '_');
    } else if x == '%' {
      assert twice == ['\\'] + ['%'];
      EscapeCharConcat(['\\'], ['%'], '_');
      EscapeSingle('\\', '_');
    }
  }

  lemma {:induction false} PercentMatchesAll(s: string)
    ensures Like("%", s)
  {
    assert "%"[1..] == "";
    if s != "" {
      PercentMatchesAll(s[1..]);
    }
  }

  /** The escaped pattern matches exactly the strings that begin with the folder's
      path and a separator, whatever '%', '_' or '\' the path contains. */
  lemma {:induction false} LikeMatchesDescendants(folderPath: string, s: string)
    ensures Like(DescendantPattern(folderPath), s) <==> Below(folderPath, s)
    decreases |folderPath|
  {
    var pattern := DescendantPattern(folderPath);
    if folderPath == "" {
      assert EscapeLike("") == "";
      assert pattern == "/%";
      assert pattern[1..] == "%";
      if s != "" {
        PercentMatchesAll(s[1..]);
      }
    } else {
      var rest := folderPath[1..];
      EscapeLikeStep(folderPath);
      var head := EscapedChar(folderPath[0]);
      assert pattern == head + DescendantPattern(rest);
      assert pattern[|head|..] == DescendantPattern(rest);
      if s != "" {
        LikeMatchesDescendants(rest, s[1..]);
        BelowStep(folderPath, s);
      }
    }
  }

  lemma BelowStep(folderPath: string, s: string)
    requires folderPath != "" && s != ""
    ensures Below(folderPath, s) <==>
            LowerChar(folderPath[0]) == LowerChar(s[0]) && Below(folderPath[1..], s[1..])
  {
    if |folderPath| < |s| {
      var n := |folderPath|;
      assert s[1..][..n - 1] == s[..n][1..];
      var a, b := Lower(s[..n]), Lower(folderPath);
      var c, d := Lower(s[1..][..n - 1]), Lower(folderPath[1..]);
      assert a == [a[0]] + c;
      assert b == [b[0]] + d;
    }
  }

  // ----- relative paths -----

  /** The index of the last '/', or -1. */
  function LastSlash(p: string): (i: int)
    ensures -1 <= i < |p|
    ensures i >= 0 ==> p[i] == '/'
    ensures forall k :: i < k < |p| ==> p[k] != '/'
  {
    if p == "" then -1
    else if p[|p| - 1] == '/' then |p| - 1
    else LastSlash(p[..|p| - 1])
  }

  predicate TopLevel(p: string) {
    LastSlash(p) < 0
  }

  /** path.posix.dirname of a relative path, "" for a top-level one. */
  function Parent(p: string): (r: string)
    ensures |r| < |p| || p == ""
  {
    if TopLevel(p) then "" else p[..LastSlash(p)]
  }

  function BaseName(p: string): string {
    p[LastSlash(p) + 1..]
  }

  function Slashes(p: string): nat {
    if p == "" then 0 else Slashes(p[..|p| - 1]) + if p[|p| - 1] == '/' then 1 else 0
  }

  /** The number of components of a relative path. */
  function Depth(p: string): nat {
    Slashes(p) + 1
  }

  lemma {:induction false} SlashesPrefix(p: string, k: nat)
    requires k <= |p|
    ensures Slashes(p[..k]) <= Slashes(p)
    ensures (forall i :: k <= i < |p| ==> p[i] != '/') ==> Slashes(p[..k]) == Slashes(p)
  {
    if k == |p| {
      assert p[..k] == p;
    } else {
      var q := p[..|p| - 1];
      assert q[..k] == p[..k];
      SlashesPrefix(q, k);
    }
  }

  lemma ParentIsShallower(p: string)
    requires !TopLevel(p)
    ensures Depth(Parent(p)) == Depth(p) - 1
  {
    var i := LastSlash(p);
    SlashesPrefix(p, i + 1);
    assert p[..i + 1][..i] == p[..i];
  }

  lemma SlashAt(p: string, q: string, k: nat)
    requires SameName(p, q) && k < |p|
    ensures k < |q| && (p[k] == '/' <==> q[k] == '/')
  {
    assert |p| == |q|;
    assert Lower(p)[k] == Lower(q)[k];
  }

  lemma SameNameSlice(p: string, q: string, i: nat, j: nat)
    requires SameName(p, q) && i <= j <= |p|
    ensures j <= |q| && SameName(p[i..j], q[i..j])
  {
    assert |Lower(p)| == |Lower(q)|;
    LowerSlice(p, i, j);
    LowerSlice(q, i, j);
  }

  /** Case-insensitively equal paths have case-insensitively equal parents. */
  lemma SameParent(p: string, q: string)
    requires SameName(p, q)
    ensures TopLevel(p) <==> TopLevel(q)
    ensures SameName(Parent(p), Parent(q))
    ensures LastSlash(p) == LastSlash(q)
  {
    assert |Lower(p)| == |Lower(q)|;
    var i, j := LastSlash(p), LastSlash(q);
    if i >= 0 { SlashAt(p, q, i); }
    if j >= 0 { SlashAt(q, p, j); }
    assert i == j;
    if i >= 0 { SameNameSlice(p, q, 0, i); }
  }

  /** What is below a folder has its parent at or below that folder. */
  lemma BelowParent(folderPath: string, p: string)
    requires Below(folderPath, p)
    ensures !TopLevel(p)
    ensures SameName(Parent(p), folderPath) || Below(folderPath, Parent(p))
  {
    var i, n := LastSlash(p), |folderPath|;
    assert i >= n;
    if i == n {
      assert Parent(p) == p[..n];
    } else {
      assert Parent(p)[..n] == p[..n];
    }
  }

  lemma BelowSameName(f: string, g: string, p: string, q: string)
    requires SameName(f, g) && SameName(p, q)
    ensures Below(f, p) <==> Below(g, q)
  {
    assert |Lower(f)| == |Lower(g)| && |Lower(p)| == |Lower(q)|;
    var n := |f|;
    if n < |p| {
      SlashAt(p, q, n);
      SlashAt(q, p, n);
      SameNameSlice(p, q, 0, n);
    }
  }

  lemma ParentBelow(p: string)
    requires !TopLevel(p)
    ensures Below(Parent(p), p)
  {}

  lemma BelowTransitive(f: string, g: string, p: string)
    requires Below(f, g) && (Below(g, p) || SameName(g, p))
    ensures Below(f, p)
  {
    var n := |f|;
    if SameName(g, p) {
      BelowSameName(f, f, g, p);
    } else {
      var h := p[..|g|];
      SlashAt(g, h, n);
      assert |Lower(h)| == |Lower(g)|;
      SameNameSlice(h, g, 0, n);
      assert h[..n] == p[..n];
    }
  }
}

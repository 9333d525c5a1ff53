/** Free names for projected entries and database folders (src/smb-sync-service.js). */
module Names {
  import opened Wrappers
  import opened Text

  const MAX_COMPONENT_LENGTH := 180
  const MAX_FOLDER_NAME_LENGTH := 100
  const MAX_ATTEMPTS := 10_000

  function LastDot(s: string): (i: int)
    ensures -1 <= i < |s|
    ensures i >= 0 ==> s[i] == '.'
  {
    if s == "" then -1
    else if s[|s| - 1] == '.' then |s| - 1
    else LastDot(s[..|s| - 1])
  }

  /** path.extname of a single component. */
  function ExtName(name: string): (e: string)
    ensures |e| <= |name|
    ensures e == name[|name| - |e|..]
  {
    if LastDot(name) <= 0 || name == ".." then "" else name[LastDot(name)..]
  }

  function Digit(d: nat): char
    requires d < 10
  {
    '0' + d as char
  }

  function Decimal(n: nat): (s: string)
    ensures |s| > 0
    ensures forall i :: 0 <= i < |s| ==> '0' <= s[i] <= '9'
  {
    if n < 10 then [Digit(n)] else Decimal(n / 10) + [Digit(n % 10)]
  }

  function Indexed(stem: string, d: string, extension: string): string {
    stem + (" (" + d + ")") + extension
  }

  function Cut(stem: string, available: int): string
    requires available >= 1
  {
    if available < |stem| then stem[..available] else stem
  }

  function SuffixName(name: string, index: nat, maximumLength: nat): string {
    if index <= 1 then name
    else
      var d, extension := Decimal(index), ExtName(name);
      var available := if maximumLength - |extension| - |d| - 3 > 1 then maximumLength - |extension| - |d| - 3 else 1;
      Indexed(Cut(name[..|name| - |extension|], available), d, extension)
  }

  lemma DecimalLength(n: nat)
    ensures |Decimal(n)| == 1 <==> n < 10
  {}

  lemma {:induction false} DecimalInjective(m: nat, n: nat)
    requires Decimal(m) == Decimal(n)
    ensures m == n
    decreases m
  {
    DecimalLength(m);
    DecimalLength(n);
    if m < 10 {
      assert Digit(m) == [Digit(m)][0] == [Digit(n)][0];
    } else {
      var a, b := Decimal(m / 10), Decimal(n / 10);
      assert Decimal(m)[..|a|] == a && Decimal(n)[..|b|] == b;
      assert |a| == |b|;
      DecimalInjective(m / 10, n / 10);
      assert Decimal(m)[|a|] == Digit(m % 10) && Decimal(n)[|b|] == Digit(n % 10);
    }
  }

  /** Reading a suffixed name from its end: a ')' before the extension, the decimal
      index, and a '(' that no digit can be mistaken for. */
  ghost predicate EndsWithIndex(r: string, d: string, extension: nat) {
    && |r| >= extension + |d| + 3
    && r[|r| - extension - 2 - |d|] == '('
    && (forall k :: 0 <= k < |d| ==> r[|r| - extension - 1 - |d| + k] == d[k])
  }

  lemma SuffixShape(name: string, index: nat, maximumLength: nat)
    requires index >= 2
    ensures EndsWithIndex(SuffixName(name, index, maximumLength), Decimal(index), |ExtName(name)|)
  {
    hide EndsWithIndex, Decimal, Indexed, Cut, ExtName;
    var d, ext := Decimal(index), ExtName(name);
    var available := if maximumLength - |ext| - |d| - 3 > 1 then maximumLength - |ext| - |d| - 3 else 1;
    IndexedShape(Cut(name[..|name| - |ext|], available), d, ext);
  }

  lemma IndexedShape(stem: string, d: string, ext: string)
    ensures EndsWithIndex(Indexed(stem, d, ext), d, |ext|)
  {}

  lemma SameIndexLength(r: string, s: string, a: string, b: string, extension: nat)
    requires SameName(r, s)
    requires EndsWithIndex(r, a, extension) && EndsWithIndex(s, b, extension)
    requires forall i :: 0 <= i < |a| ==> '0' <= a[i] <= '9'
    requires forall i :: 0 <= i < |b| ==> '0' <= b[i] <= '9'
    ensures |b| <= |a|
  {
    var end := |s| - extension - 1;
    forall k | end - |b| <= k < end ensures '0' <= s[k] <= '9' {
      assert s[k] == b[k - (end - |b|)];
    }
    assert |Lower(r)| == |Lower(s)|;
    assert Lower(r)[end - 1 - |a|] == '(';
    assert Lower(s)[end - 1 - |a|] == LowerChar(s[end - 1 - |a|]);
  }

  /** Distinct indices give names that differ even when case is ignored and the stem
      is truncated to make room for the suffix. */
  lemma SuffixNameInjective(name: string, i: nat, j: nat, maximumLength: nat)
    requires i >= 2 && j >= 2
    requires SameName(SuffixName(name, i, maximumLength), SuffixName(name, j, maximumLength))
    ensures i == j
  {
    hide SuffixName, Decimal, ExtName, EndsWithIndex, SameName;
    var r, s := SuffixName(name, i, maximumLength), SuffixName(name, j, maximumLength);
    SameNameSymmetric(r, s);
    var a, b, e := Decimal(i), Decimal(j), |ExtName(name)|;
    SuffixShape(name, i, maximumLength);
    SuffixShape(name, j, maximumLength);
    SameIndexLength(r, s, a, b, e);
    SameIndexLength(s, r, b, a, e);
    SameDigits(r, s, a, b, e);
    DecimalInjective(i, j);
  }

  lemma SameDigits(r: string, s: string, a: string, b: string, extension: nat)
    requires SameName(r, s) && |a| == |b|
    requires EndsWithIndex(r, a, extension) && EndsWithIndex(s, b, extension)
    requires forall i :: 0 <= i < |a| ==> '0' <= a[i] <= '9'
    requires forall i :: 0 <= i < |b| ==> '0' <= b[i] <= '9'
    ensures a == b
  {
    forall k | 0 <= k < |a| ensures a[k] == b[k] {
      assert |Lower(r)| == |Lower(s)|;
      assert Lower(r)[|r| - extension - 1 - |a| + k] == a[k];
      assert Lower(s)[|s| - extension - 1 - |b| + k] == b[k];
    }
  }

  /** The allocation loop: the first of name, "name (2)", ... that is not taken. */
  function FirstFree(name: string, maximumLength: nat, taken: set<string>, index: nat): (r: Option<string>)
    requires 1 <= index <= MAX_ATTEMPTS + 1
    ensures r.Some? ==> Lower(r.value) !in taken
    decreases MAX_ATTEMPTS + 1 - index, taken
  {
    if index > MAX_ATTEMPTS then None
    else
      var candidate := SuffixName(name, index, maximumLength);
      if Lower(candidate) in taken then FirstFree(name, maximumLength, taken, index + 1)
      else Some(candidate)
  }

  lemma {:induction false} ExhaustedMeansTaken(name: string, maximumLength: nat, taken: set<string>, index: nat)
    requires 1 <= index <= MAX_ATTEMPTS + 1
    requires FirstFree(name, maximumLength, taken, index).None?
    ensures forall i :: index <= i <= MAX_ATTEMPTS ==> Lower(SuffixName(name, i, maximumLength)) in taken
    decreases MAX_ATTEMPTS + 1 - index
  {
    if index <= MAX_ATTEMPTS {
      ExhaustedMeansTaken(name, maximumLength, taken, index + 1);
      forall i | index <= i <= MAX_ATTEMPTS ensures Lower(SuffixName(name, i, maximumLength)) in taken {
        if i > index {
          assert index + 1 <= i;
        }
      }
    }
  }

  /** The lower-cased candidates with indices 2..n. */
  ghost function Candidates(name: string, maximumLength: nat, n: nat): set<string> {
    set i | 2 <= i <= n :: Lower(SuffixName(name, i, maximumLength))
  }

  lemma {:induction false} CandidateCount(name: string, maximumLength: nat, n: nat)
    requires n >= 1
    ensures |Candidates(name, maximumLength, n)| == n - 1
  {
    hide SuffixName;
    if n == 1 {
      assert Candidates(name, maximumLength, 1) == {};
    } else {
      CandidateCount(name, maximumLength, n - 1);
      var last := Lower(SuffixName(name, n, maximumLength));
      var before := Candidates(name, maximumLength, n - 1);
      if last in before {
        var i :| 2 <= i <= n - 1 && last == Lower(SuffixName(name, i, maximumLength));
        SuffixNameInjective(name, i, n, maximumLength);
        assert false;
      }
      assert Candidates(name, maximumLength, n) == before + {last};
    }
  }

  lemma {:induction false} SubsetSize<T>(a: set<T>, b: set<T>)
    requires a <= b
    ensures |a| <= |b|
  {
    if a != {} {
      var x :| x in a;
      SubsetSize(a - {x}, b - {x});
    }
  }

  /** The candidates with indices 2..10,000 that are taken. */
  ghost function Conflicting(name: string, maximumLength: nat, taken: set<string>): set<string> {
    taken * Candidates(name, maximumLength, MAX_ATTEMPTS)
  }

  lemma FailureTakesAll(name: string, maximumLength: nat, taken: set<string>)
    requires FirstFree(name, maximumLength, taken, 1).None?
    ensures |Conflicting(name, maximumLength, taken)| == MAX_ATTEMPTS - 1
  {
    hide SuffixName;
    ExhaustedMeansTaken(name, maximumLength, taken, 1);
    CandidateCount(name, maximumLength, MAX_ATTEMPTS);
    assert Conflicting(name, maximumLength, taken) == Candidates(name, maximumLength, MAX_ATTEMPTS);
  }

  /** The search cannot fail while fewer than 9,999 of the taken names are candidates, however
      many others are taken. */
  lemma AllocationSucceeds(name: string, maximumLength: nat, taken: set<string>)
    requires |Conflicting(name, maximumLength, taken)| < MAX_ATTEMPTS - 1
    ensures FirstFree(name, maximumLength, taken, 1).Some?
  {
    if FirstFree(name, maximumLength, taken, 1).None? {
      FailureTakesAll(name, maximumLength, taken);
    }
  }

  /** A failing search means that every suffixed candidate, and the name itself, is taken. */
  lemma AllocationFailsExactly(name: string, maximumLength: nat, taken: set<string>)
    ensures FirstFree(name, maximumLength, taken, 1).None? <==>
            forall i :: 1 <= i <= MAX_ATTEMPTS ==> Lower(SuffixName(name, i, maximumLength)) in taken
  {
    if FirstFree(name, maximumLength, taken, 1).None? {
      ExhaustedMeansTaken(name, maximumLength, taken, 1);
    } else {
      FirstFreeIsCandidate(name, maximumLength, taken, 1);
    }
  }

  lemma {:induction false} FirstFreeIsCandidate(name: string, maximumLength: nat, taken: set<string>, index: nat)
    requires 1 <= index <= MAX_ATTEMPTS + 1
    requires FirstFree(name, maximumLength, taken, index).Some?
    ensures exists i :: index <= i <= MAX_ATTEMPTS
              && FirstFree(name, maximumLength, taken, index).value == SuffixName(name, i, maximumLength)
    decreases MAX_ATTEMPTS + 1 - index
  {
    if Lower(SuffixName(name, index, maximumLength)) in taken {
      FirstFreeIsCandidate(name, maximumLength, taken, index + 1);
    }
  }
}

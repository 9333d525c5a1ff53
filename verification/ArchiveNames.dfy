/** Archive entry names as the preview shows them (src/archive-preview-security.js). */
module ArchiveNames {
  import opened Wrappers

  const MAX_PATH_COMPONENTS := 64

  /** split('/') */
  function FirstSlash(s: string): (i: nat)
    ensures i <= |s|
    ensures forall k :: 0 <= k < i ==> s[k] != '/'
    ensures i < |s| ==> s[i] == '/'
  {
    if s == "" || s[0] == '/' then 0 else 1 + FirstSlash(s[1..])
  }

  function Split(s: string): seq<string> {
    var i := FirstSlash(s);
    if i == |s| then [s] else [s[..i]] + Split(s[i + 1..])
  }

  /** filter(Boolean) */
  function NonEmpty(parts: seq<string>): (r: seq<string>)
    ensures forall p :: p in r <==> p in parts && p != ""
  {
    if parts == [] then [] else (if parts[0] == "" then [] else [parts[0]]) + NonEmpty(parts[1..])
  }

  /** join('/') */
  function Join(parts: seq<string>): string {
    if parts == [] then "" else if |parts| == 1 then parts[0] else parts[0] + "/" + Join(parts[1..])
  }

  /** replaceAll('\\', '/') */
  function ForwardSlashes(s: string): (r: string)
    ensures |r| == |s| && forall i :: 0 <= i < |s| ==> r[i] == if s[i] == '\\' then '/' else s[i]
  {
    seq(|s|, i requires 0 <= i < |s| => if s[i] == '\\' then '/' else s[i])
  }

  /** replace(/^\/+/, '') */
  function WithoutLeadingSlashes(s: string): (r: string)
    ensures r == "" || r[0] != '/'
    ensures forall c :: c in r ==> c in s
  {
    if s != "" && s[0] == '/' then WithoutLeadingSlashes(s[1..]) else s
  }

  /** Control characters, in the ASCII range. */
  predicate Unsafe(c: char) {
    c < ' ' || c == 127 as char
  }

  predicate HasUnsafe(s: string) {
    exists c :: c in s && Unsafe(c)
  }

  datatype ArchiveName = ArchiveName(name: string, components: seq<string>, directory: bool)

  /** Components that can stand in a path. */
  predicate ValidComponent(c: string) {
    c != "" && c != "." && c != ".." && '/' !in c && '\\' !in c && !HasUnsafe(c)
  }

  predicate ValidComponents(components: seq<string>) {
    components != [] && forall c :: c in components ==> ValidComponent(c)
  }

  /** normalizeArchivePreviewName with the default number of components. */
  function Normalize(value: string): (r: Option<ArchiveName>)
    ensures r.Some? ==> ValidComponents(r.value.components) && |r.value.components| <= MAX_PATH_COMPONENTS
    ensures r.Some? ==> r.value.name == Join(r.value.components) + if r.value.directory then "/" else ""
  {
    var normalized := WithoutLeadingSlashes(ForwardSlashes(value));
    if normalized == "" || HasUnsafe(normalized) then None
    else
      var directory := normalized[|normalized| - 1] == '/';
      var components := NonEmpty(Split(normalized));
      if components == [] || |components| > MAX_PATH_COMPONENTS
          || exists c :: c in components && (c == "." || c == "..") then None
      else
        PartsAreClean(normalized);
        Some(ArchiveName(Join(components) + if directory then "/" else "", components, directory))
  }

  /** The parts of a string hold its characters, and no slash. */
  lemma {:induction false} PartsAreClean(s: string)
    ensures forall p, c :: p in Split(s) && c in p ==> c in s && c != '/'
    decreases |s|
  {
    var i := FirstSlash(s);
    if i < |s| {
      PartsAreClean(s[i + 1..]);
    }
  }

  // ----- a normalized name is read back as it was -----

  lemma FirstSlashAfter(a: string, b: string)
    requires '/' !in a
    ensures FirstSlash(a + "/" + b) == |a|
  {
    if a == "" {
      assert (a + "/" + b)[0] == '/';
    } else {
      assert (a + "/" + b)[1..] == a[1..] + "/" + b;
      FirstSlashAfter(a[1..], b);
    }
  }

  lemma FirstSlashNone(a: string)
    requires '/' !in a
    ensures FirstSlash(a) == |a|
  {}

  lemma SplitStep(a: string, rest: string)
    requires '/' !in a
    ensures Split(a + "/" + rest) == [a] + Split(rest)
  {
    FirstSlashAfter(a, rest);
    assert (a + "/" + rest)[|a| + 1..] == rest && (a + "/" + rest)[..|a|] == a;
  }

  lemma SplitOne(part: string, directory: bool)
    requires '/' !in part
    ensures Split(part + if directory then "/" else "") == if directory then [part, ""] else [part]
  {
    FirstSlashNone(part);
    FirstSlashNone("");
    if directory {
      SplitStep(part, "");
      assert part + "/" + "" == part + "/";
    } else {
      assert part + "" == part;
    }
  }

  lemma {:induction false} SplitJoined(parts: seq<string>, directory: bool)
    requires parts != [] && forall p :: p in parts ==> '/' !in p
    ensures Split(Join(parts) + if directory then "/" else "") == parts + if directory then [""] else []
  {
    hide Split, FirstSlash;
    var tail, more := if directory then "/" else "", if directory then [""] else [];
    assert parts[0] in parts;
    if |parts| == 1 {
      assert parts == [parts[0]];
      SplitOne(parts[0], directory);
    } else {
      assert Join(parts) + tail == parts[0] + "/" + (Join(parts[1..]) + tail);
      SplitStep(parts[0], Join(parts[1..]) + tail);
      SplitJoined(parts[1..], directory);
      assert parts + more == [parts[0]] + (parts[1..] + more);
    }
  }

  lemma {:induction false} NonEmptyKeeps(parts: seq<string>, directory: bool)
    requires "" !in parts
    ensures NonEmpty(parts + if directory then [""] else []) == parts
  {
    var tail := if directory then [""] else [];
    if parts == [] {
      assert parts + tail == tail;
      assert NonEmpty([""]) == [] by { assert [""][1..] == []; }
    } else {
      assert (parts + tail)[1..] == parts[1..] + tail && (parts + tail)[0] == parts[0];
      assert parts[0] in parts;
      NonEmptyKeeps(parts[1..], directory);
    }
  }

  lemma {:induction false} JoinedCharacters(parts: seq<string>)
    ensures forall c :: c in Join(parts) ==> c == '/' || exists p :: p in parts && c in p
  {
    if |parts| > 1 {
      JoinedCharacters(parts[1..]);
    }
  }

  lemma JoinedIsClean(components: seq<string>, directory: bool)
    requires ValidComponents(components)
    ensures var s := Join(components) + if directory then "/" else "";
            && s != "" && s[0] != '/' && '\\' !in s && !HasUnsafe(s) && (s[|s| - 1] == '/' <==> directory)
  {
    JoinedCharacters(components);
    JoinEnds(components);
  }

  lemma {:induction false} JoinEnds(parts: seq<string>)
    requires ValidComponents(parts)
    ensures var s := Join(parts); s != "" && s[0] != '/' && s[|s| - 1] != '/'
  {
    assert parts[0] in parts;
    if |parts| > 1 {
      JoinEnds(parts[1..]);
    }
  }

  lemma NoBackslash(s: string)
    requires '\\' !in s
    ensures ForwardSlashes(s) == s
  {}

  /** Every emitted name parses to the components it was made from, on either side. */
  lemma NormalizeRoundTrip(components: seq<string>, directory: bool)
    requires ValidComponents(components) && |components| <= MAX_PATH_COMPONENTS
    ensures var name := Join(components) + if directory then "/" else "";
            Normalize(name) == Some(ArchiveName(name, components, directory))
  {
    hide Join, Split, FirstSlash, NonEmpty, HasUnsafe;
    var name := Join(components) + if directory then "/" else "";
    JoinedIsClean(components, directory);
    NoBackslash(name);
    NormalizeClean(name, components, directory);
  }

  /** A name without leading slashes, backslashes and control characters. */
  lemma NormalizeClean(name: string, components: seq<string>, directory: bool)
    requires ValidComponents(components) && |components| <= MAX_PATH_COMPONENTS
    requires name == Join(components) + if directory then "/" else ""
    requires name != "" && name[0] != '/' && ForwardSlashes(name) == name && !HasUnsafe(name)
    requires name[|name| - 1] == '/' <==> directory
    ensures Normalize(name) == Some(ArchiveName(name, components, directory))
  {
    hide Join, Split, FirstSlash, NonEmpty, HasUnsafe, ForwardSlashes;
    SplitJoined(components, directory);
    NonEmptyKeeps(components, directory);
    assert forall c :: c in components ==> ValidComponent(c);
  }

  lemma NormalizeIdempotent(value: string)
    requires Normalize(value).Some?
    ensures Normalize(Normalize(value).value.name) == Normalize(value)
  {
    hide Normalize;
    NormalizeRoundTrip(Normalize(value).value.components, Normalize(value).value.directory);
  }

  // ----- joined prefixes are distinct -----

  lemma {:induction false} JoinInjective(a: seq<string>, b: seq<string>)
    requires ValidComponents(a) && ValidComponents(b) && Join(a) == Join(b)
    ensures a == b
  {
    SplitJoined(a, false);
    SplitJoined(b, false);
    assert a + [] == a && b + [] == b;
    assert Join(a) + "" == Join(a) && Join(b) + "" == Join(b);
  }

  lemma {:induction false} JoinNext(parts: seq<string>, next: string)
    requires parts != []
    ensures Join(parts + [next]) == Join(parts) + "/" + next
  {
    if |parts| == 1 {
      assert (parts + [next])[1..] == [next];
    } else {
      assert (parts + [next])[1..] == parts[1..] + [next];
      JoinNext(parts[1..], next);
    }
  }
}

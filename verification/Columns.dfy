/** Spreadsheet column letters: the label of a column and the number of a label
    (ST_CellRef, section 18.18.7 of ECMA-376 Part 1; public/js/app.js, src/file-preview.js). */
module Columns {

  predicate IsLabel(s: string) {
    forall i :: 0 <= i < |s| ==> 'A' <= s[i] <= 'Z'
  }

  function Letter(d: nat): char
    requires d < 26
  {
    'A' + d as char
  }

  /** Bijective base 26, most significant letter first. */
  function Label(n: nat): (s: string)
    ensures IsLabel(s) && (s == "" <==> n == 0)
  {
    if n == 0 then "" else Label((n - 1) / 26) + [Letter((n - 1) % 26)]
  }

  function Number(s: string): nat
    requires IsLabel(s)
  {
    if s == "" then 0 else Number(s[..|s| - 1]) * 26 + (s[|s| - 1] as int - 64)
  }

  function Upper(s: string): (r: string)
    ensures |r| == |s| && forall i :: 0 <= i < |s| ==> r[i] == if 'a' <= s[i] <= 'z' then (s[i] as int - 32) as char
             else s[i]
  {
    seq(|s|, i requires 0 <= i < |s| => if 'a' <= s[i] <= 'z' then (s[i] as int - 32) as char else s[i])
  }

  lemma NumberOfAppended(s: string, c: char)
    requires IsLabel(s) && 'A' <= c <= 'Z'
    ensures Number(s + [c]) == Number(s) * 26 + (c as int - 64)
  {
    assert (s + [c])[..|s|] == s;
  }

  /** Every column survives printing and parsing. */
  lemma {:induction false} NumberOfLabel(n: nat)
    ensures Number(Label(n)) == n
    decreases n
  {
    if n > 0 {
      NumberOfLabel((n - 1) / 26);
      NumberOfAppended(Label((n - 1) / 26), Letter((n - 1) % 26));
    }
  }

  /** Every non-empty label survives parsing and printing. */
  lemma {:induction false} LabelOfNumber(s: string)
    requires IsLabel(s)
    ensures Label(Number(s)) == s
  {
    if s != "" {
      var rest, c := s[..|s| - 1], s[|s| - 1];
      LabelOfNumber(rest);
      assert Number(s) - 1 == Number(rest) * 26 + (c as int - 65);
      assert (Number(s) - 1) / 26 == Number(rest) && (Number(s) - 1) % 26 == c as int - 65;
      assert Letter(c as int - 65) == c;
    }
  }

  method ColumnLabel(columnNumber: int) returns (letters: string)
    ensures columnNumber >= 1 ==> letters == Label(columnNumber)
    ensures columnNumber < 1 ==> letters == "A"
  {
    var value := columnNumber;
    letters := "";
    while value > 0
      invariant columnNumber >= 1 ==> value >= 0 && Label(columnNumber) == Label(value) + letters
      invariant columnNumber < 1 ==> value == columnNumber && letters == ""
    {
      assert Label(value) + letters == Label((value - 1) / 26) + ([Letter((value - 1) % 26)] + letters);
      value := value - 1;
      letters := [Letter(value % 26)] + letters;
      value := value / 26;
    }
    if letters == "" {
      letters := "A";
    }
  }

  /** Letters of either case. */
  method ToColumnNumber(letters: string) returns (value: nat)
    requires IsLabel(Upper(letters))
    ensures value == Number(Upper(letters))
  {
    var upper := Upper(letters);
    value := 0;
    var i := 0;
    while i < |upper|
      invariant 0 <= i <= |upper| && value == Number(upper[..i])
    {
      assert upper[..i + 1] == upper[..i] + [upper[i]];
      NumberOfAppended(upper[..i], upper[i]);
      value := value * 26 + (upper[i] as int - 64);
      i := i + 1;
    }
    assert upper[..i] == upper;
  }
}

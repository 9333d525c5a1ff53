/** Truncation of UTF-16 text to a number of UTF-8 bytes, and the text budget of a spreadsheet
    preview (src/file-preview.js; section 3 of RFC 3629). */
module Utf8Truncation {
  type Unit = u: int | 0 <= u < 0x1_0000

  const XLSX_MAX_ROWS := 200
  const XLSX_MAX_COLUMNS := 50
  const XLSX_MAX_CELL_TEXT_BYTES := 4096
  const XLSX_MAX_RESPONSE_TEXT_BYTES := 1024 * 1024

  predicate High(u: Unit) { 0xd800 <= u < 0xdc00 }
  predicate Low(u: Unit) { 0xdc00 <= u < 0xe000 }

  /** A unit by itself; a lone surrogate becomes U+FFFD, which takes three bytes. */
  function UnitBytes(u: Unit): nat {
    if u < 0x80 then 1 else if u < 0x800 then 2 else 3
  }

  /** Buffer.byteLength(text, 'utf8') */
  function ByteLength(text: seq<Unit>): nat {
    if text == [] then 0
    else if |text| >= 2 && High(text[0]) && Low(text[1]) then 4 + ByteLength(text[2..])
    else UnitBytes(text[0]) + ByteLength(text[1..])
  }

  // ----- growing prefixes -----

  /** What one more unit adds: the second half of a pair completes the three bytes of its first
      half to four. */
  function Added(text: seq<Unit>, u: Unit): nat {
    if text != [] && High(text[|text| - 1]) && Low(u) then 1 else UnitBytes(u)
  }

  lemma {:induction false} AppendUnit(text: seq<Unit>, u: Unit)
    ensures ByteLength(text + [u]) == ByteLength(text) + Added(text, u)
  {
    var longer := text + [u];
    if text == [] {
      assert longer[1..] == [];
    } else if |text| == 1 {
      assert longer[1..] == [u] && [u][1..] == [] && longer[2..] == [] && text[1..] == [];
    } else if High(text[0]) && Low(text[1]) {
      assert longer[2..] == text[2..] + [u];
      AppendUnit(text[2..], u);
    } else {
      assert longer[1..] == text[1..] + [u];
      AppendUnit(text[1..], u);
    }
  }

  /** Longer prefixes take no fewer bytes, also where a surrogate pair is split. */
  lemma {:induction false} PrefixMonotone(text: seq<Unit>, i: nat, j: nat)
    requires i <= j <= |text|
    ensures ByteLength(text[..i]) <= ByteLength(text[..j])
    decreases j - i
  {
    if i < j {
      PrefixMonotone(text, i, j - 1);
      assert text[..j] == text[..j - 1] + [text[j - 1]];
      AppendUnit(text[..j - 1], text[j - 1]);
    }
  }

  // ----- truncation -----

  /** n units are the longest prefix that fits. */
  ghost predicate LongestFit(text: seq<Unit>, maxBytes: int, n: nat) {
    && n <= |text|
    && (ByteLength(text[..n]) <= maxBytes || n == 0)
    && forall j :: n < j <= |text| ==> ByteLength(text[..j]) > maxBytes
  }

  datatype Truncated = Truncated(value: seq<Unit>, truncated: bool, bytes: nat)

  ghost predicate IsTruncation(text: seq<Unit>, maxBytes: int, t: Truncated) {
    && LongestFit(text, maxBytes, |t.value|) && t.value == text[..|t.value|]
    && t.bytes == ByteLength(t.value) && (t.truncated <==> |t.value| < |text|)
  }

  lemma {:induction false} Positive(text: seq<Unit>)
    ensures text != [] ==> ByteLength(text) > 0
  {}

  method TruncateUtf8(text: seq<Unit>, maxBytes: int) returns (t: Truncated)
    ensures IsTruncation(text, maxBytes, t)
    ensures t.bytes <= maxBytes || t.bytes == 0
  {
    hide ByteLength;
    EmptyPrefix(text);
    if maxBytes <= 0 {
      forall j | 0 < j <= |text| ensures ByteLength(text[..j]) > maxBytes {
        Positive(text[..j]);
      }
      return Truncated([], |text| > 0, 0);
    }
    var size := ByteLength(text);
    assert text[..|text|] == text;
    if size <= maxBytes {
      return Truncated(text, false, size);
    }
    var low, high := 0, |text|;
    while low < high
      invariant 0 <= low <= high <= |text|
      invariant ByteLength(text[..low]) <= maxBytes
      invariant forall j :: high < j <= |text| ==> ByteLength(text[..j]) > maxBytes
      decreases high - low
    {
      var middle := (low + high + 1) / 2;
      if ByteLength(text[..middle]) <= maxBytes {
        low := middle;
      } else {
        forall j | middle <= j <= |text| ensures ByteLength(text[..j]) > maxBytes {
          PrefixMonotone(text, middle, j);
        }
        high := middle - 1;
      }
    }
    var result := text[..low];
    t := Truncated(result, true, ByteLength(result));
  }

  lemma EmptyPrefix(text: seq<Unit>)
    ensures text[..0] == [] && ByteLength([]) == 0
  {}

  /** Truncating twice is truncating to the smaller number of bytes. */
  lemma TruncateTwice(text: seq<Unit>, a: int, b: int, first: Truncated, second: Truncated)
    requires IsTruncation(text, a, first) && IsTruncation(first.value, b, second)
    ensures LongestFit(text, if a < b then a else b, |second.value|)
    ensures second.value == text[..|second.value|]
    ensures first.truncated || second.truncated <==> |second.value| < |text|
  {
    hide ByteLength;
    var n, m := |first.value|, |second.value|;
    forall j | 0 <= j <= n ensures first.value[..j] == text[..j] {}
    EmptyPrefix(text);
    PrefixMonotone(text, m, n);
    forall j | m < j <= |text| ensures ByteLength(text[..j]) > if a < b then a else b {
      if j <= n {
        assert ByteLength(first.value[..j]) > b;
      }
    }
  }

  // ----- the grid -----

  ghost function RowBytes(cells: seq<seq<Unit>>): nat {
    if cells == [] then 0 else RowBytes(cells[..|cells| - 1]) + ByteLength(cells[|cells| - 1])
  }

  ghost function GridBytes(rows: seq<seq<seq<Unit>>>): nat {
    if rows == [] then 0 else GridBytes(rows[..|rows| - 1]) + RowBytes(rows[|rows| - 1])
  }

  /** The cell is the longest prefix of its text that fits both limits. */
  ghost predicate CellFits(text: seq<Unit>, value: seq<Unit>, remaining: nat) {
    && |value| <= |text| && value == text[..|value|]
    && LongestFit(text, if XLSX_MAX_CELL_TEXT_BYTES < remaining then XLSX_MAX_CELL_TEXT_BYTES else remaining, |value|)
  }

  method TruncateCell(text: seq<Unit>, remaining: nat) returns (value: seq<Unit>, left: nat, truncated: bool)
    ensures |value| <= |text| && CellFits(text, value, remaining)
    ensures left + ByteLength(value) == remaining && ByteLength(value) <= XLSX_MAX_CELL_TEXT_BYTES
    ensures truncated <==> value != text
  {
    hide ByteLength, LongestFit;
    var perCell := TruncateUtf8(text, XLSX_MAX_CELL_TEXT_BYTES);
    var withinResponse := TruncateUtf8(perCell.value, remaining);
    TruncateTwice(text, XLSX_MAX_CELL_TEXT_BYTES, remaining, perCell, withinResponse);
    TruncationLength(text, XLSX_MAX_CELL_TEXT_BYTES, perCell);
    TruncationLength(perCell.value, remaining, withinResponse);
    PrefixMonotone(perCell.value, |withinResponse.value|, |perCell.value|);
    assert perCell.value[..|perCell.value|] == perCell.value;
    assert text[..|text|] == text;
    value, left := withinResponse.value, remaining - withinResponse.bytes;
    truncated := perCell.truncated || withinResponse.truncated;
  }

  lemma TruncationLength(text: seq<Unit>, maxBytes: int, t: Truncated)
    requires IsTruncation(text, maxBytes, t)
    ensures |t.value| <= |text|
  {}

  method TruncateRow(texts: seq<seq<Unit>>, budget: nat) returns (cells: seq<seq<Unit>>, left: nat, truncated: bool)
    ensures |cells| == |texts| && left + RowBytes(cells) == budget
    ensures forall c :: 0 <= c < |texts| ==> cells[c] <= texts[c] && ByteLength(cells[c]) <= XLSX_MAX_CELL_TEXT_BYTES
    ensures truncated <==> exists c :: 0 <= c < |texts| && cells[c] != texts[c]
  {
    hide ByteLength, LongestFit;
    cells, left, truncated := [], budget, false;
    while |cells| < |texts|
      invariant |cells| <= |texts| && left + RowBytes(cells) == budget
      invariant forall c :: 0 <= c < |cells| ==>
               cells[c] <= texts[c] && ByteLength(cells[c]) <= XLSX_MAX_CELL_TEXT_BYTES
      invariant truncated <==> exists c :: 0 <= c < |cells| && cells[c] != texts[c]
    {
      var value, cut;
      value, left, cut := TruncateCell(texts[|cells|], left);
      truncated := truncated || cut;
      assert (cells + [value])[..|cells|] == cells;
      cells := cells + [value];
    }
  }

  /** The visible part of a sheet: every text is cut to a prefix, and all of them together take no
      more bytes than a response may. */
  method BuildGrid(texts: seq<seq<seq<Unit>>>) returns (rows: seq<seq<seq<Unit>>>, truncated: bool)
    requires forall r :: 0 <= r < |texts| ==> |texts[r]| <= XLSX_MAX_COLUMNS
    requires |texts| <= XLSX_MAX_ROWS
    ensures |rows| == |texts| && GridBytes(rows) <= XLSX_MAX_RESPONSE_TEXT_BYTES
    ensures forall r :: 0 <= r < |texts| ==> |rows[r]| == |texts[r]|
    ensures forall r, c :: 0 <= r < |texts| && 0 <= c < |texts[r]| ==>
              rows[r][c] <= texts[r][c] && ByteLength(rows[r][c]) <= XLSX_MAX_CELL_TEXT_BYTES
    ensures truncated <==> exists r :: 0 <= r < |texts| && rows[r] != texts[r]
  {
    hide ByteLength, RowBytes;
    var remaining: nat := XLSX_MAX_RESPONSE_TEXT_BYTES;
    rows, truncated := [], false;
    while |rows| < |texts|
      invariant |rows| <= |texts| && remaining + GridBytes(rows) == XLSX_MAX_RESPONSE_TEXT_BYTES
      invariant forall r :: 0 <= r < |rows| ==> |rows[r]| == |texts[r]|
      invariant forall r, c :: 0 <= r < |rows| && 0 <= c < |texts[r]| ==>
                  rows[r][c] <= texts[r][c] && ByteLength(rows[r][c]) <= XLSX_MAX_CELL_TEXT_BYTES
      invariant truncated <==> exists r :: 0 <= r < |rows| && rows[r] != texts[r]
    {
      var cells, cut;
      cells, remaining, cut := TruncateRow(texts[|rows|], remaining);
      truncated := truncated || cut;
      assert cut <==> cells != texts[|rows|];
      assert (rows + [cells])[..|rows|] == rows;
      rows := rows + [cells];
    }
  }
}

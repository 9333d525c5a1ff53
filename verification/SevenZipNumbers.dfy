/** The variable-length integers of 7z headers: what Cursor.number reads and the canonical
    encoding that 7zFormat.txt gives ("Notes about Notation and encoding"). */
module SevenZipNumbers {
  type Byte = b: int | 0 <= b < 256

  datatype Error = INVALID_7Z | METADATA_LIMIT

  /** A value and the offset after it, or the error thrown. */
  datatype Outcome<T> = Ok(value: T, next: nat) | Err(error: Error)

  const MAX_SAFE_INTEGER: nat := 9_007_199_254_740_991

  function Pow256(n: nat): (p: nat)
    ensures p >= 1
  {
    if n == 0 then 1 else 256 * Pow256(n - 1)
  }

  function Pow2(n: nat): (p: nat)
    ensures p >= 1
  {
    if n == 0 then 1 else 2 * Pow2(n - 1)
  }

  // ----- little-endian bytes -----

  /** The value of bytes with the least significant one first. */
  function LittleEndian(bytes: seq<Byte>): nat {
    if bytes == [] then 0 else bytes[0] + 256 * LittleEndian(bytes[1..])
  }

  function ToLittleEndian(value: nat, n: nat): (bytes: seq<Byte>)
    ensures |bytes| == n
    decreases n
  {
    if n == 0 then [] else [value % 256] + ToLittleEndian(value / 256, n - 1)
  }

  lemma {:induction false} LittleEndianInverts(value: nat, n: nat)
    ensures LittleEndian(ToLittleEndian(value, n)) == value % Pow256(n)
    decreases n
  {
    if n > 0 {
      LittleEndianInverts(value / 256, n - 1);
      SplitModulo(value, Pow256(n - 1));
    } else {
      assert value % 1 == 0;
    }
  }

  lemma SplitModulo(value: nat, p: nat)
    requires p >= 1
    ensures value % (256 * p) == value % 256 + 256 * ((value / 256) % p)
  {
    var q := value / 256;
    var a, b := q / p, q % p;
    assert q == a * p + b;
    assert value == 256 * q + value % 256;
    var r := 256 * b + value % 256;
    assert value == a * (256 * p) + r by {
      assert 256 * q == 256 * (a * p) + 256 * b;
      assert 256 * (a * p) == a * (256 * p);
    }
    assert 0 <= r < 256 * p by {
      assert b <= p - 1;
      assert 256 * b <= 256 * (p - 1);
    }
    DivModUnique(value, 256 * p, a, r);
  }

  lemma DivModUnique(x: nat, d: nat, q: nat, r: nat)
    requires d >= 1 && x == q * d + r && r < d
    ensures x / d == q && x % d == r
  {
    var k := x / d - q;
    assert k * d == r - x % d by {
      assert x == (x / d) * d + x % d;
    }
    if k != 0 {
      MultipleIsLarge(k, d);
      assert false;
    }
  }

  lemma MultipleIsLarge(k: int, d: int)
    requires k != 0 && d >= 1
    ensures k * d >= d || k * d <= -d
  {
    if k > 0 {
      assert (k - 1) * d >= 0;
    } else {
      assert (-1 - k) * d >= 0;
    }
  }

  // ----- the first byte -----

  /** (first & marker) != 0 for a marker that is a power of two. */
  predicate HasBit(first: Byte, marker: nat)
    requires marker >= 1
  {
    (first / marker) % 2 == 1
  }

  /** How many leading one bits the byte has, from the given marker down. */
  function LeadingOnes(first: Byte, n: nat): (r: nat)
    requires n <= 8
    ensures r <= n
    decreases n
  {
    if n == 0 || !HasBit(first, Pow2(n - 1)) then 0 else 1 + LeadingOnes(first, n - 1)
  }

  // ----- decoding -----

  predicate Available(b: seq<Byte>, o: nat, length: nat) {
    o + length <= |b|
  }

  function CheckMaximum(value: nat, next: nat, maximum: nat): Outcome<nat> {
    if value > MAX_SAFE_INTEGER then Err(INVALID_7Z)
    else if value > maximum then Err(METADATA_LIMIT)
    else Ok(value, next)
  }

  /** Cursor.number */
  function ReadNumber(b: seq<Byte>, o: nat, maximum: nat): (r: Outcome<nat>)
    ensures r.Ok? ==> o < r.next <= |b| && r.value <= maximum && r.value <= MAX_SAFE_INTEGER
  {
    if !Available(b, o, 1) then Err(INVALID_7Z)
    else if b[o] == 255 then
      if !Available(b, o + 1, 8) then Err(INVALID_7Z)
      else CheckMaximum(LittleEndian(b[o + 1..o + 9]), o + 9, maximum)
    else
      var extra := LeadingOnes(b[o], 8);
      if extra > 7 || !Available(b, o + 1, extra) then Err(INVALID_7Z)
      else
        var high := b[o] % Pow2(7 - extra);
        CheckMaximum(high * Pow256(extra) + LittleEndian(b[o + 1..o + 1 + extra]), o + 1 + extra, maximum)
  }

  // ----- the canonical encoding -----

  /** The number of extra bytes: the first n with room for the value in 7 - n + 8n bits. */
  function ExtraBytes(value: nat, n: nat): (r: nat)
    requires n <= 8
    ensures n <= r <= 8
    ensures r < 8 ==> value < Pow2(7 - r) * Pow256(r)
    decreases 8 - n
  {
    if n == 8 || value < Pow2(7 - n) * Pow256(n) then n else ExtraBytes(value, n + 1)
  }

  /** n ones and a zero, then the high bits of the value. */
  function FirstByte(high: nat, extra: nat): (r: int)
    requires extra <= 7 && high < Pow2(7 - extra)
    ensures 0 <= r < 255
  {
    PowersOfTwo();
    256 - 2 * Pow2(7 - extra) + high
  }

  lemma PowersOfTwo()
    ensures Pow2(0) == 1 && Pow2(1) == 2 && Pow2(2) == 4 && Pow2(3) == 8
    ensures Pow2(4) == 16 && Pow2(5) == 32 && Pow2(6) == 64 && Pow2(7) == 128
  {
    assert Pow2(1) == 2 && Pow2(2) == 4 && Pow2(3) == 8 && Pow2(4) == 16;
    assert Pow2(5) == 32 && Pow2(6) == 64;
  }

  function EncodeNumber(value: nat): seq<Byte>
    requires value <= MAX_SAFE_INTEGER
  {
    var extra := ExtraBytes(value, 0);
    if extra == 8 then [255] + ToLittleEndian(value, 8) else EncodeShort(value, extra)
  }

  function EncodeShort(value: nat, extra: nat): seq<Byte>
    requires extra <= 7 && value < Pow2(7 - extra) * Pow256(extra)
  {
    [FirstByte(HighPart(value, Pow256(extra), Pow2(7 - extra)), extra)] + ToLittleEndian(value, extra)
  }

  /** What the first byte holds of a value below m * p, beside the bytes worth p. */
  function HighPart(value: nat, p: nat, m: nat): (high: nat)
    requires p >= 1 && value < m * p
    ensures high < m
  {
    HighBits(value, p, m);
    value / p
  }

  lemma HighBits(value: nat, p: nat, m: nat)
    requires p >= 1 && value < m * p
    ensures value / p < m
  {}

  /** The first byte says how many bytes follow, and gives back the high bits. */
  lemma FirstByteReads(high: nat, extra: nat)
    requires extra <= 7 && high < Pow2(7 - extra)
    ensures LeadingOnes(FirstByte(high, extra), 8) == extra
    ensures FirstByte(high, extra) % Pow2(7 - extra) == high
  {
    hide LeadingOnes;
    PowersOfTwo();
    var first, m := FirstByte(high, extra), Pow2(7 - extra);
    LeadingOnesAre(high, extra, 0);
    assert first == (256 / m - 2) * m + high by {
      assert extra == 0 || extra == 1 || extra == 2 || extra == 3 || extra == 4 || extra == 5 || extra == 6
          || extra == 7;
    }
    DivModUnique(first, m, 256 / m - 2, high);
  }

  /** From the k-th bit on: the remaining ones, then a zero. */
  lemma {:induction false} LeadingOnesAre(high: nat, extra: nat, k: nat)
    requires k <= extra <= 7 && high < Pow2(7 - extra)
    ensures LeadingOnes(FirstByte(high, extra), 8 - k) == extra - k
    decreases extra - k
  {
    PowersOfTwo();
    BitOfFirstByte(high, extra, k);
    if k < extra {
      LeadingOnesAre(high, extra, k + 1);
    }
  }

  lemma BitOfFirstByte(high: nat, extra: nat, k: nat)
    requires k <= extra <= 7 && high < Pow2(7 - extra)
    ensures HasBit(FirstByte(high, extra), Pow2(7 - k)) <==> k < extra
  {
    hide Pow2, HasBit;
    var first, m, d, q := FirstByte(high, extra), Pow2(7 - extra), Pow2(7 - k), Pow2(k);
    ComplementaryPowers(k);
    if k < extra {
      HalvingPowers(k, extra);
      assert first == (2 * q - 1) * d + (d - 2 * m + high);
      BitOfQuotient(first, d, 2 * q - 1, d - 2 * m + high);
    } else {
      assert first == (2 * q - 2) * d + high;
      BitOfQuotient(first, d, 2 * q - 2, high);
    }
  }

  lemma BitOfQuotient(first: Byte, d: nat, quotient: nat, rest: nat)
    requires d >= 1 && first == quotient * d + rest && rest < d
    ensures HasBit(first, d) <==> quotient % 2 == 1
  {
    DivModUnique(first, d, quotient, rest);
  }

  lemma ComplementaryPowers(k: nat)
    requires k <= 7
    ensures 2 * (Pow2(k) * Pow2(7 - k)) == 256
  {
    PowersOfTwo();
    assert k == 0 || k == 1 || k == 2 || k == 3 || k == 4 || k == 5 || k == 6 || k == 7;
  }

  lemma HalvingPowers(k: nat, extra: nat)
    requires k < extra <= 7
    ensures Pow2(7 - k) >= 2 * Pow2(7 - extra)
  {
    PowersOfTwo();
  }

  lemma ShortRoundTrip(before: seq<Byte>, value: nat, extra: nat, after: seq<Byte>, maximum: nat)
    requires extra <= 7 && value < Pow2(7 - extra) * Pow256(extra) && value <= MAX_SAFE_INTEGER && value <= maximum
    ensures ReadNumber(before + EncodeShort(value, extra) + after, |before|, maximum) == Ok(value, |before| + 1 + extra)
  {
    hide LeadingOnes, FirstByte, LittleEndian, ToLittleEndian, Pow256, Pow2;
    var b, o := before + EncodeShort(value, extra) + after, |before|;
    var high, p := value / Pow256(extra), Pow256(extra);
    HighBits(value, p, Pow2(7 - extra));
    FirstByteReads(high, extra);
    LittleEndianInverts(value, extra);
    assert b[o] == FirstByte(high, extra);
    assert b[o + 1..o + 1 + extra] == ToLittleEndian(value, extra);
    Recombined(value, p);
  }

  lemma Recombined(value: nat, p: nat)
    requires p >= 1
    ensures (value / p) * p + value % p == value
  {}

  /** Reading inverts the encoding of every value up to 2^53 - 1, takes exactly the encoded
      bytes and does not look at what follows. */
  lemma NumberRoundTrip(before: seq<Byte>, value: nat, after: seq<Byte>, maximum: nat)
    requires value <= MAX_SAFE_INTEGER && value <= maximum
    ensures ReadNumber(before + EncodeNumber(value) + after, |before|, maximum)
             == Ok(value, |before| + |EncodeNumber(value)|)
  {
    hide ExtraBytes, LittleEndian, ToLittleEndian, EncodeShort;
    var extra := ExtraBytes(value, 0);
    if extra == 8 {
      var b, o := before + EncodeNumber(value) + after, |before|;
      assert b[o] == 255 && b[o + 1..o + 9] == ToLittleEndian(value, 8);
      LittleEndianInverts(value, 8);
      EightBytesHold(value);
    } else {
      EncodeShortLength(value, extra);
      ShortRoundTrip(before, value, extra, after, maximum);
    }
  }

  lemma EncodeShortLength(value: nat, extra: nat)
    requires extra <= 7 && value < Pow2(7 - extra) * Pow256(extra)
    ensures |EncodeShort(value, extra)| == 1 + extra
  {}

  lemma EightBytesHold(value: nat)
    requires value <= MAX_SAFE_INTEGER
    ensures value % Pow256(8) == value
  {
    assert Pow256(1) == 256 && Pow256(2) == 65536 && Pow256(3) == 16777216 && Pow256(4) == 4294967296;
    assert Pow256(5) == 1099511627776 && Pow256(6) == 281474976710656 && Pow256(7) == 72057594037927936;
    assert value < Pow256(8);
    DivModUnique(value, Pow256(8), 0, value);
  }
}

/** The CRC of 7z headers: a table of 256 words against the bit-at-a-time definition of
    section 8 of RFC 1952 (src/seven-zip-parser-worker.js). */
module Crc32 {
  const POLYNOMIAL: bv32 := 0xedb8_8320

  function Xor(a: bv32, b: bv32): bv32 { a ^ b }

  /** >>> 1 */
  function Half(a: bv32): bv32 { a >> 1 }

  /** & 1 */
  predicate Odd(a: bv32) { a & 1 != 0 }

  function LowByte(a: bv32): bv32 { a & 0xff }

  /** One shift of the register: the bit that falls out decides whether the polynomial is added. */
  function Shift(value: bv32): bv32 {
    if Odd(value) then Xor(POLYNOMIAL, Half(value)) else Half(value)
  }

  function Shifts(value: bv32, n: nat): bv32
    decreases n
  {
    if n == 0 then value else Shifts(Shift(value), n - 1)
  }

  // ----- the definition: one message bit at a time, least significant bit first -----

  function AddBit(register: bv32, bit: bool): bv32 {
    if Odd(register) != bit then Xor(POLYNOMIAL, Half(register)) else Half(register)
  }

  /** The n lowest bits of a byte. */
  function AddBits(register: bv32, bits: bv32, n: nat): bv32
    decreases n
  {
    if n == 0 then register else AddBits(AddBit(register, Odd(bits)), Half(bits), n - 1)
  }

  function AddBytes(register: bv32, bytes: seq<bv8>): bv32 {
    if bytes == [] then register
    else AddBits(AddBytes(register, bytes[..|bytes| - 1]), bytes[|bytes| - 1] as bv32, 8)
  }

  /** The register starts with all ones and is inverted at the end. */
  function Crc(bytes: seq<bv8>): bv32 {
    AddBytes(0xffff_ffff, bytes) ^ 0xffff_ffff
  }

  // ----- words -----

  lemma HalfOfXor(a: bv32, b: bv32)
    ensures Half(Xor(a, b)) == Xor(Half(a), Half(b))
  {}

  lemma OddOfXor(a: bv32, b: bv32)
    ensures Odd(Xor(a, b)) <==> (Odd(a) != Odd(b))
  {
    assert (a ^ b) & 1 == (a & 1) ^ (b & 1);
    assert a & 1 == 0 || a & 1 == 1;
    assert b & 1 == 0 || b & 1 == 1;
  }

  lemma XorAssociative(a: bv32, b: bv32, c: bv32)
    ensures Xor(Xor(a, b), c) == Xor(a, Xor(b, c))
  {}

  lemma XorCommutes(a: bv32, b: bv32)
    ensures Xor(a, b) == Xor(b, a)
  {}

  lemma XorZero(a: bv32)
    ensures Xor(a, 0) == a && Xor(0, a) == a && Xor(a, a) == 0
  {}

  /** Adding c on both sides cancels out. */
  lemma XorCancels(a: bv32, b: bv32, c: bv32)
    ensures Xor(Xor(c, a), Xor(c, b)) == Xor(a, b)
  {
    hide Xor;
    XorCommutes(c, a);
    XorAssociative(a, c, Xor(c, b));
    XorAssociative(c, c, b);
    XorZero(c);
    XorZero(b);
  }

  // ----- the shift is linear -----

  lemma ShiftIsLinear(a: bv32, b: bv32)
    ensures Shift(Xor(a, b)) == Xor(Shift(a), Shift(b))
  {
    hide Xor, Half, Odd;
    HalfOfXor(a, b);
    OddOfXor(a, b);
    XorCancels(Half(a), Half(b), POLYNOMIAL);
    XorAssociative(POLYNOMIAL, Half(a), Half(b));
    XorCommutes(Half(a), Xor(POLYNOMIAL, Half(b)));
    XorAssociative(POLYNOMIAL, Half(b), Half(a));
    XorCommutes(Half(b), Half(a));
  }

  lemma {:induction false} ShiftsAreLinear(a: bv32, b: bv32, n: nat)
    ensures Shifts(Xor(a, b), n) == Xor(Shifts(a, n), Shifts(b, n))
    decreases n
  {
    hide Xor, Shift;
    if n > 0 {
      ShiftIsLinear(a, b);
      ShiftsAreLinear(Shift(a), Shift(b), n - 1);
    }
  }

  function Halves(value: bv32, n: nat): bv32
    decreases n
  {
    if n == 0 then value else Halves(Half(value), n - 1)
  }

  /** While the bits that fall out are zero, shifting only moves the word down. */
  ghost predicate ZeroBits(value: bv32, n: nat) {
    n == 0 || (!Odd(value) && ZeroBits(Half(value), n - 1))
  }

  lemma {:induction false} ZeroBitsMoveDown(value: bv32, n: nat)
    requires ZeroBits(value, n)
    ensures Shifts(value, n) == Halves(value, n)
    decreases n
  {
    hide Half, Odd;
    if n > 0 {
      ZeroBitsMoveDown(Half(value), n - 1);
    }
  }

  lemma UpperHasZeroBits(value: bv32)
    requires value & 0xff == 0
    ensures ZeroBits(value, 8)
  {
    HalvesAre(value);
    assert value & 1 == 0 && (value >> 1) & 1 == 0 && (value >> 2) & 1 == 0 && (value >> 3) & 1 == 0;
    assert (value >> 4) & 1 == 0 && (value >> 5) & 1 == 0 && (value >> 6) & 1 == 0 && (value >> 7) & 1 == 0;
    hide Half;
    var v1 := Half(value);
    var v2 := Half(v1);
    var v3 := Half(v2);
    var v4 := Half(v3);
    var v5 := Half(v4);
    var v6 := Half(v5);
    var v7 := Half(v6);
    assert ZeroBits(Half(v7), 0);
    assert ZeroBits(v7, 1);
    assert ZeroBits(v6, 2);
    assert ZeroBits(v5, 3);
    assert ZeroBits(v4, 4);
    assert ZeroBits(v3, 5);
    assert ZeroBits(v2, 6);
    assert ZeroBits(v1, 7);
  }

  lemma HalvesAre(value: bv32)
    ensures Half(value) == value >> 1 && Half(value >> 1) == value >> 2 && Half(value >> 2) == value >> 3
    ensures Half(value >> 3) == value >> 4 && Half(value >> 4) == value >> 5 && Half(value >> 5) == value >> 6
    ensures Half(value >> 6) == value >> 7 && Half(value >> 7) == value >> 8
  {}

  lemma EightHalves(value: bv32)
    ensures Halves(value, 8) == value >> 8
  {
    HalvesAre(value);
    hide Half;
    assert Halves(value >> 8, 0) == value >> 8;
    assert Halves(value >> 7, 1) == value >> 8;
    assert Halves(value >> 6, 2) == value >> 8;
    assert Halves(value >> 5, 3) == value >> 8;
    assert Halves(value >> 4, 4) == value >> 8;
    assert Halves(value >> 3, 5) == value >> 8;
    assert Halves(value >> 2, 6) == value >> 8;
    assert Halves(value >> 1, 7) == value >> 8;
  }

  lemma SplitLowByte(value: bv32)
    ensures value == Xor(LowByte(value), value & 0xffff_ff00)
    ensures (value & 0xffff_ff00) & 0xff == 0
    ensures (value & 0xffff_ff00) >> 8 == value >> 8
  {}

  /** Eight shifts need the polynomial for the low byte only. */
  lemma EightShiftsByTable(value: bv32)
    ensures Shifts(value, 8) == Xor(Shifts(LowByte(value), 8), value >> 8)
  {
    hide Xor, LowByte, Shifts, Halves, ZeroBits;
    var upper := value & 0xffff_ff00;
    SplitLowByte(value);
    ShiftsAreLinear(LowByte(value), upper, 8);
    UpperHasZeroBits(upper);
    ZeroBitsMoveDown(upper, 8);
    EightHalves(upper);
  }

  // ----- bits and bytes -----

  /** Feeding a bit to the register is shifting the register with the message added to it. */
  lemma BitIsShift(register: bv32, bits: bv32)
    ensures Shift(Xor(register, bits)) == Xor(AddBit(register, Odd(bits)), Half(bits))
  {
    hide Xor, Half, Odd;
    HalfOfXor(register, bits);
    OddOfXor(register, bits);
    XorAssociative(POLYNOMIAL, Half(register), Half(bits));
  }

  lemma {:induction false} BitsAreShifts(register: bv32, bits: bv32, n: nat)
    ensures Shifts(Xor(register, bits), n) == Xor(AddBits(register, bits, n), Halves(bits, n))
    decreases n
  {
    hide Xor, Half, Odd, Shift, AddBit;
    if n > 0 {
      BitIsShift(register, bits);
      BitsAreShifts(AddBit(register, Odd(bits)), Half(bits), n - 1);
    }
  }

  lemma ByteIsEightShifts(register: bv32, byte: bv8)
    ensures AddBits(register, byte as bv32, 8) == Shifts(Xor(register, byte as bv32), 8)
  {
    hide Xor, AddBits, Shifts, Halves;
    ByteEnds(byte);
    EightHalves(byte as bv32);
    BitsAreShifts(register, byte as bv32, 8);
    XorZero(AddBits(register, byte as bv32, 8));
  }

  lemma ByteEnds(byte: bv8)
    ensures (byte as bv32) >> 8 == 0
  {}

  // ----- the program -----

  /** Entry i is the register i after eight shifts. */
  ghost predicate IsTable(table: seq<bv32>) {
    |table| == 256 && forall i :: 0 <= i < 256 ==> table[i] == Shifts(i as bv32, 8)
  }

  method BuildTable() returns (table: array<bv32>)
    ensures fresh(table) && IsTable(table[..])
  {
    hide Shifts;
    table := new bv32[256];
    var index := 0;
    while index < 256
      invariant 0 <= index <= 256
      invariant forall i :: 0 <= i < index ==> table[i] == Shifts(i as bv32, 8)
    {
      table[index] := EntryOf(index as bv32);
      index := index + 1;
    }
  }

  method EntryOf(index: bv32) returns (value: bv32)
    ensures value == Shifts(index, 8)
  {
    hide Xor, Half, Odd;
    value := index;
    var bit := 0;
    while bit < 8
      invariant 0 <= bit <= 8
      invariant Shifts(index, 8) == Shifts(value, 8 - bit)
    {
      value := if Odd(value) then Xor(POLYNOMIAL, Half(value)) else Half(value);
      bit := bit + 1;
    }
  }

  /** The table-driven loop computes the CRC of the definition, for every byte string. */
  method Crc32(table: array<bv32>, bytes: seq<bv8>) returns (crc: bv32)
    requires IsTable(table[..])
    ensures crc == Crc(bytes)
  {
    hide AddBits, Shifts, Xor, LowByte, IsTable;
    var value: bv32 := 0xffff_ffff;
    var i := 0;
    while i < |bytes|
      invariant 0 <= i <= |bytes|
      invariant value == AddBytes(0xffff_ffff, bytes[..i])
    {
      assert bytes[..i + 1][..i] == bytes[..i];
      TableStep(table[..], value, bytes[i]);
      value := Xor(table[LowByte(Xor(value, bytes[i] as bv32)) as int], value >> 8);
      i := i + 1;
    }
    assert bytes[..i] == bytes;
    crc := value ^ 0xffff_ffff;
  }

  lemma TableStep(table: seq<bv32>, value: bv32, byte: bv8)
    requires IsTable(table)
    ensures |table| == 256 && LowByte(Xor(value, byte as bv32)) as int < 256
    ensures Xor(table[LowByte(Xor(value, byte as bv32)) as int], value >> 8) == AddBits(value, byte as bv32, 8)
  {
    hide AddBits, Shifts, Xor, LowByte;
    var x := Xor(value, byte as bv32);
    LowByteIndex(x);
    ByteIsEightShifts(value, byte);
    EightShiftsByTable(x);
    UpperUnchanged(value, byte);
  }

  lemma LowByteIndex(x: bv32)
    ensures LowByte(x) as int < 256 && (LowByte(x) as int) as bv32 == LowByte(x)
  {}

  lemma UpperUnchanged(value: bv32, byte: bv8)
    ensures Xor(value, byte as bv32) >> 8 == value >> 8
  {}
}

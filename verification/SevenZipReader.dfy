/** The metadata parser as it runs: a cursor over a buffer, a file source with read limits, and
    loops over properties. */
module SevenZipReader {
  import opened SevenZipNumbers
  import opened SevenZipHeader

  class Cursor {
    const buffer: array<Byte>
    var offset: nat

    constructor (buffer: array<Byte>)
      ensures Valid() && offset == 0 && this.buffer == buffer
    {
      this.buffer := buffer;
      offset := 0;
    }

    /** The cursor never leaves the buffer. */
    predicate Valid()
      reads this
    {
      offset <= buffer.Length
    }

    function Bytes(): (b: seq<Byte>)
      reads this, buffer
      ensures |b| == buffer.Length
    {
      buffer[..]
    }

    function Remaining(): nat
      requires Valid()
      reads this
    {
      buffer.Length - offset
    }

    method ReadByte() returns (r: Outcome<Byte>)
      requires Valid()
      modifies `offset
      ensures Valid() && r == SevenZipHeader.ReadByte(Bytes(), old(offset))
      ensures r.Ok? ==> offset == r.next
    {
      if offset + 1 > buffer.Length {
        return Err(INVALID_7Z);
      }
      offset := offset + 1;
      return Ok(buffer[offset - 1], offset);
    }

    method ReadBytes(length: nat) returns (r: Outcome<seq<Byte>>)
      requires Valid()
      modifies `offset
      ensures Valid() && r == SevenZipHeader.ReadBytes(Bytes(), old(offset), length)
      ensures r.Ok? ==> offset == r.next
    {
      if offset + length > buffer.Length {
        return Err(INVALID_7Z);
      }
      var value := buffer[offset..offset + length];
      assert value == Bytes()[offset..offset + length];
      offset := offset + length;
      return Ok(value, offset);
    }

    /** How many bytes follow the first one: its leading ones. */
    static method CountExtraBytes(first: Byte) returns (extraBytes: nat, marker: nat)
      requires first < 255
      ensures extraBytes == LeadingOnes(first, 8)
      ensures extraBytes <= 7 ==> marker == Pow2(7 - extraBytes)
    {
      PowersOfTwo();
      extraBytes, marker := 0, 0x80;
      while extraBytes < 8 && HasBit(first, marker)
        invariant extraBytes <= 8
        invariant marker == if extraBytes < 8 then Pow2(7 - extraBytes) else 0
        invariant LeadingOnes(first, 8) == extraBytes + LeadingOnes(first, 8 - extraBytes)
        decreases 8 - extraBytes
      {
        extraBytes := extraBytes + 1;
        marker := marker / 2;
      }
    }

    /** The bytes after the first, the last one first. */
    method JoinBytes(high: nat, extraBytes: nat) returns (value: nat)
      requires offset + extraBytes <= buffer.Length
      ensures value == high * Pow256(extraBytes) + LittleEndian(Bytes()[offset..offset + extraBytes])
    {
      value := high;
      var index := 0;
      var end := offset + extraBytes;
      assert Bytes()[end..end] == [];
      while index < extraBytes
        invariant 0 <= index <= extraBytes
        invariant value == high * Pow256(index) + LittleEndian(Bytes()[end - index..end])
      {
        var byte := buffer[offset + extraBytes - 1 - index];
        assert Bytes()[end - index - 1..end] == [byte] + Bytes()[end - index..end];
        JoinStep(high, Pow256(index), value, byte, LittleEndian(Bytes()[end - index..end]));
        value := value * 256 + byte;
        index := index + 1;
      }
      assert end - index == offset;
    }

    method ReadNumber(maximum: nat) returns (r: Outcome<nat>)
      requires Valid()
      modifies `offset
      ensures Valid() && r == SevenZipNumbers.ReadNumber(Bytes(), old(offset), maximum)
      ensures r.Ok? ==> offset == r.next
    {
      hide LeadingOnes, LittleEndian, Pow2, Pow256;
      var first := ReadByte();
      if first.Err? {
        return Err(first.error);
      }
      if first.value == 255 {
        if offset + 8 > buffer.Length {
          return Err(INVALID_7Z);
        }
        var value := LittleEndian(buffer[offset..offset + 8]);
        assert buffer[offset..offset + 8] == Bytes()[offset..offset + 8];
        offset := offset + 8;
        return CheckMaximum(value, offset, maximum);
      }
      var extraBytes, marker := CountExtraBytes(first.value);
      if extraBytes > 7 || offset + extraBytes > buffer.Length {
        return Err(INVALID_7Z);
      }
      var value := JoinBytes(first.value % marker, extraBytes);
      offset := offset + extraBytes;
      return CheckMaximum(value, offset, maximum);
    }

    method ReadNumbers(count: nat, maximum: nat) returns (r: Outcome<seq<nat>>)
      requires Valid()
      modifies `offset
      ensures Valid() && r == SevenZipHeader.ReadNumbers(Bytes(), old(offset), count, maximum)
      ensures r.Ok? ==> offset == r.next
    {
      hide SevenZipNumbers.ReadNumber;
      var values: seq<nat> := [];
      var index := 0;
      ghost var b, start := Bytes(), offset;
      AfterNone(SevenZipHeader.ReadNumbers(b, start, count, maximum));
      while index < count
        invariant 0 <= index <= count && Valid() && Bytes() == b
        invariant SevenZipHeader.ReadNumbers(b, start, count, maximum)
                  == After(values, SevenZipHeader.ReadNumbers(b, offset, count - index, maximum))
      {
        var value := ReadNumber(maximum);
        if value.Err? {
          return Err(value.error);
        }
        AfterOne(values, value.value, SevenZipHeader.ReadNumbers(b, offset, count - index - 1, maximum));
        values := values + [value.value];
        index := index + 1;
      }
      AfterLast(values, offset);
      return Ok(values, offset);
    }
  }

  lemma JoinStep(high: nat, p: nat, value: nat, byte: Byte, low: nat)
    requires value == high * p + low
    ensures value * 256 + byte == high * (256 * p) + (byte + 256 * low)
  {}

  /** The items read before those of a further outcome. */
  function After<T>(items: seq<T>, more: Outcome<seq<T>>): Outcome<seq<T>> {
    if more.Err? then more else Ok(items + more.value, more.next)
  }

  lemma AfterNone<T>(more: Outcome<seq<T>>)
    ensures After([], more) == more
  {
    if more.Ok? {
      assert [] + more.value == more.value;
    }
  }

  lemma AfterLast<T>(items: seq<T>, next: nat)
    ensures After(items, Ok([], next)) == Ok(items, next)
  {
    assert items + [] == items;
  }

  lemma AfterOne<T>(items: seq<T>, item: T, more: Outcome<seq<T>>)
    ensures After(items, After([item], more)) == After(items + [item], more)
  {
    if more.Ok? {
      assert items + ([item] + more.value) == (items + [item]) + more.value;
    }
  }

  // ----- the parser -----

  method ReadDefinedVector(cursor: Cursor, count: nat) returns (r: Outcome<nat>)
    requires cursor.Valid()
    modifies cursor`offset
    ensures cursor.Valid() && r == SevenZipHeader.ReadDefinedVector(cursor.Bytes(), old(cursor.offset), count)
    ensures r.Ok? ==> cursor.offset == r.next
  {
    var all := cursor.ReadByte();
    if all.Err? {
      return Err(all.error);
    }
    if all.value != 0 {
      return Ok(count, cursor.offset);
    }
    var bits := cursor.ReadBytes((count + 7) / 8);
    if bits.Err? {
      return Err(bits.error);
    }
    var defined := 0;
    var index := 0;
    while index < count
      invariant 0 <= index <= count
      invariant defined == CountFirst(bits.value, index)
    {
      if HasBit(bits.value[index / 8], Pow2(7 - index % 8)) {
        defined := defined + 1;
      }
      index := index + 1;
    }
    return Ok(defined, cursor.offset);
  }

  method SkipCrcs(cursor: Cursor, count: nat) returns (r: Outcome<()>)
    requires cursor.Valid()
    modifies cursor`offset
    ensures cursor.Valid() && r == SevenZipHeader.SkipCrcs(cursor.Bytes(), old(cursor.offset), count)
    ensures r.Ok? ==> cursor.offset == r.next
  {
    hide SevenZipHeader.ReadDefinedVector;
    var defined := ReadDefinedVector(cursor, count);
    if defined.Err? {
      return Err(defined.error);
    }
    var skipped := cursor.ReadBytes(4 * defined.value);
    if skipped.Err? {
      return Err(skipped.error);
    }
    return Ok((), cursor.offset);
  }

  method ParseProperties(cursor: Cursor, present: bool, limits: Limits) returns (r: Outcome<seq<Byte>>)
    requires cursor.Valid()
    modifies cursor`offset
    ensures cursor.Valid() && r == ReadProperties(cursor.Bytes(), old(cursor.offset), present, limits)
    ensures r.Ok? ==> cursor.offset == r.next
  {
    hide ReadNumber;
    if !present {
      return Ok([], cursor.offset);
    }
    var size := cursor.ReadNumber(limits.maxCoderPropertyBytes);
    if size.Err? {
      return Err(size.error);
    }
    r := cursor.ReadBytes(size.value);
  }

  method ParseCoder(cursor: Cursor, limits: Limits) returns (r: Outcome<Coder>)
    requires cursor.Valid()
    modifies cursor`offset
    ensures cursor.Valid() && r == ReadCoder(cursor.Bytes(), old(cursor.offset), limits)
    ensures r.Ok? ==> cursor.offset == r.next
  {
    hide ReadNumber, ReadProperties, HasBit;
    var flags := cursor.ReadByte();
    if flags.Err? {
      return Err(flags.error);
    }
    if HasBit(flags.value, 0x80) {
      return Err(INVALID_7Z);
    }
    var idSize := flags.value % 16;
    if idSize < 1 || idSize > 8 {
      return Err(INVALID_7Z);
    }
    var id := cursor.ReadBytes(idSize);
    if id.Err? {
      return Err(id.error);
    }
    var inputs, outputs: Outcome<nat> := Ok(1, cursor.offset), Ok(1, cursor.offset);
    if HasBit(flags.value, 0x10) {
      inputs := cursor.ReadNumber(limits.maxStreams);
      if inputs.Err? {
        return Err(inputs.error);
      }
      outputs := cursor.ReadNumber(limits.maxStreams);
      if outputs.Err? {
        return Err(outputs.error);
      }
    }
    if inputs.value < 1 || outputs.value < 1 {
      return Err(INVALID_7Z);
    }
    var properties := ParseProperties(cursor, HasBit(flags.value, 0x20), limits);
    if properties.Err? {
      return Err(properties.error);
    }
    return Ok(Coder(id.value, properties.value, inputs.value, outputs.value), cursor.offset);
  }

  method ParseCoders(cursor: Cursor, count: nat, limits: Limits) returns (r: Outcome<Streams>)
    requires cursor.Valid()
    modifies cursor`offset
    ensures cursor.Valid() && r == ReadCoders(cursor.Bytes(), old(cursor.offset), count, Streams([], 0, 0), limits)
    ensures r.Ok? ==> cursor.offset == r.next
  {
    hide ReadCoder;
    var s := Streams([], 0, 0);
    var index := 0;
    ghost var b, start := cursor.Bytes(), cursor.offset;
    while index < count
      invariant 0 <= index <= count && cursor.Valid() && cursor.Bytes() == b
      invariant ReadCoders(b, start, count, Streams([], 0, 0), limits)
               == ReadCoders(b, cursor.offset, count - index, s, limits)
    {
      var coder := ParseCoder(cursor, limits);
      if coder.Err? {
        return Err(coder.error);
      }
      s := Streams(s.coders + [coder.value], s.inputs + coder.value.inputs, s.outputs + coder.value.outputs);
      if s.inputs > limits.maxStreams || s.outputs > limits.maxStreams {
        return Err(METADATA_LIMIT);
      }
      index := index + 1;
    }
    return Ok(s, cursor.offset);
  }

  method ParseFolder(cursor: Cursor, limits: Limits) returns (r: Outcome<Folder>)
    requires cursor.Valid()
    modifies cursor`offset
    ensures cursor.Valid() && r == ReadFolder(cursor.Bytes(), old(cursor.offset), limits)
    ensures r.Ok? ==> cursor.offset == r.next
  {
    hide ReadNumber, ReadNumbers, ReadCoders;
    var count := cursor.ReadNumber(limits.maxCoders);
    if count.Err? {
      return Err(count.error);
    }
    if count.value < 1 {
      return Err(INVALID_7Z);
    }
    var coders := ParseCoders(cursor, count.value, limits);
    if coders.Err? {
      return Err(coders.error);
    }
    var s := coders.value;
    var bindPairs := cursor.ReadNumbers(2 * (s.outputs - 1), limits.maxStreams);
    if bindPairs.Err? {
      return Err(bindPairs.error);
    }
    var packed := s.inputs - (s.outputs - 1);
    if packed < 1 || packed > limits.maxStreams {
      return Err(INVALID_7Z);
    }
    var indices := cursor.ReadNumbers(if packed == 1 then 0 else packed, limits.maxStreams);
    if indices.Err? {
      return Err(indices.error);
    }
    return Ok(Folder(s.coders, s.outputs), cursor.offset);
  }

  method ParsePackSizes(cursor: Cursor, count: nat, limits: Limits) returns (r: Outcome<seq<nat>>)
    requires cursor.Valid()
    modifies cursor`offset
    ensures cursor.Valid() && r == ReadPackSizes(cursor.Bytes(), old(cursor.offset), count, [], limits)
    ensures r.Ok? ==> cursor.offset == r.next
  {
    hide ReadNumbers, SevenZipHeader.SkipCrcs;
    var sizes := [];
    ghost var b, start := cursor.Bytes(), cursor.offset;
    while cursor.Remaining() > 0
      invariant cursor.Valid() && cursor.Bytes() == b
      invariant ReadPackSizes(b, start, count, [], limits) == ReadPackSizes(b, cursor.offset, count, sizes, limits)
      decreases cursor.Remaining()
    {
      var property := cursor.ReadByte();
      if property.value == END {
        return Ok(sizes, cursor.offset);
      } else if property.value == SIZE {
        var more := cursor.ReadNumbers(count, limits.maxCompressedHeaderBytes);
        if more.Err? {
          return more;
        }
        sizes := sizes + more.value;
      } else if property.value == CRC {
        var skipped := SkipCrcs(cursor, count);
        if skipped.Err? {
          return Err(skipped.error);
        }
      } else {
        return Err(INVALID_7Z);
      }
    }
    return Ok(sizes, cursor.offset);
  }

  method SumSizes(sizes: seq<nat>) returns (total: nat)
    ensures total == Sum(sizes)
  {
    total := 0;
    var i := 0;
    while i < |sizes|
      invariant 0 <= i <= |sizes| && total == Sum(sizes[..i])
    {
      assert sizes[..i + 1][..i] == sizes[..i];
      total := total + sizes[i];
      i := i + 1;
    }
    assert sizes[..i] == sizes;
  }

  method ParsePackInfo(cursor: Cursor, limits: Limits) returns (r: Outcome<PackInfo>)
    requires cursor.Valid()
    modifies cursor`offset
    ensures cursor.Valid() && r == ReadPackInfo(cursor.Bytes(), old(cursor.offset), limits)
    ensures r.Ok? ==> cursor.offset == r.next
  {
    hide ReadNumber, ReadPackSizes;
    var position := cursor.ReadNumber(MAX_SAFE_INTEGER);
    if position.Err? {
      return Err(position.error);
    }
    var count := cursor.ReadNumber(limits.maxPackStreams);
    if count.Err? {
      return Err(count.error);
    }
    if count.value < 1 {
      return Err(INVALID_7Z);
    }
    var sizes := ParsePackSizes(cursor, count.value, limits);
    if sizes.Err? {
      return Err(sizes.error);
    }
    if |sizes.value| != count.value {
      return Err(INVALID_7Z);
    }
    var packedBytes := SumSizes(sizes.value);
    if packedBytes > limits.maxCompressedHeaderBytes {
      return Err(METADATA_LIMIT);
    }
    return Ok(PackInfo(position.value, count.value, sizes.value, packedBytes), cursor.offset);
  }

  method ParseFolders(cursor: Cursor, count: nat, limits: Limits) returns (r: Outcome<seq<Folder>>)
    requires cursor.Valid()
    modifies cursor`offset
    ensures cursor.Valid() && r == ReadFolders(cursor.Bytes(), old(cursor.offset), count, limits)
    ensures r.Ok? ==> cursor.offset == r.next
  {
    hide ReadFolder;
    var folders: seq<Folder> := [];
    var index := 0;
    ghost var b, start := cursor.Bytes(), cursor.offset;
    AfterNone(ReadFolders(b, start, count, limits));
    while index < count
      invariant 0 <= index <= count && cursor.Valid() && cursor.Bytes() == b
      invariant ReadFolders(b, start, count, limits)
               == After(folders, ReadFolders(b, cursor.offset, count - index, limits))
    {
      var folder := ParseFolder(cursor, limits);
      if folder.Err? {
        return Err(folder.error);
      }
      AfterOne(folders, folder.value, ReadFolders(b, cursor.offset, count - index - 1, limits));
      folders := folders + [folder.value];
      index := index + 1;
    }
    AfterLast(folders, cursor.offset);
    return Ok(folders, cursor.offset);
  }

  method ParseFolderBlock(cursor: Cursor, limits: Limits) returns (r: Outcome<seq<Folder>>)
    requires cursor.Valid()
    modifies cursor`offset
    ensures cursor.Valid() && r == ReadFolderBlock(cursor.Bytes(), old(cursor.offset), limits)
    ensures r.Ok? ==> cursor.offset == r.next
  {
    hide ReadNumber, ReadFolders;
    var count := cursor.ReadNumber(limits.maxFolders);
    if count.Err? {
      return Err(count.error);
    }
    if count.value < 1 {
      return Err(INVALID_7Z);
    }
    var external := cursor.ReadByte();
    if external.Err? {
      return Err(external.error);
    }
    if external.value != 0 {
      return Err(INVALID_7Z);
    }
    r := ParseFolders(cursor, count.value, limits);
  }

  method ParseUnpackSizes(cursor: Cursor, folders: seq<Folder>, limits: Limits) returns (r: Outcome<seq<seq<nat>>>)
    requires cursor.Valid()
    modifies cursor`offset
    ensures cursor.Valid() && r == ReadUnpackSizes(cursor.Bytes(), old(cursor.offset), folders, limits)
    ensures r.Ok? ==> cursor.offset == r.next
  {
    hide ReadNumbers;
    var sizes: seq<seq<nat>> := [];
    var index := 0;
    ghost var b, start := cursor.Bytes(), cursor.offset;
    AfterNone(ReadUnpackSizes(b, start, folders, limits));
    assert folders[0..] == folders;
    while index < |folders|
      invariant 0 <= index <= |folders| && cursor.Valid() && cursor.Bytes() == b
      invariant ReadUnpackSizes(b, start, folders, limits)
                == After(sizes, ReadUnpackSizes(b, cursor.offset, folders[index..], limits))
    {
      assert folders[index..][1..] == folders[index + 1..];
      var own := cursor.ReadNumbers(folders[index].outputStreams, limits.maxHeaderBytes);
      if own.Err? {
        return Err(own.error);
      }
      AfterOne(sizes, own.value, ReadUnpackSizes(b, cursor.offset, folders[index + 1..], limits));
      sizes := sizes + [own.value];
      index := index + 1;
    }
    AfterLast(sizes, cursor.offset);
    return Ok(sizes, cursor.offset);
  }

  method ParseUnpackProperties(cursor: Cursor, limits: Limits) returns (r: Outcome<UnpackState>)
    requires cursor.Valid()
    modifies cursor`offset
    ensures cursor.Valid()
    ensures r == ReadUnpackProperties(cursor.Bytes(), old(cursor.offset), UnpackState(Absent, Absent), limits)
    ensures r.Ok? ==> cursor.offset == r.next
  {
    hide ReadFolderBlock, ReadUnpackSizes, SevenZipHeader.SkipCrcs;
    var s := UnpackState(Absent, Absent);
    ghost var b, start := cursor.Bytes(), cursor.offset;
    while cursor.Remaining() > 0
      invariant cursor.Valid() && cursor.Bytes() == b && ValidUnpackState(s)
      invariant ReadUnpackProperties(b, start, UnpackState(Absent, Absent), limits)
                == ReadUnpackProperties(b, cursor.offset, s, limits)
      decreases cursor.Remaining()
    {
      var property := cursor.ReadByte();
      if property.value == END {
        return Ok(s, cursor.offset);
      } else if property.value == FOLDER {
        if s.folders.Present? {
          return Err(INVALID_7Z);
        }
        var folders := ParseFolderBlock(cursor, limits);
        if folders.Err? {
          return Err(folders.error);
        }
        s := s.(folders := Present(folders.value));
      } else if property.value == CODERS_UNPACK_SIZE {
        if s.folders.Absent? || s.sizes.Present? {
          return Err(INVALID_7Z);
        }
        var sizes := ParseUnpackSizes(cursor, s.folders.value, limits);
        if sizes.Err? {
          return Err(sizes.error);
        }
        s := s.(sizes := Present(sizes.value));
      } else if property.value == CRC {
        if s.folders.Absent? {
          return Err(INVALID_7Z);
        }
        var skipped := SkipCrcs(cursor, |s.folders.value|);
        if skipped.Err? {
          return Err(skipped.error);
        }
      } else {
        return Err(INVALID_7Z);
      }
    }
    return Ok(s, cursor.offset);
  }

  method ParseUnpackInfo(cursor: Cursor, limits: Limits) returns (r: Outcome<UnpackInfo>)
    requires cursor.Valid()
    modifies cursor`offset
    ensures cursor.Valid() && r == ReadUnpackInfo(cursor.Bytes(), old(cursor.offset), limits)
    ensures r.Ok? ==> cursor.offset == r.next
  {
    hide ReadUnpackProperties;
    var s := ParseUnpackProperties(cursor, limits);
    if s.Err? {
      return Err(s.error);
    }
    if s.value.folders.Absent? || s.value.sizes.Absent? {
      return Err(INVALID_7Z);
    }
    return Ok(UnpackInfo(s.value.folders.value, s.value.sizes.value), cursor.offset);
  }

  method ParseHeaderProperties(cursor: Cursor, limits: Limits) returns (r: Outcome<HeaderState>)
    requires cursor.Valid()
    modifies cursor`offset
    ensures cursor.Valid()
    ensures r == ReadHeaderProperties(cursor.Bytes(), old(cursor.offset), HeaderState(Absent, Absent), limits)
  {
    hide ReadPackInfo, ReadUnpackInfo;
    var s := HeaderState(Absent, Absent);
    ghost var b, start := cursor.Bytes(), cursor.offset;
    while cursor.Remaining() > 0
      invariant cursor.Valid() && cursor.Bytes() == b && ValidHeaderState(s, limits)
      invariant ReadHeaderProperties(b, start, HeaderState(Absent, Absent), limits)
                == ReadHeaderProperties(b, cursor.offset, s, limits)
      decreases cursor.Remaining()
    {
      var property := cursor.ReadByte();
      if property.value == END {
        return Ok(s, cursor.offset);
      } else if property.value == PACK_INFO {
        if s.pack.Present? {
          return Err(INVALID_7Z);
        }
        var pack := ParsePackInfo(cursor, limits);
        if pack.Err? {
          return Err(pack.error);
        }
        s := s.(pack := Present(pack.value));
      } else if property.value == UNPACK_INFO {
        if s.unpack.Present? {
          return Err(INVALID_7Z);
        }
        var unpack := ParseUnpackInfo(cursor, limits);
        if unpack.Err? {
          return Err(unpack.error);
        }
        s := s.(unpack := Present(unpack.value));
      } else {
        return Err(INVALID_7Z);
      }
    }
    return Ok(s, cursor.offset);
  }

  method InspectHeader(buffer: array<Byte>, limits: Limits) returns (r: Inspected)
    ensures r == InspectEncodedHeader(buffer[..], limits)
  {
    hide ReadHeaderProperties, Decide;
    var cursor := new Cursor(buffer);
    var kind := cursor.ReadByte();
    if kind.Err? {
      return Rejected(kind.error);
    }
    if kind.value != ENCODED_HEADER {
      return Accepted(NotEncoded);
    }
    var header := ParseHeaderProperties(cursor, limits);
    if header.Err? {
      return Rejected(header.error);
    }
    if header.value.pack.Absent? || header.value.unpack.Absent? {
      return Rejected(INVALID_7Z);
    }
    return Decide(header.value.pack.value, header.value.unpack.value, limits);
  }
}

/** The grammar of encoded 7z headers, as the metadata parser reads it, and what an accepted
    header guarantees (src/seven-zip-parser-worker.js). */
module SevenZipHeader {
  import opened SevenZipNumbers

  const END: Byte := 0x00
  const PACK_INFO: Byte := 0x06
  const UNPACK_INFO: Byte := 0x07
  const SIZE: Byte := 0x09
  const CRC: Byte := 0x0a
  const FOLDER: Byte := 0x0b
  const CODERS_UNPACK_SIZE: Byte := 0x0c
  const ENCODED_HEADER: Byte := 0x17

  const COPY: seq<Byte> := [0x00]
  const LZMA: seq<Byte> := [0x03, 0x01, 0x01]
  const LZMA2: seq<Byte> := [0x21]
  const AES: seq<Byte> := [0x06, 0xf1, 0x07, 0x01]

  datatype Limits = Limits(
    maxHeaderBytes: nat, maxCompressedHeaderBytes: nat, maxSingleReadBytes: nat, maxTotalReadBytes: nat,
    maxCoders: nat, maxStreams: nat, maxPackStreams: nat, maxFolders: nat, maxCoderPropertyBytes: nat)

  datatype Coder = Coder(id: seq<Byte>, properties: seq<Byte>, inputs: nat, outputs: nat)
  datatype Folder = Folder(coders: seq<Coder>, outputStreams: nat)
  datatype PackInfo = PackInfo(packPosition: nat, packStreamCount: nat, packSizes: seq<nat>, packedBytes: nat)

  /** Folders with the unpacked sizes of their output streams. */
  datatype UnpackInfo = UnpackInfo(folders: seq<Folder>, unpackSizes: seq<seq<nat>>)

  datatype Maybe<T> = Absent | Present(value: T)

  // ----- reading -----

  function ReadByte(b: seq<Byte>, o: nat): (r: Outcome<Byte>)
    ensures r.Ok? ==> r.next == o + 1 <= |b|
  {
    if Available(b, o, 1) then Ok(b[o], o + 1) else Err(INVALID_7Z)
  }

  function ReadBytes(b: seq<Byte>, o: nat, length: nat): (r: Outcome<seq<Byte>>)
    ensures r.Ok? ==> r.next == o + length <= |b| && |r.value| == length
  {
    if Available(b, o, length) then Ok(b[o..o + length], o + length) else Err(INVALID_7Z)
  }

  /** count numbers one after another. */
  function ReadNumbers(b: seq<Byte>, o: nat, count: nat, maximum: nat): (r: Outcome<seq<nat>>)
    requires o <= |b|
    ensures r.Ok? ==> o + count <= r.next <= |b| && |r.value| == count
    ensures r.Ok? ==> forall i :: 0 <= i < |r.value| ==> r.value[i] <= maximum
    decreases count
  {
    if count == 0 then Ok([], o)
    else
      var first := ReadNumber(b, o, maximum);
      if first.Err? then Err(first.error)
      else
        var rest := ReadNumbers(b, first.next, count - 1, maximum);
        if rest.Err? then rest else Ok([first.value] + rest.value, rest.next)
  }

  /** readDefinedVector: how many of count entries have a CRC. */
  function ReadDefinedVector(b: seq<Byte>, o: nat, count: nat): (r: Outcome<nat>)
    ensures r.Ok? ==> o < r.next <= |b| && r.value <= count
  {
    var all := ReadByte(b, o);
    if all.Err? then Err(all.error)
    else if all.value != 0 then Ok(count, all.next)
    else
      var bits := ReadBytes(b, all.next, (count + 7) / 8);
      if bits.Err? then Err(bits.error) else Ok(CountDefined(bits.value, count), bits.next)
  }

  function CountDefined(bits: seq<Byte>, count: nat): (r: nat)
    requires |bits| == (count + 7) / 8
    ensures r <= count
  {
    CountFirst(bits, count)
  }

  function CountFirst(bits: seq<Byte>, n: nat): (r: nat)
    requires n <= 8 * |bits|
    ensures r <= n
  {
    if n == 0 then 0
    else CountFirst(bits, n - 1) + if HasBit(bits[(n - 1) / 8], Pow2(7 - (n - 1) % 8)) then 1 else 0
  }

  /** A CRC property: the vector, then four bytes per defined entry. */
  function SkipCrcs(b: seq<Byte>, o: nat, count: nat): (r: Outcome<()>)
    ensures r.Ok? ==> o < r.next <= |b|
  {
    var defined := ReadDefinedVector(b, o, count);
    if defined.Err? then Err(defined.error)
    else
      var skipped := ReadBytes(b, defined.next, 4 * defined.value);
      if skipped.Err? then Err(skipped.error) else Ok((), skipped.next)
  }

  // ----- folders -----

  function ReadCoder(b: seq<Byte>, o: nat, limits: Limits): (r: Outcome<Coder>)
    ensures r.Ok? ==> o < r.next <= |b|
    ensures r.Ok? ==> 1 <= |r.value.id| <= 8 && r.value.inputs >= 1 && r.value.outputs >= 1
                      && |r.value.properties| <= limits.maxCoderPropertyBytes
  {
    var flags := ReadByte(b, o);
    if flags.Err? then Err(flags.error)
    else if HasBit(flags.value, 0x80) then Err(INVALID_7Z)
    else
      var idSize := flags.value % 16;
      if idSize < 1 || idSize > 8 then Err(INVALID_7Z)
      else
        var id := ReadBytes(b, flags.next, idSize);
        if id.Err? then Err(id.error)
        else
          var complex := HasBit(flags.value, 0x10);
          var inputs := if complex then ReadNumber(b, id.next, limits.maxStreams) else Ok(1, id.next);
          if inputs.Err? then Err(inputs.error)
          else
            var outputs := if complex then ReadNumber(b, inputs.next, limits.maxStreams) else Ok(1, inputs.next);
            if outputs.Err? then Err(outputs.error)
            else if inputs.value < 1 || outputs.value < 1 then Err(INVALID_7Z)
            else
              var properties := ReadProperties(b, outputs.next, HasBit(flags.value, 0x20), limits);
              if properties.Err? then Err(properties.error)
              else Ok(Coder(id.value, properties.value, inputs.value, outputs.value), properties.next)
  }

  function ReadProperties(b: seq<Byte>, o: nat, present: bool, limits: Limits): (r: Outcome<seq<Byte>>)
    requires o <= |b|
    ensures r.Ok? ==> o <= r.next <= |b| && |r.value| <= limits.maxCoderPropertyBytes
  {
    if !present then Ok([], o)
    else
      var size := ReadNumber(b, o, limits.maxCoderPropertyBytes);
      if size.Err? then Err(size.error) else ReadBytes(b, size.next, size.value)
  }

  datatype Streams = Streams(coders: seq<Coder>, inputs: nat, outputs: nat)

  function ReadCoders(b: seq<Byte>, o: nat, count: nat, s: Streams, limits: Limits): (r: Outcome<Streams>)
    requires o <= |b|
    ensures r.Ok? ==>
             o <= r.next <= |b| && |r.value.coders| == |s.coders| + count && r.value.outputs >= s.outputs + count
    decreases count
  {
    if count == 0 then Ok(s, o)
    else
      var coder := ReadCoder(b, o, limits);
      if coder.Err? then Err(coder.error)
      else
        var c := coder.value;
        var t := Streams(s.coders + [c], s.inputs + c.inputs, s.outputs + c.outputs);
        if t.inputs > limits.maxStreams || t.outputs > limits.maxStreams then Err(METADATA_LIMIT)
        else ReadCoders(b, coder.next, count - 1, t, limits)
  }

  function ReadFolder(b: seq<Byte>, o: nat, limits: Limits): (r: Outcome<Folder>)
    ensures r.Ok? ==> o < r.next <= |b| && |r.value.coders| >= 1 && r.value.outputStreams >= 1
  {
    var count := ReadNumber(b, o, limits.maxCoders);
    if count.Err? then Err(count.error)
    else if count.value < 1 then Err(INVALID_7Z)
    else
      var coders := ReadCoders(b, count.next, count.value, Streams([], 0, 0), limits);
      if coders.Err? then Err(coders.error)
      else
        var s := coders.value;
        var bindPairs := ReadNumbers(b, coders.next, 2 * (s.outputs - 1), limits.maxStreams);
        if bindPairs.Err? then Err(bindPairs.error)
        else
          var packed := s.inputs - (s.outputs - 1);
          if packed < 1 || packed > limits.maxStreams then Err(INVALID_7Z)
          else
            var indices := ReadNumbers(b, bindPairs.next, if packed == 1 then 0 else packed, limits.maxStreams);
            if indices.Err? then Err(indices.error) else Ok(Folder(s.coders, s.outputs), indices.next)
  }

  function ReadFolders(b: seq<Byte>, o: nat, count: nat, limits: Limits): (r: Outcome<seq<Folder>>)
    requires o <= |b|
    ensures r.Ok? ==> o <= r.next <= |b| && |r.value| == count
    ensures r.Ok? ==> forall i :: 0 <= i < |r.value| ==> r.value[i].outputStreams >= 1
    decreases count
  {
    if count == 0 then Ok([], o)
    else
      var first := ReadFolder(b, o, limits);
      if first.Err? then Err(first.error)
      else
        var rest := ReadFolders(b, first.next, count - 1, limits);
        if rest.Err? then rest else Ok([first.value] + rest.value, rest.next)
  }

  // ----- PackInfo -----

  function ReadPackInfo(b: seq<Byte>, o: nat, limits: Limits): (r: Outcome<PackInfo>)
    ensures r.Ok? ==> o < r.next <= |b|
    ensures r.Ok? ==> |r.value.packSizes| == r.value.packStreamCount >= 1
                      && r.value.packedBytes == Sum(r.value.packSizes) <= limits.maxCompressedHeaderBytes
  {
    var position := ReadNumber(b, o, MAX_SAFE_INTEGER);
    if position.Err? then Err(position.error)
    else
      var count := ReadNumber(b, position.next, limits.maxPackStreams);
      if count.Err? then Err(count.error)
      else if count.value < 1 then Err(INVALID_7Z)
      else
        var sizes := ReadPackSizes(b, count.next, count.value, [], limits);
        if sizes.Err? then Err(sizes.error)
        else if |sizes.value| != count.value then Err(INVALID_7Z)
        else if Sum(sizes.value) > limits.maxCompressedHeaderBytes then Err(METADATA_LIMIT)
        else Ok(PackInfo(position.value, count.value, sizes.value, Sum(sizes.value)), sizes.next)
  }

  function Sum(sizes: seq<nat>): nat {
    if sizes == [] then 0 else Sum(sizes[..|sizes| - 1]) + sizes[|sizes| - 1]
  }

  /** The properties of PackInfo up to END or the end of the buffer. */
  function ReadPackSizes(b: seq<Byte>, o: nat, count: nat, sizes: seq<nat>, limits: Limits): (r: Outcome<seq<nat>>)
    requires o <= |b|
    ensures r.Ok? ==> o <= r.next <= |b|
    decreases |b| - o
  {
    if o >= |b| then Ok(sizes, o)
    else if b[o] == END then Ok(sizes, o + 1)
    else if b[o] == SIZE then
      var more := ReadNumbers(b, o + 1, count, limits.maxCompressedHeaderBytes);
      if more.Err? then more else ReadPackSizes(b, more.next, count, sizes + more.value, limits)
    else if b[o] == CRC then
      var skipped := SkipCrcs(b, o + 1, count);
      if skipped.Err? then Err(skipped.error) else ReadPackSizes(b, skipped.next, count, sizes, limits)
    else Err(INVALID_7Z)
  }

  // ----- UnpackInfo -----

  /** What the property loop has seen so far. */
  datatype UnpackState = UnpackState(folders: Maybe<seq<Folder>>, sizes: Maybe<seq<seq<nat>>>)

  function ReadUnpackInfo(b: seq<Byte>, o: nat, limits: Limits): (r: Outcome<UnpackInfo>)
    requires o <= |b|
    ensures r.Ok? ==> o <= r.next <= |b| && |r.value.unpackSizes| == |r.value.folders|
    ensures r.Ok? ==> forall i :: 0 <= i < |r.value.folders| ==>
             |r.value.unpackSizes[i]| == r.value.folders[i].outputStreams >= 1
  {
    var state := ReadUnpackProperties(b, o, UnpackState(Absent, Absent), limits);
    if state.Err? then Err(state.error)
    else if state.value.folders.Absent? || state.value.sizes.Absent? then Err(INVALID_7Z)
    else Ok(UnpackInfo(state.value.folders.value, state.value.sizes.value), state.next)
  }

  predicate ValidUnpackState(s: UnpackState) {
    && (s.folders.Present? ==> forall i :: 0 <= i < |s.folders.value| ==> s.folders.value[i].outputStreams >= 1)
    && (s.sizes.Present? ==>
          && s.folders.Present? && |s.sizes.value| == |s.folders.value|
          && forall i :: 0 <= i < |s.folders.value| ==> |s.sizes.value[i]| == s.folders.value[i].outputStreams)
  }

  function ReadUnpackProperties(b: seq<Byte>, o: nat, s: UnpackState, limits: Limits): (r: Outcome<UnpackState>)
    requires o <= |b| && ValidUnpackState(s)
    ensures r.Ok? ==> o <= r.next <= |b| && ValidUnpackState(r.value)
    decreases |b| - o
  {
    if o >= |b| then Ok(s, o)
    else if b[o] == END then Ok(s, o + 1)
    else if b[o] == FOLDER then
      if s.folders.Present? then Err(INVALID_7Z)
      else
        var folders := ReadFolderBlock(b, o + 1, limits);
        if folders.Err? then Err(folders.error)
        else ReadUnpackProperties(b, folders.next, s.(folders := Present(folders.value)), limits)
    else if b[o] == CODERS_UNPACK_SIZE then
      if s.folders.Absent? || s.sizes.Present? then Err(INVALID_7Z)
      else
        var sizes := ReadUnpackSizes(b, o + 1, s.folders.value, limits);
        if sizes.Err? then Err(sizes.error)
        else ReadUnpackProperties(b, sizes.next, s.(sizes := Present(sizes.value)), limits)
    else if b[o] == CRC then
      if s.folders.Absent? then Err(INVALID_7Z)
      else
        var skipped := SkipCrcs(b, o + 1, |s.folders.value|);
        if skipped.Err? then Err(skipped.error) else ReadUnpackProperties(b, skipped.next, s, limits)
    else Err(INVALID_7Z)
  }

  function ReadFolderBlock(b: seq<Byte>, o: nat, limits: Limits): (r: Outcome<seq<Folder>>)
    ensures r.Ok? ==> o < r.next <= |b| && forall i :: 0 <= i < |r.value| ==> r.value[i].outputStreams >= 1
  {
    var count := ReadNumber(b, o, limits.maxFolders);
    if count.Err? then Err(count.error)
    else if count.value < 1 then Err(INVALID_7Z)
    else
      var external := ReadByte(b, count.next);
      if external.Err? then Err(external.error)
      else if external.value != 0 then Err(INVALID_7Z)
      else ReadFolders(b, external.next, count.value, limits)
  }

  function ReadUnpackSizes(b: seq<Byte>, o: nat, folders: seq<Folder>, limits: Limits): (r: Outcome<seq<seq<nat>>>)
    requires o <= |b|
    ensures r.Ok? ==> o <= r.next <= |b| && |r.value| == |folders|
    ensures r.Ok? ==> forall i :: 0 <= i < |folders| ==> |r.value[i]| == folders[i].outputStreams
    decreases |folders|
  {
    if folders == [] then Ok([], o)
    else
      var first := ReadNumbers(b, o, folders[0].outputStreams, limits.maxHeaderBytes);
      if first.Err? then Err(first.error)
      else
        var rest := ReadUnpackSizes(b, first.next, folders[1..], limits);
        if rest.Err? then rest else Ok([first.value] + rest.value, rest.next)
  }

  // ----- the encoded header -----

  datatype HeaderState = HeaderState(pack: Maybe<PackInfo>, unpack: Maybe<UnpackInfo>)

  ghost predicate ValidHeaderState(s: HeaderState, limits: Limits) {
    && (s.pack.Present? ==>
          && |s.pack.value.packSizes| == s.pack.value.packStreamCount >= 1
          && s.pack.value.packedBytes == Sum(s.pack.value.packSizes) <= limits.maxCompressedHeaderBytes)
    && (s.unpack.Present? ==>
          && |s.unpack.value.unpackSizes| == |s.unpack.value.folders|
          && forall i :: 0 <= i < |s.unpack.value.folders| ==>
               |s.unpack.value.unpackSizes[i]| == s.unpack.value.folders[i].outputStreams >= 1)
  }

  function ReadHeaderProperties(b: seq<Byte>, o: nat, s: HeaderState, limits: Limits): (r: Outcome<HeaderState>)
    requires o <= |b| && ValidHeaderState(s, limits)
    ensures r.Ok? ==> o <= r.next <= |b| && ValidHeaderState(r.value, limits)
    decreases |b| - o
  {
    if o >= |b| then Ok(s, o)
    else if b[o] == END then Ok(s, o + 1)
    else if b[o] == PACK_INFO then
      if s.pack.Present? then Err(INVALID_7Z)
      else
        var pack := ReadPackInfo(b, o + 1, limits);
        if pack.Err? then Err(pack.error)
        else ReadHeaderProperties(b, pack.next, s.(pack := Present(pack.value)), limits)
    else if b[o] == UNPACK_INFO then
      if s.unpack.Present? then Err(INVALID_7Z)
      else
        var unpack := ReadUnpackInfo(b, o + 1, limits);
        if unpack.Err? then Err(unpack.error)
        else ReadHeaderProperties(b, unpack.next, s.(unpack := Present(unpack.value)), limits)
    else Err(INVALID_7Z)
  }

  datatype Inspection =
    | NotEncoded
    | Encrypted
    | Plain(pack: PackInfo, coder: Coder, unpackSize: nat)

  datatype Inspected = Accepted(inspection: Inspection) | Rejected(error: Error)

  predicate SupportedCoder(c: Coder) {
    || (c.id == COPY && |c.properties| == 0)
    || (c.id == LZMA && |c.properties| == 5)
    || (c.id == LZMA2 && |c.properties| == 1)
  }

  /** inspectEncodedHeader */
  function InspectEncodedHeader(b: seq<Byte>, limits: Limits): Inspected {
    var kind := ReadByte(b, 0);
    if kind.Err? then Rejected(kind.error)
    else if kind.value != ENCODED_HEADER then Accepted(NotEncoded)
    else
      var header := ReadHeaderProperties(b, kind.next, HeaderState(Absent, Absent), limits);
      if header.Err? then Rejected(header.error)
      else if header.value.pack.Absent? || header.value.unpack.Absent? then Rejected(INVALID_7Z)
      else Decide(header.value.pack.value, header.value.unpack.value, limits)
  }

  function Decide(pack: PackInfo, unpack: UnpackInfo, limits: Limits): Inspected
    requires |unpack.unpackSizes| == |unpack.folders|
    requires forall i :: 0 <= i < |unpack.folders| ==> |unpack.unpackSizes[i]| >= 1
  {
    if |unpack.folders| != 1 || pack.packStreamCount != 1 then Rejected(INVALID_7Z)
    else
      var coders := unpack.folders[0].coders;
      if exists i :: 0 <= i < |coders| && coders[i].id == AES then Accepted(Encrypted)
      else if |coders| != 1 || !SupportedCoder(coders[0]) then Rejected(INVALID_7Z)
      else
        var sizes := unpack.unpackSizes[0];
        var unpackSize := sizes[|sizes| - 1];
        if unpackSize < 1 || unpackSize > limits.maxHeaderBytes then Rejected(METADATA_LIMIT)
        else Accepted(Plain(pack, coders[0], unpackSize))
  }

  // ----- what acceptance means -----

  /** An accepted plain header has one packed stream of bounded size, one supported coder, and an
      unpacked size between 1 and the limit. */
  lemma PlainHeaderIsBounded(b: seq<Byte>, limits: Limits)
    requires InspectEncodedHeader(b, limits).Accepted? && InspectEncodedHeader(b, limits).inspection.Plain?
    ensures var plain := InspectEncodedHeader(b, limits).inspection;
            && plain.pack.packStreamCount == 1 && plain.pack.packSizes == [plain.pack.packedBytes]
            && plain.pack.packedBytes <= limits.maxCompressedHeaderBytes
            && SupportedCoder(plain.coder) && plain.coder.id != AES
            && 1 <= plain.unpackSize <= limits.maxHeaderBytes
  {
    hide ReadHeaderProperties, SupportedCoder;
    var header := ReadHeaderProperties(b, 1, HeaderState(Absent, Absent), limits).value;
    var pack := header.pack.value;
    assert pack.packSizes == [pack.packSizes[0]];
    SumOfOne(pack.packSizes[0]);
  }

  // ----- writing a header -----

  function EncodeCoder(c: Coder): seq<Byte>
    requires 1 <= |c.id| <= 8 && |c.properties| <= MAX_SAFE_INTEGER
  {
    if c.properties == [] then [|c.id|] + c.id
    else [0x20 + |c.id|] + c.id + EncodeNumber(|c.properties|) + c.properties
  }

  function EncodePackInfo(position: nat, size: nat): seq<Byte>
    requires position <= MAX_SAFE_INTEGER && size <= MAX_SAFE_INTEGER
  {
    EncodeNumber(position) + EncodeNumber(1) + [SIZE] + EncodeNumber(size) + [END]
  }

  function EncodeUnpackInfo(c: Coder, size: nat): seq<Byte>
    requires 1 <= |c.id| <= 8 && |c.properties| <= MAX_SAFE_INTEGER && size <= MAX_SAFE_INTEGER
  {
    [FOLDER] + EncodeNumber(1) + [0] + EncodeNumber(1) + EncodeCoder(c) + [CODERS_UNPACK_SIZE] + EncodeNumber(size)
        + [END]
  }

  /** The header of an archive whose metadata is one stream packed by one coder. */
  function EncodeHeader(position: nat, packedBytes: nat, c: Coder, unpackSize: nat): seq<Byte>
    requires position <= MAX_SAFE_INTEGER && packedBytes <= MAX_SAFE_INTEGER && unpackSize <= MAX_SAFE_INTEGER
    requires 1 <= |c.id| <= 8 && |c.properties| <= MAX_SAFE_INTEGER
  {
    [ENCODED_HEADER, PACK_INFO] + EncodePackInfo(position, packedBytes)
    + [UNPACK_INFO] + EncodeUnpackInfo(c, unpackSize) + [END]
  }

  // ----- reading what was written -----

  /** The bytes e stand at offset o. */
  ghost predicate HasAt(b: seq<Byte>, o: nat, e: seq<Byte>) {
    o + |e| <= |b| && b[o..o + |e|] == e
  }

  lemma HasFirst(b: seq<Byte>, o: nat, x: seq<Byte>, y: seq<Byte>)
    requires HasAt(b, o, x + y)
    ensures HasAt(b, o, x) && HasAt(b, o + |x|, y)
  {
    assert b[o..o + |x|] == b[o..o + |x + y|][..|x|];
    assert b[o + |x|..o + |x| + |y|] == b[o..o + |x + y|][|x|..];
  }

  lemma HasByte(b: seq<Byte>, o: nat, x: Byte)
    requires HasAt(b, o, [x])
    ensures o < |b| && b[o] == x
  {
    assert b[o] == b[o..o + 1][0];
  }

  lemma NumberAt(b: seq<Byte>, o: nat, value: nat, maximum: nat)
    requires value <= MAX_SAFE_INTEGER && value <= maximum && HasAt(b, o, EncodeNumber(value))
    ensures ReadNumber(b, o, maximum) == Ok(value, o + |EncodeNumber(value)|)
  {
    hide ReadNumber, EncodeNumber;
    var n := |EncodeNumber(value)|;
    assert b == b[..o] + EncodeNumber(value) + b[o + n..];
    NumberRoundTrip(b[..o], value, b[o + n..], maximum);
  }

  lemma OneNumberAt(b: seq<Byte>, o: nat, value: nat, maximum: nat)
    requires value <= MAX_SAFE_INTEGER && value <= maximum && HasAt(b, o, EncodeNumber(value)) && o <= |b|
    ensures ReadNumbers(b, o, 1, maximum) == Ok([value], o + |EncodeNumber(value)|)
  {
    hide ReadNumber, EncodeNumber;
    NumberAt(b, o, value, maximum);
    var next := o + |EncodeNumber(value)|;
    assert ReadNumbers(b, next, 0, maximum) == Ok([], next);
    assert [value] + [] == [value];
  }

  lemma PackInfoAt(b: seq<Byte>, o: nat, position: nat, size: nat, limits: Limits)
    requires position <= MAX_SAFE_INTEGER && size <= MAX_SAFE_INTEGER
    requires size <= limits.maxCompressedHeaderBytes && 1 <= limits.maxPackStreams
    requires HasAt(b, o, EncodePackInfo(position, size))
    ensures ReadPackInfo(b, o, limits)
            == Ok(PackInfo(position, 1, [size], size), o + |EncodePackInfo(position, size)|)
  {
    hide ReadNumber, EncodeNumber, ReadNumbers, ReadPackSizes, Sum;
    var p, one, s := EncodeNumber(position), EncodeNumber(1), EncodeNumber(size);
    HasFirst(b, o, p + one + [SIZE] + s, [END]);
    HasFirst(b, o, p + one + [SIZE], s);
    HasFirst(b, o, p + one, [SIZE]);
    HasFirst(b, o, p, one);
    NumberAt(b, o, position, MAX_SAFE_INTEGER);
    NumberAt(b, o + |p|, 1, limits.maxPackStreams);
    var sizeAt := o + |p| + |one|;
    HasByte(b, sizeAt, SIZE);
    OneNumberAt(b, sizeAt + 1, size, limits.maxCompressedHeaderBytes);
    var endAt := sizeAt + 1 + |s|;
    HasByte(b, endAt, END);
    PackSizesAt(b, sizeAt, endAt, size, limits);
    SumOfOne(size);
  }

  lemma PackSizesAt(b: seq<Byte>, sizeAt: nat, endAt: nat, size: nat, limits: Limits)
    requires sizeAt < endAt < |b| && b[sizeAt] == SIZE && b[endAt] == END
    requires ReadNumbers(b, sizeAt + 1, 1, limits.maxCompressedHeaderBytes) == Ok([size], endAt)
    ensures ReadPackSizes(b, sizeAt, 1, [], limits) == Ok([size], endAt + 1)
  {
    hide ReadNumbers, SkipCrcs;
    assert ReadPackSizes(b, endAt, 1, [size], limits) == Ok([size], endAt + 1);
    assert [] + [size] == [size];
  }

  lemma SumOfOne(size: nat)
    ensures Sum([size]) == size
  {
    assert [size][..0] == [];
  }

  /** A coder with one input and one output stream. */
  lemma CoderAt(b: seq<Byte>, o: nat, c: Coder, limits: Limits)
    requires 1 <= |c.id| <= 8 && |c.properties| <= MAX_SAFE_INTEGER && |c.properties| <= limits.maxCoderPropertyBytes
    requires c.inputs == 1 && c.outputs == 1 && HasAt(b, o, EncodeCoder(c))
    ensures ReadCoder(b, o, limits) == Ok(c, o + |EncodeCoder(c)|)
  {
    hide ReadNumber, EncodeNumber, HasBit, ReadProperties, HasAt, ReadCoder;
    if c.properties == [] {
      HasFirst(b, o, [|c.id|], c.id);
      NoPropertiesAt(b, o + 1 + |c.id|, limits);
      CoderFrom(b, o, c, |c.id|, o + 1 + |c.id|, limits);
    } else {
      var flags: Byte, n := 0x20 + |c.id|, EncodeNumber(|c.properties|);
      assert [flags] + c.id + n + c.properties == [flags] + c.id + (n + c.properties);
      HasFirst(b, o, [flags] + c.id, n + c.properties);
      HasFirst(b, o, [flags], c.id);
      PropertiesAt(b, o + 1 + |c.id|, c.properties, limits);
      CoderFrom(b, o, c, flags, o + 1 + |c.id| + |n| + |c.properties|, limits);
    }
  }

  /** The flags and the identifier are read, and then the properties. */
  lemma CoderFrom(b: seq<Byte>, o: nat, c: Coder, flags: Byte, end: nat, limits: Limits)
    requires 1 <= |c.id| <= 8 && c.inputs == 1 && c.outputs == 1
    requires flags == |c.id| || flags == 0x20 + |c.id|
    requires HasAt(b, o, [flags]) && HasAt(b, o + 1, c.id)
    requires ReadProperties(b, o + 1 + |c.id|, flags != |c.id|, limits) == Ok(c.properties, end)
    ensures ReadCoder(b, o, limits) == Ok(c, end)
  {
    hide ReadNumber, HasBit, ReadProperties;
    FlagBits(|c.id|);
    HasByte(b, o, flags);
  }

  /** The identifier length alone, and with the bit for properties. */
  lemma FlagBits(n: nat)
    requires 1 <= n <= 8
    ensures n % 16 == n && (0x20 + n) % 16 == n
    ensures !HasBit(n, 0x80) && !HasBit(n, 0x10) && !HasBit(n, 0x20)
    ensures !HasBit(0x20 + n, 0x80) && !HasBit(0x20 + n, 0x10) && HasBit(0x20 + n, 0x20)
  {}

  lemma NoPropertiesAt(b: seq<Byte>, o: nat, limits: Limits)
    requires o <= |b|
    ensures ReadProperties(b, o, false, limits) == Ok([], o)
  {}

  lemma PropertiesAt(b: seq<Byte>, o: nat, properties: seq<Byte>, limits: Limits)
    requires |properties| <= MAX_SAFE_INTEGER && |properties| <= limits.maxCoderPropertyBytes && o <= |b|
    requires HasAt(b, o, EncodeNumber(|properties|) + properties)
    ensures ReadProperties(b, o, true, limits) == Ok(properties, o + |EncodeNumber(|properties|)| + |properties|)
  {
    hide ReadNumber, EncodeNumber;
    HasFirst(b, o, EncodeNumber(|properties|), properties);
    NumberAt(b, o, |properties|, limits.maxCoderPropertyBytes);
  }

  lemma FolderAt(b: seq<Byte>, o: nat, c: Coder, limits: Limits)
    requires 1 <= |c.id| <= 8 && |c.properties| <= MAX_SAFE_INTEGER && |c.properties| <= limits.maxCoderPropertyBytes
    requires c.inputs == 1 && c.outputs == 1 && 1 <= limits.maxCoders && 1 <= limits.maxStreams
    requires HasAt(b, o, EncodeNumber(1) + EncodeCoder(c))
    ensures ReadFolder(b, o, limits) == Ok(Folder([c], 1), o + |EncodeNumber(1)| + |EncodeCoder(c)|)
  {
    hide ReadNumber, EncodeNumber, EncodeCoder, ReadCoder;
    HasFirst(b, o, EncodeNumber(1), EncodeCoder(c));
    NumberAt(b, o, 1, limits.maxCoders);
    var coderAt := o + |EncodeNumber(1)|;
    CoderAt(b, coderAt, c, limits);
    var next := coderAt + |EncodeCoder(c)|;
    assert [] + [c] == [c];
    assert ReadCoders(b, next, 0, Streams([c], 1, 1), limits) == Ok(Streams([c], 1, 1), next);
    assert ReadCoders(b, coderAt, 1, Streams([], 0, 0), limits) == Ok(Streams([c], 1, 1), next);
    assert ReadNumbers(b, next, 0, limits.maxStreams) == Ok([], next);
  }

  lemma FolderBlockAt(b: seq<Byte>, o: nat, c: Coder, limits: Limits)
    requires 1 <= |c.id| <= 8 && |c.properties| <= MAX_SAFE_INTEGER && |c.properties| <= limits.maxCoderPropertyBytes
    requires c.inputs == 1 && c.outputs == 1 && 1 <= limits.maxCoders && 1 <= limits.maxStreams
    requires 1 <= limits.maxFolders
    requires HasAt(b, o, EncodeNumber(1) + [0] + (EncodeNumber(1) + EncodeCoder(c)))
    ensures ReadFolderBlock(b, o, limits)
            == Ok([Folder([c], 1)], o + |EncodeNumber(1)| + 1 + |EncodeNumber(1)| + |EncodeCoder(c)|)
  {
    hide ReadNumber, EncodeNumber, EncodeCoder, ReadFolder;
    var one := EncodeNumber(1);
    HasFirst(b, o, one + [0], one + EncodeCoder(c));
    HasFirst(b, o, one, [0]);
    NumberAt(b, o, 1, limits.maxFolders);
    HasByte(b, o + |one|, 0);
    var folderAt := o + |one| + 1;
    FolderAt(b, folderAt, c, limits);
    var next := folderAt + |one| + |EncodeCoder(c)|;
    assert ReadFolders(b, next, 0, limits) == Ok([], next);
    assert [Folder([c], 1)] + [] == [Folder([c], 1)];
  }

  ghost predicate Writable(c: Coder, limits: Limits) {
    && 1 <= |c.id| <= 8 && |c.properties| <= MAX_SAFE_INTEGER && |c.properties| <= limits.maxCoderPropertyBytes
    && c.inputs == 1 && c.outputs == 1
    && 1 <= limits.maxCoders && 1 <= limits.maxStreams && 1 <= limits.maxFolders && 1 <= limits.maxPackStreams
  }

  lemma UnpackInfoAt(b: seq<Byte>, o: nat, c: Coder, size: nat, limits: Limits)
    requires Writable(c, limits) && size <= MAX_SAFE_INTEGER && size <= limits.maxHeaderBytes
    requires HasAt(b, o, EncodeUnpackInfo(c, size))
    ensures ReadUnpackInfo(b, o, limits)
            == Ok(UnpackInfo([Folder([c], 1)], [[size]]), o + |EncodeUnpackInfo(c, size)|)
  {
    hide ReadNumber, EncodeNumber, EncodeCoder, ReadNumbers, ReadFolderBlock, SkipCrcs;
    var one, coder, s := EncodeNumber(1), EncodeCoder(c), EncodeNumber(size);
    var block := one + [0] + (one + coder);
    assert EncodeUnpackInfo(c, size) == [FOLDER] + block + [CODERS_UNPACK_SIZE] + s + [END];
    HasFirst(b, o, [FOLDER] + block + [CODERS_UNPACK_SIZE] + s, [END]);
    HasFirst(b, o, [FOLDER] + block + [CODERS_UNPACK_SIZE], s);
    HasFirst(b, o, [FOLDER] + block, [CODERS_UNPACK_SIZE]);
    HasFirst(b, o, [FOLDER], block);
    HasByte(b, o, FOLDER);
    FolderBlockAt(b, o + 1, c, limits);
    var sizeAt := o + 1 + |block|;
    HasByte(b, sizeAt, CODERS_UNPACK_SIZE);
    OneNumberAt(b, sizeAt + 1, size, limits.maxHeaderBytes);
    var endAt := sizeAt + 1 + |s|;
    HasByte(b, endAt, END);
    var folders := [Folder([c], 1)];
    UnpackPropertiesAt(b, o, sizeAt, endAt, folders, size, limits);
  }

  lemma UnpackPropertiesAt(
    b: seq<Byte>, o: nat, sizeAt: nat, endAt: nat, folders: seq<Folder>, size: nat, limits: Limits
  )
    requires o < sizeAt < endAt < |b| && b[o] == FOLDER && b[sizeAt] == CODERS_UNPACK_SIZE && b[endAt] == END
    requires |folders| == 1 && folders[0].outputStreams == 1
    requires ReadFolderBlock(b, o + 1, limits) == Ok(folders, sizeAt)
    requires ReadNumbers(b, sizeAt + 1, 1, limits.maxHeaderBytes) == Ok([size], endAt)
    ensures ReadUnpackInfo(b, o, limits) == Ok(UnpackInfo(folders, [[size]]), endAt + 1)
  {
    hide ReadNumbers, ReadFolderBlock, SkipCrcs;
    assert folders[1..] == [];
    assert ReadUnpackSizes(b, endAt, [], limits) == Ok([], endAt);
    assert [[size]] + [] == [[size]];
    assert ReadUnpackSizes(b, sizeAt + 1, folders, limits) == Ok([[size]], endAt);
    var seen := UnpackState(Present(folders), Present([[size]]));
    assert ReadUnpackProperties(b, endAt, seen, limits) == Ok(seen, endAt + 1);
    assert ReadUnpackProperties(b, sizeAt, UnpackState(Present(folders), Absent), limits) == Ok(seen, endAt + 1);
    assert ReadUnpackProperties(b, o, UnpackState(Absent, Absent), limits) == Ok(seen, endAt + 1);
  }

  /** A header written for one packed stream and one coder is read back exactly. */
  lemma HeaderRoundTrip(position: nat, packedBytes: nat, c: Coder, unpackSize: nat, limits: Limits)
    requires position <= MAX_SAFE_INTEGER && packedBytes <= MAX_SAFE_INTEGER && unpackSize <= MAX_SAFE_INTEGER
    requires Writable(c, limits) && SupportedCoder(c)
    requires packedBytes <= limits.maxCompressedHeaderBytes && 1 <= unpackSize <= limits.maxHeaderBytes
    ensures InspectEncodedHeader(EncodeHeader(position, packedBytes, c, unpackSize), limits)
            == Accepted(Plain(PackInfo(position, 1, [packedBytes], packedBytes), c, unpackSize))
  {
    hide EncodePackInfo, EncodeUnpackInfo, ReadPackInfo, ReadUnpackInfo, SupportedCoder;
    var b := EncodeHeader(position, packedBytes, c, unpackSize);
    var p, u := EncodePackInfo(position, packedBytes), EncodeUnpackInfo(c, unpackSize);
    assert b[0..|b|] == b;
    assert HasAt(b, 0, [ENCODED_HEADER, PACK_INFO] + p + [UNPACK_INFO] + u + [END]);
    HasFirst(b, 0, [ENCODED_HEADER, PACK_INFO] + p + [UNPACK_INFO] + u, [END]);
    HasFirst(b, 0, [ENCODED_HEADER, PACK_INFO] + p + [UNPACK_INFO], u);
    HasFirst(b, 0, [ENCODED_HEADER, PACK_INFO] + p, [UNPACK_INFO]);
    HasFirst(b, 0, [ENCODED_HEADER, PACK_INFO], p);
    PackInfoAt(b, 2, position, packedBytes, limits);
    var unpackAt := 2 + |p|;
    HasByte(b, unpackAt, UNPACK_INFO);
    UnpackInfoAt(b, unpackAt + 1, c, unpackSize, limits);
    var endAt := unpackAt + 1 + |u|;
    HasByte(b, endAt, END);
    var pack, unpack := PackInfo(position, 1, [packedBytes], packedBytes), UnpackInfo([Folder([c], 1)], [[unpackSize]]);
    HeaderPropertiesAt(b, unpackAt, endAt, pack, unpack, limits);
    DecidePlain(pack, unpack, c, unpackSize, limits);
  }

  lemma HeaderPropertiesAt(b: seq<Byte>, unpackAt: nat, endAt: nat, pack: PackInfo, unpack: UnpackInfo, limits: Limits)
    requires 1 < unpackAt < endAt < |b| && b[1] == PACK_INFO && b[unpackAt] == UNPACK_INFO && b[endAt] == END
    requires ReadPackInfo(b, 2, limits) == Ok(pack, unpackAt)
    requires ReadUnpackInfo(b, unpackAt + 1, limits) == Ok(unpack, endAt)
    ensures ReadHeaderProperties(b, 1, HeaderState(Absent, Absent), limits)
            == Ok(HeaderState(Present(pack), Present(unpack)), endAt + 1)
  {
    hide ReadPackInfo, ReadUnpackInfo;
    var seen := HeaderState(Present(pack), Present(unpack));
    assert ReadHeaderProperties(b, endAt, seen, limits) == Ok(seen, endAt + 1);
    assert ReadHeaderProperties(b, unpackAt, HeaderState(Present(pack), Absent), limits) == Ok(seen, endAt + 1);
  }

  lemma DecidePlain(pack: PackInfo, unpack: UnpackInfo, c: Coder, unpackSize: nat, limits: Limits)
    requires pack.packStreamCount == 1 && unpack == UnpackInfo([Folder([c], 1)], [[unpackSize]])
    requires SupportedCoder(c) && 1 <= unpackSize <= limits.maxHeaderBytes
    ensures Decide(pack, unpack, limits) == Accepted(Plain(pack, c, unpackSize))
  {
    assert c.id[0] != AES[0];
  }
}

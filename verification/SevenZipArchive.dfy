/** The signature header, the bounded reads of the archive file, and where the parts of an
    accepted archive lie (src/seven-zip-parser-worker.js). */
module SevenZipArchive {
  import opened SevenZipNumbers
  import opened SevenZipHeader
  import opened Crc32
  import SevenZipReader

  const SIGNATURE: seq<Byte> := [0x37, 0x7a, 0xbc, 0xaf, 0x27, 0x1c]
  const SIGNATURE_HEADER_SIZE: nat := 32

  // ----- reads -----

  function Min(a: nat, b: nat): nat {
    if a < b then a else b
  }

  /** What the file now holds in a range: less than asked for where it was cut short. */
  function Range(data: seq<Byte>, position: nat, length: nat): (r: seq<Byte>)
    ensures |r| <= length
  {
    if position >= |data| then [] else data[position..Min(position + length, |data|)]
  }

  /** BoundedFileSource.read: the bytes, and the total read so far as next. */
  function BoundedRead(
    data: seq<Byte>, size: nat, total: nat, position: nat, length: nat, limits: Limits
  ): (r: Outcome<seq<Byte>>)
    ensures r.Ok? ==> |r.value| <= length <= limits.maxSingleReadBytes && total <= limits.maxTotalReadBytes
    ensures r.Ok? ==> r.next == total + |r.value| <= limits.maxTotalReadBytes
    ensures r.Ok? ==> position + |r.value| <= size
  {
    if length > limits.maxSingleReadBytes then Err(METADATA_LIMIT)
    else if position > size then Err(INVALID_7Z)
    else
      var available := Min(length, size - position);
      if total + available > limits.maxTotalReadBytes then Err(METADATA_LIMIT)
      else
        var value := Range(data, position, available);
        Ok(value, total + |value|)
  }

  function ToWords(bytes: seq<Byte>): seq<bv8> {
    seq(|bytes|, i requires 0 <= i < |bytes| => bytes[i] as bv8)
  }

  predicate CrcMatches(stored: seq<Byte>, bytes: seq<Byte>) {
    LittleEndian(stored) == Crc(ToWords(bytes)) as int
  }

  // ----- the whole inspection -----

  /** Next Header Offset and Next Header Size. */
  function NextOffset(header: seq<Byte>): nat
    requires |header| == SIGNATURE_HEADER_SIZE
  {
    LittleEndian(header[12..20])
  }

  function NextSize(header: seq<Byte>): nat
    requires |header| == SIGNATURE_HEADER_SIZE
  {
    LittleEndian(header[20..28])
  }

  predicate SignatureOk(header: seq<Byte>) {
    && |header| == SIGNATURE_HEADER_SIZE && header[..6] == SIGNATURE && header[6] == 0
    && CrcMatches(header[8..12], header[12..32])
  }

  /** The checks on the position of the next header. */
  function CheckNextHeader(header: seq<Byte>, size: nat, limits: Limits): (r: Outcome<nat>)
    requires |header| == SIGNATURE_HEADER_SIZE
    ensures r.Ok? ==> r.value == SIGNATURE_HEADER_SIZE + NextOffset(header)
                      && 1 <= NextSize(header) <= limits.maxHeaderBytes && r.value + NextSize(header) <= size
  {
    if NextOffset(header) > MAX_SAFE_INTEGER || NextSize(header) > MAX_SAFE_INTEGER then Err(INVALID_7Z)
    else if NextSize(header) < 1 || NextSize(header) > limits.maxHeaderBytes then Err(METADATA_LIMIT)
    else
      var absolute := SIGNATURE_HEADER_SIZE + NextOffset(header);
      if absolute > MAX_SAFE_INTEGER || absolute > size || NextSize(header) > size - absolute then Err(INVALID_7Z)
      else Ok(absolute, 0)
  }

  predicate PackedDataFits(inspection: Inspection, nextOffset: nat) {
    inspection.Plain? ==>
      inspection.pack.packPosition <= nextOffset
          && inspection.pack.packedBytes <= nextOffset - inspection.pack.packPosition
  }

  /** The inspection and, as next, the bytes read for it. */
  function InspectArchive(data: seq<Byte>, size: nat, limits: Limits): Outcome<Inspection> {
    var first := BoundedRead(data, size, 0, 0, SIGNATURE_HEADER_SIZE, limits);
    if first.Err? then Err(first.error)
    else if !SignatureOk(first.value) then Err(INVALID_7Z)
    else
      var header := first.value;
      var absolute := CheckNextHeader(header, size, limits);
      if absolute.Err? then Err(absolute.error)
      else
        var next := BoundedRead(data, size, first.next, absolute.value, NextSize(header), limits);
        if next.Err? then Err(next.error)
        else if !CrcMatches(header[28..32], next.value) then Err(INVALID_7Z)
        else
          var encoded := InspectEncodedHeader(next.value, limits);
          if encoded.Rejected? then Err(encoded.error)
          else if !PackedDataFits(encoded.inspection, NextOffset(header)) then Err(INVALID_7Z)
          else Ok(encoded.inspection, next.next)
  }

  /** Where the parts of an accepted archive lie: the packed metadata between the signature header
      and the next header, the next header inside the file, and no more read than allowed. */
  lemma AcceptedGeometry(data: seq<Byte>, size: nat, limits: Limits)
    requires InspectArchive(data, size, limits).Ok? && InspectArchive(data, size, limits).value.Plain?
    ensures |Range(data, 0, SIGNATURE_HEADER_SIZE)| == SIGNATURE_HEADER_SIZE
    ensures var header, plain := Range(data, 0, SIGNATURE_HEADER_SIZE), InspectArchive(data, size, limits).value;
            var packedStart := SIGNATURE_HEADER_SIZE + plain.pack.packPosition;
            var nextHeader := SIGNATURE_HEADER_SIZE + NextOffset(header);
            && plain.pack.packStreamCount == 1 && plain.pack.packSizes == [plain.pack.packedBytes]
            && SIGNATURE_HEADER_SIZE <= packedStart && packedStart + plain.pack.packedBytes <= nextHeader
            && nextHeader + NextSize(header) <= size && 1 <= NextSize(header) <= limits.maxHeaderBytes
            && SupportedCoder(plain.coder) && 1 <= plain.unpackSize <= limits.maxHeaderBytes
            && InspectArchive(data, size, limits).next <= limits.maxTotalReadBytes
  {
    hide CrcMatches, InspectEncodedHeader, SupportedCoder, LittleEndian;
    var first := BoundedRead(data, size, 0, 0, SIGNATURE_HEADER_SIZE, limits);
    var header := first.value;
    ShortRange(data, size);
    assert header == Range(data, 0, SIGNATURE_HEADER_SIZE);
    var next := BoundedRead(data, size, first.next, SIGNATURE_HEADER_SIZE + NextOffset(header), NextSize(header),
                            limits);
    PlainHeaderIsBounded(next.value, limits);
  }

  /** A whole header is read only where the file is long enough. */
  lemma ShortRange(data: seq<Byte>, size: nat)
    ensures |Range(data, 0, Min(SIGNATURE_HEADER_SIZE, size))| == SIGNATURE_HEADER_SIZE ==>
              Range(data, 0, Min(SIGNATURE_HEADER_SIZE, size)) == Range(data, 0, SIGNATURE_HEADER_SIZE)
  {}

  // ----- the program -----

  class BoundedFileSource {
    /** What reads find; it may have been cut short since size was taken. */
    const data: seq<Byte>
    const size: nat
    const limits: Limits
    var totalReadBytes: nat

    constructor (data: seq<Byte>, size: nat, limits: Limits)
      ensures Valid() && totalReadBytes == 0 && this.data == data && this.size == size && this.limits == limits
    {
      this.data, this.size, this.limits := data, size, limits;
      totalReadBytes := 0;
    }

    predicate Valid()
      reads this
    {
      totalReadBytes <= limits.maxTotalReadBytes
    }

    /** One readSync call: some of the bytes wanted, none only at the end of the file. */
    method ReadSync(position: nat, wanted: nat) returns (chunk: seq<Byte>)
      ensures chunk == Range(data, position, |chunk|) && |chunk| <= wanted
      ensures chunk == [] <==> Range(data, position, wanted) == []
    {
      hide Range;
      var all := Range(data, position, wanted);
      var count := 0;
      if all != [] {
        count :| 1 <= count <= |all|;
      }
      RangePrefix(data, position, wanted, count);
      chunk := all[..count];
    }

    /** readSync until everything available is there, or the file ends. */
    method ReadAvailable(position: nat, available: nat) returns (output: seq<Byte>)
      ensures output == Range(data, position, available)
    {
      hide Range;
      output := [];
      var more := true;
      RangePrefix(data, position, available, 0);
      while more && |output| < available
        invariant |output| <= available && output == Range(data, position, |output|)
        invariant !more ==> output == Range(data, position, available)
        decreases available - |output|, more
      {
        var chunk := ReadSync(position + |output|, available - |output|);
        RangeJoins(data, position, |output|, |chunk|);
        RangeEnds(data, position, |output|, available);
        output := output + chunk;
        more := chunk != [];
      }
    }

    method Read(position: nat, length: nat) returns (r: Outcome<array<Byte>>)
      requires Valid()
      modifies this
      ensures Valid()
      ensures match BoundedRead(data, size, old(totalReadBytes), position, length, limits)
              case Ok(value, total) => r.Ok? && fresh(r.value) && r.value[..] == value && totalReadBytes == total
              case Err(error) => r == Err(error) && totalReadBytes == old(totalReadBytes)
    {
      hide Range;
      if length > limits.maxSingleReadBytes {
        return Err(METADATA_LIMIT);
      }
      if position > size {
        return Err(INVALID_7Z);
      }
      var available := Min(length, size - position);
      if totalReadBytes + available > limits.maxTotalReadBytes {
        return Err(METADATA_LIMIT);
      }
      var output := ReadAvailable(position, available);
      totalReadBytes := totalReadBytes + |output|;
      var buffer := new Byte[|output|](i requires 0 <= i < |output| => output[i]);
      assert buffer[..] == output;
      return Ok(buffer, totalReadBytes);
    }
  }

  lemma RangePrefix(data: seq<Byte>, position: nat, length: nat, count: nat)
    requires count <= |Range(data, position, length)|
    ensures Range(data, position, length)[..count] == Range(data, position, count)
  {}

  lemma RangeJoins(data: seq<Byte>, position: nat, n: nat, m: nat)
    ensures |Range(data, position, n)| == n ==>
              Range(data, position, n) + Range(data, position + n, m) == Range(data, position, n + m)
  {}

  lemma RangeEnds(data: seq<Byte>, position: nat, n: nat, available: nat)
    requires n <= available
    ensures |Range(data, position, n)| == n && Range(data, position + n, available - n) == [] ==>
              Range(data, position, n) == Range(data, position, available)
  {}

  method CheckCrc(table: array<bv32>, stored: seq<Byte>, bytes: seq<Byte>) returns (ok: bool)
    requires IsTable(table[..])
    ensures ok == CrcMatches(stored, bytes)
  {
    hide IsTable, Crc, LittleEndian;
    var crc := Crc32.Crc32(table, ToWords(bytes));
    ok := LittleEndian(stored) == crc as int;
  }

  method InspectSignatureAndHeader(source: BoundedFileSource, table: array<bv32>) returns (r: Outcome<Inspection>)
    requires source.Valid() && source.totalReadBytes == 0 && IsTable(table[..])
    modifies source
    ensures source.Valid()
    ensures match InspectArchive(source.data, source.size, source.limits)
            case Ok(inspection, total) => r.Ok? && r.value == inspection && source.totalReadBytes == total
            case Err(error) => r == Err(error)
  {
    hide CrcMatches, InspectEncodedHeader, LittleEndian, IsTable, Range;
    var first := source.Read(0, SIGNATURE_HEADER_SIZE);
    if first.Err? {
      return Err(first.error);
    }
    var header := first.value[..];
    if |header| != SIGNATURE_HEADER_SIZE || header[..6] != SIGNATURE || header[6] != 0 {
      return Err(INVALID_7Z);
    }
    var startOk := CheckCrc(table, header[8..12], header[12..32]);
    if !startOk {
      return Err(INVALID_7Z);
    }
    var absolute := CheckNextHeader(header, source.size, source.limits);
    if absolute.Err? {
      return Err(absolute.error);
    }
    var next := source.Read(absolute.value, NextSize(header));
    if next.Err? {
      return Err(next.error);
    }
    var nextOk := CheckCrc(table, header[28..32], next.value[..]);
    if !nextOk {
      return Err(INVALID_7Z);
    }
    var encoded := SevenZipReader.InspectHeader(next.value, source.limits);
    if encoded.Rejected? {
      return Err(encoded.error);
    }
    if !PackedDataFits(encoded.inspection, NextOffset(header)) {
      return Err(INVALID_7Z);
    }
    return Ok(encoded.inspection, source.totalReadBytes);
  }
}

/** Reading a ZIP archive: the end record, the central directory and one entry. The checksum and the inflater are
    parameters. */
module ZipDirectory {
  import opened Outcomes

  type Byte = b: nat | b < 0x100
  type Bytes = seq<Byte>

  datatype Entry = Entry(
    name: Bytes,
    flags: nat,
    compression: nat,
    crc: nat,
    compressedSize: nat,
    uncompressedSize: nat,
    localOffset: nat)

  const CUT_FIELD := "Invalid ZIP archive: truncated field"
  const CUT_DATA := "Invalid ZIP archive: truncated entry data"
  const CUT_DEFLATE := "Invalid ZIP archive: truncated deflate data"
  const CUT_DIRECTORY := "Invalid ZIP archive: central directory is truncated"
  const NO_END := "Invalid ZIP archive: missing end of central directory"
  const BAD_ENTRY := "Invalid ZIP archive: bad central directory entry"
  const BAD_LOCAL := "Invalid ZIP archive: bad local file header"
  const BAD_CRC := "Invalid ZIP archive: CRC mismatch for entry"
  const SPLIT := "Unsupported ZIP archive: split archives are not supported"
  const ZIP64 := "Unsupported ZIP archive: ZIP64 is not supported"
  const ENCRYPTED := "Unsupported ZIP archive: encrypted entries are not supported"
  const BAD_METHOD := "Unsupported ZIP compression method for entry"
  const NOT_FOUND := "ZIP entry not found"
  const NO_FILES := "ZIP archive contains no file entries"
  const MANY_FILES := "ZIP archive contains multiple files"

  const END_SIGNATURE := 0x06054b50
  const CENTRAL_SIGNATURE := 0x02014b50
  const LOCAL_SIGNATURE := 0x04034b50
  const END_SIZE := 22
  const MAX_16 := 0xffff
  const MAX_32 := 0xffff_ffff

  // ----- Little-endian fields -----

  function ByteAt(data: Bytes, i: nat): nat
    requires i < |data|
  {
    data[i]
  }

  function ReadLe16(data: Bytes, offset: nat): (r: Result<nat>)
    ensures r.Ok? ==> r.value <= MAX_16
  {
    if offset + 2 > |data| then Err(CUT_FIELD)
    else Ok(ByteAt(data, offset) + ByteAt(data, offset + 1) * 0x100)
  }

  function ReadLe32(data: Bytes, offset: nat): (r: Result<nat>)
    ensures r.Ok? ==> r.value <= MAX_32
  {
    if offset + 4 > |data| then Err(CUT_FIELD)
    else
      Ok(ByteAt(data, offset) + ByteAt(data, offset + 1) * 0x100 + ByteAt(data, offset + 2) * 0x1_0000
         + ByteAt(data, offset + 3) * 0x100_0000)
  }

  function ReadBytes(data: Bytes, offset: nat, size: nat): Result<Bytes> {
    if offset + size > |data| then Err(CUT_DATA) else Ok(data[offset..offset + size])
  }

  // ----- The end record -----

  predicate IsEnd(data: Bytes, offset: nat) {
    ReadLe32(data, offset) == Ok(END_SIGNATURE)
  }

  function SearchStart(data: Bytes): nat {
    if |data| > END_SIZE + MAX_16 then |data| - (END_SIZE + MAX_16) else 0
  }

  /** `offset` is the last place in the searched part where an end record can start. */
  predicate IsLastEnd(data: Bytes, offset: nat) {
    && SearchStart(data) <= offset && offset + END_SIZE <= |data| && IsEnd(data, offset)
    && forall k: nat | offset < k <= |data| - END_SIZE :: !IsEnd(data, k)
  }

  /** The last end record below `above`. */
  function LastEnd(data: Bytes, above: nat): Result<nat>
    decreases above
  {
    if above <= SearchStart(data) then Err(NO_END)
    else if IsEnd(data, above - 1) then Ok(above - 1)
    else LastEnd(data, above - 1)
  }

  function EndRecord(data: Bytes): Result<nat> {
    if |data| < END_SIZE then Err(NO_END) else LastEnd(data, |data| - END_SIZE + 1)
  }

  lemma {:induction false} LastEndIs(data: Bytes, above: nat, offset: nat)
    requires above + END_SIZE <= |data| + 1
    requires forall k: nat | above <= k <= |data| - END_SIZE :: !IsEnd(data, k)
    ensures LastEnd(data, above) == Ok(offset) <==> IsLastEnd(data, offset)
    decreases above
  {
    if above > SearchStart(data) && !IsEnd(data, above - 1) {
      LastEndIs(data, above - 1, offset);
    }
  }

  /** The search finds an end record exactly when no later one is in reach. */
  lemma {:induction false} EndRecordIs(data: Bytes, offset: nat)
    ensures EndRecord(data) == Ok(offset) <==> IsLastEnd(data, offset)
  {
    if |data| >= END_SIZE {
      LastEndIs(data, |data| - END_SIZE + 1, offset);
    }
  }

  method FindEndOfCentralDirectory(data: Bytes) returns (r: Result<nat>)
    ensures r == EndRecord(data)
    ensures forall offset: nat :: r == Ok(offset) <==> IsLastEnd(data, offset)
  {
    forall offset: nat ensures EndRecord(data) == Ok(offset) <==> IsLastEnd(data, offset) { EndRecordIs(data, offset); }
    if |data| < END_SIZE { return Err(NO_END); }
    var searchStart := SearchStart(data);
    var offset := |data| - END_SIZE + 1;
    while offset > searchStart
      invariant searchStart <= offset && LastEnd(data, offset) == EndRecord(data)
    {
      offset := offset - 1;
      if IsEnd(data, offset) { return Ok(offset); }
    }
    r := Err(NO_END);
  }

  // ----- The central directory -----

  /** An entry of the directory and the offset of the next one. */
  function ReadEntry(data: Bytes, offset: nat): Result<(Entry, nat)> {
    var signature :- ReadLe32(data, offset);
    if signature != CENTRAL_SIGNATURE then Err(BAD_ENTRY)
    else
      var flags :- ReadLe16(data, offset + 8);
      var compression :- ReadLe16(data, offset + 10);
      var crc :- ReadLe32(data, offset + 16);
      var compressedSize :- ReadLe32(data, offset + 20);
      var uncompressedSize :- ReadLe32(data, offset + 24);
      var nameLength :- ReadLe16(data, offset + 28);
      var extraLength :- ReadLe16(data, offset + 30);
      var commentLength :- ReadLe16(data, offset + 32);
      var localOffset :- ReadLe32(data, offset + 42);
      var name :- ReadBytes(data, offset + 46, nameLength);
      if compressedSize == MAX_32 || uncompressedSize == MAX_32 || localOffset == MAX_32 then Err(ZIP64)
      else
        Ok((Entry(name, flags, compression, crc, compressedSize, uncompressedSize, localOffset),
            offset + 46 + nameLength + extraLength + commentLength))
  }

  const SLASH := 0x2f

  /** Whether a name is a file's: directories end in a slash. */
  predicate IsFile(name: Bytes) {
    name != [] && name[|name| - 1] != SLASH
  }

  /** The file entries among the next `count`. */
  function ReadEntries(data: Bytes, offset: nat, count: nat): Result<seq<Entry>>
    decreases count
  {
    if count == 0 then Ok([])
    else
      var first :- ReadEntry(data, offset);
      var rest :- ReadEntries(data, first.1, count - 1);
      Ok((if IsFile(first.0.name) then [first.0] else []) + rest)
  }

  datatype Directory = Directory(offset: nat, count: nat)

  /** Where the directory is, by the end record at `end`. */
  function ReadEnd(data: Bytes, end: nat): Result<Directory> {
    var disk :- ReadLe16(data, end + 4);
    var centralDisk :- ReadLe16(data, end + 6);
    var entriesThisDisk :- ReadLe16(data, end + 8);
    var entriesTotal :- ReadLe16(data, end + 10);
    var size :- ReadLe32(data, end + 12);
    var offset :- ReadLe32(data, end + 16);
    if disk != 0 || centralDisk != 0 || entriesThisDisk != entriesTotal then Err(SPLIT)
    else if entriesTotal == MAX_16 || size == MAX_32 || offset == MAX_32 then Err(ZIP64)
    else if offset + size > |data| then Err(CUT_DIRECTORY)
    else Ok(Directory(offset, entriesTotal))
  }

  function FileEntries(data: Bytes): Result<seq<Entry>> {
    var end :- EndRecord(data);
    var directory :- ReadEnd(data, end);
    ReadEntries(data, directory.offset, directory.count)
  }

  /** `r` with `entries` before its own. */
  function Before(entries: seq<Entry>, r: Result<seq<Entry>>): Result<seq<Entry>> {
    match r
    case Ok(more) => Ok(entries + more)
    case Err(message) => Err(message)
  }

  lemma {:induction false} BeforeNone(r: Result<seq<Entry>>)
    ensures Before([], r) == r
  {
    if r.Ok? { assert [] + r.value == r.value; }
  }

  lemma {:induction false} BeforeStep(data: Bytes, entries: seq<Entry>, offset: nat, count: nat)
    requires count > 0
    ensures Before(entries, ReadEntries(data, offset, count)) ==
      match ReadEntry(data, offset)
      case Err(message) => Err(message)
      case Ok(first) =>
        Before(if IsFile(first.0.name) then entries + [first.0] else entries, ReadEntries(data, first.1, count - 1))
  {
    var first := ReadEntry(data, offset);
    if first.Ok? {
      var rest := ReadEntries(data, first.value.1, count - 1);
      if rest.Ok? {
        var e := first.value.0;
        assert entries + ([e] + rest.value) == entries + [e] + rest.value;
        assert entries + ([] + rest.value) == entries + rest.value;
      }
    }
  }

  method ReadDirectoryEntries(data: Bytes, start: nat, count: nat) returns (r: Result<seq<Entry>>)
    ensures r == ReadEntries(data, start, count)
  {
    var entries := [];
    var offset := start;
    ghost var all := ReadEntries(data, start, count);
    BeforeNone(all);
    for i := 0 to count
      invariant all == Before(entries, ReadEntries(data, offset, count - i))
    {
      BeforeStep(data, entries, offset, count - i);
      var next := ReadEntry(data, offset);
      if next.Err? { return Err(next.message); }
      offset := next.value.1;
      if IsFile(next.value.0.name) { entries := entries + [next.value.0]; }
    }
    assert entries + [] == entries;
    r := Ok(entries);
  }

  method ReadCentralDirectory(data: Bytes) returns (r: Result<seq<Entry>>)
    ensures r == FileEntries(data)
  {
    var end :- FindEndOfCentralDirectory(data);
    var directory :- ReadEnd(data, end);
    r := ReadDirectoryEntries(data, directory.offset, directory.count);
  }

  // ----- One entry -----

  /** The entry asked for, or the only one when none is asked for. */
  method SelectEntry(entries: seq<Entry>, requested: Bytes) returns (r: Result<Entry>)
    ensures r == Selected(entries, requested)
  {
    if requested != [] {
      for i := 0 to |entries|
        invariant Selected(entries[i..], requested) == Selected(entries, requested)
      {
        if entries[i].name == requested { return Ok(entries[i]); }
        assert entries[i..][1..] == entries[i + 1..];
      }
      return Err(NOT_FOUND);
    }
    if entries == [] { return Err(NO_FILES); }
    if |entries| == 1 { return Ok(entries[0]); }
    r := Err(MANY_FILES);
  }

  function Selected(entries: seq<Entry>, requested: Bytes): Result<Entry> {
    if requested != [] then
      if entries == [] then Err(NOT_FOUND)
      else if entries[0].name == requested then Ok(entries[0])
      else Selected(entries[1..], requested)
    else if entries == [] then Err(NO_FILES)
    else if |entries| == 1 then Ok(entries[0])
    else Err(MANY_FILES)
  }

  lemma {:induction false} SelectedIs(entries: seq<Entry>, i: nat)
    requires i < |entries| && entries[i].name != []
    requires forall j | 0 <= j < i :: entries[j].name != entries[i].name
    ensures Selected(entries, entries[i].name) == Ok(entries[i])
  {
    if i > 0 { SelectedIs(entries[1..], i - 1); }
  }

  function DataOffset(data: Bytes, entry: Entry): Result<nat> {
    var offset := entry.localOffset;
    var signature :- ReadLe32(data, offset);
    if signature != LOCAL_SIGNATURE then Err(BAD_LOCAL)
    else
      var nameLength :- ReadLe16(data, offset + 26);
      var extraLength :- ReadLe16(data, offset + 28);
      Ok(offset + 30 + nameLength + extraLength)
  }

  type Inflater = (Bytes, nat) -> Result<Bytes>

  function Unpacked(data: Bytes, entry: Entry, inflate: Inflater): Result<Bytes> {
    if entry.flags % 2 != 0 then Err(ENCRYPTED)
    else
      var offset :- DataOffset(data, entry);
      if entry.compression == 0 then ReadBytes(data, offset, entry.uncompressedSize)
      else if entry.compression != 8 then Err(BAD_METHOD)
      else if offset + entry.compressedSize > |data| then Err(CUT_DEFLATE)
      else inflate(data[offset..offset + entry.compressedSize], entry.uncompressedSize)
  }

  method ReadZipEntry(data: Bytes, requested: Bytes, crc: Bytes -> nat, inflate: Inflater) returns (r: Result<Bytes>)
    ensures r == EntryContent(data, requested, crc, inflate)
  {
    var entries :- ReadCentralDirectory(data);
    var entry :- SelectEntry(entries, requested);
    var output :- Unpacked(data, entry, inflate);
    if crc(output) != entry.crc { return Err(BAD_CRC); }
    r := Ok(output);
  }

  function EntryContent(data: Bytes, requested: Bytes, crc: Bytes -> nat, inflate: Inflater): Result<Bytes> {
    var entries :- FileEntries(data);
    var entry :- Selected(entries, requested);
    var output :- Unpacked(data, entry, inflate);
    if crc(output) != entry.crc then Err(BAD_CRC) else Ok(output)
  }
}

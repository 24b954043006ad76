/** Which end records, directory entries and local headers are refused, by the numbers they hold. */
module ZipRefusals {
  import opened Outcomes
  import opened ZipDirectory
  import opened ZipArchive

  // ----- End records -----

  /** The numbers of an end record. */
  datatype End = End(disk: nat, centralDisk: nat, here: nat, total: nat, size: nat, offset: nat)

  predicate EndFits(e: End) {
    && e.disk <= MAX_16 && e.centralDisk <= MAX_16 && e.here <= MAX_16 && e.total <= MAX_16
    && e.size <= MAX_32 && e.offset <= MAX_32
  }

  function RawEnd(e: End): Bytes
    requires EndFits(e)
  {
    Le32(END_SIGNATURE) + (Le16(e.disk) + (Le16(e.centralDisk) + (Le16(e.here) + (Le16(e.total)
      + (Le32(e.size) + Le32(e.offset))))))
  }

  lemma {:induction false} RawEndRead(data: Bytes, o: nat, e: End)
    requires EndFits(e) && Holds(data, o, RawEnd(e))
    ensures ReadLe16(data, o + 4) == Ok(e.disk) && ReadLe16(data, o + 6) == Ok(e.centralDisk)
    ensures ReadLe16(data, o + 8) == Ok(e.here) && ReadLe16(data, o + 10) == Ok(e.total)
    ensures ReadLe32(data, o + 12) == Ok(e.size) && ReadLe32(data, o + 16) == Ok(e.offset)
  {
    var p6 := Le32(e.size) + Le32(e.offset);
    var p5 := Le16(e.total) + p6;
    var p4 := Le16(e.here) + p5;
    var p3 := Le16(e.centralDisk) + p4;
    var p2 := Le16(e.disk) + p3;
    HoldsBoth(data, o, Le32(END_SIGNATURE), p2);
    HoldsBoth(data, o + 4, Le16(e.disk), p3);
    HoldsBoth(data, o + 6, Le16(e.centralDisk), p4);
    HoldsBoth(data, o + 8, Le16(e.here), p5);
    HoldsBoth(data, o + 10, Le16(e.total), p6);
    HoldsBoth(data, o + 12, Le32(e.size), Le32(e.offset));
    HoldsLe16(data, o + 4, e.disk);
    HoldsLe16(data, o + 6, e.centralDisk);
    HoldsLe16(data, o + 8, e.here);
    HoldsLe16(data, o + 10, e.total);
    HoldsLe32(data, o + 12, e.size);
    HoldsLe32(data, o + 16, e.offset);
  }

  /** An archive in one part: one disk holds all of it. */
  predicate OnePart(e: End) {
    e.disk == 0 && e.centralDisk == 0 && e.here == e.total
  }

  predicate BelowZip64(e: End) {
    e.total < MAX_16 && e.size < MAX_32 && e.offset < MAX_32
  }

  lemma {:induction false} EndVerdict(data: Bytes, o: nat, e: End)
    requires EndFits(e) && Holds(data, o, RawEnd(e))
    ensures ReadEnd(data, o) ==
            if !OnePart(e) then Err(SPLIT)
            else if !BelowZip64(e) then Err(ZIP64)
            else if e.offset + e.size > |data| then Err(CUT_DIRECTORY)
            else Ok(Directory(e.offset, e.total))
  {
    RawEndRead(data, o, e);
  }

  lemma {:induction false} DirectoryRead(data: Bytes, o: nat, r: Result<Directory>)
    requires EndRecord(data) == Ok(o) && ReadEnd(data, o) == r
    ensures r.Err? ==> FileEntries(data) == Err(r.message)
    ensures r.Ok? ==> FileEntries(data) == ReadEntries(data, r.value.offset, r.value.count)
  {
  }

  /** An archive is refused precisely when it is split, when it needs ZIP64, or when its directory would reach past its
      end, in this order; every other one has the entries that its directory holds. */
  lemma {:induction false} EndDecides(data: Bytes, o: nat, e: End)
    requires EndRecord(data) == Ok(o) && EndFits(e) && Holds(data, o, RawEnd(e))
    ensures !OnePart(e) ==> FileEntries(data) == Err(SPLIT)
    ensures OnePart(e) && !BelowZip64(e) ==> FileEntries(data) == Err(ZIP64)
    ensures OnePart(e) && BelowZip64(e) && e.offset + e.size > |data| ==> FileEntries(data) == Err(CUT_DIRECTORY)
    ensures OnePart(e) && BelowZip64(e) && e.offset + e.size <= |data| ==>
              FileEntries(data) == ReadEntries(data, e.offset, e.total)
  {
    EndVerdict(data, o, e);
    DirectoryRead(data, o, ReadEnd(data, o));
  }

  /** Data without an end record is no archive. */
  lemma {:induction false} NoEnd(data: Bytes)
    requires forall o: nat :: !IsLastEnd(data, o)
    ensures FileEntries(data) == Err(NO_END)
  {
    NoEndBelow(data, if |data| < END_SIZE then 0 else |data| - END_SIZE + 1);
    if EndRecord(data).Ok? { EndRecordIs(data, EndRecord(data).value); }
  }

  lemma {:induction false} NoEndBelow(data: Bytes, above: nat)
    ensures LastEnd(data, above).Err? ==> LastEnd(data, above) == Err(NO_END)
    decreases above
  {
    if above > SearchStart(data) { NoEndBelow(data, above - 1); }
  }

  // ----- Directory entries -----

  /** The numbers of a directory entry, with the bytes the reader does not look at. */
  datatype Central = Central(
    signature: nat,
    versions: Bytes,
    flags: nat,
    compression: nat,
    times: Bytes,
    crc: nat,
    packed: nat,
    size: nat,
    extra: nat,
    comment: nat,
    attributes: Bytes,
    at: nat,
    name: Bytes)

  predicate CentralFits(c: Central) {
    && c.signature <= MAX_32 && |c.versions| == 4 && c.flags <= MAX_16 && c.compression <= MAX_16 && |c.times| == 4
    && c.crc <= MAX_32 && c.packed <= MAX_32 && c.size <= MAX_32 && |c.name| <= MAX_16 && c.extra <= MAX_16
    && c.comment <= MAX_16 && |c.attributes| == 8 && c.at <= MAX_32
  }

  function RawSizes(c: Central): (r: Bytes)
    requires CentralFits(c)
    ensures |r| == 18
  {
    Le32(c.crc) + (Le32(c.packed) + (Le32(c.size) + (Le16(|c.name|) + (Le16(c.extra) + Le16(c.comment)))))
  }

  function RawPlace(c: Central): (r: Bytes)
    requires CentralFits(c)
    ensures |r| == 12 + |c.name|
  {
    c.attributes + (Le32(c.at) + c.name)
  }

  function RawCentral(c: Central): Bytes
    requires CentralFits(c)
  {
    Le32(c.signature) + (c.versions + (Le16(c.flags) + (Le16(c.compression) + (c.times
      + (RawSizes(c) + RawPlace(c))))))
  }

  lemma {:induction false} RawSizesRead(data: Bytes, o: nat, c: Central)
    requires CentralFits(c) && Holds(data, o, RawSizes(c))
    ensures ReadLe32(data, o) == Ok(c.crc) && ReadLe32(data, o + 4) == Ok(c.packed)
    ensures ReadLe32(data, o + 8) == Ok(c.size) && ReadLe16(data, o + 12) == Ok(|c.name|)
    ensures ReadLe16(data, o + 14) == Ok(c.extra) && ReadLe16(data, o + 16) == Ok(c.comment)
  {
    var p5 := Le16(c.extra) + Le16(c.comment);
    var p4 := Le16(|c.name|) + p5;
    var p3 := Le32(c.size) + p4;
    var p2 := Le32(c.packed) + p3;
    HoldsBoth(data, o, Le32(c.crc), p2);
    HoldsBoth(data, o + 4, Le32(c.packed), p3);
    HoldsBoth(data, o + 8, Le32(c.size), p4);
    HoldsBoth(data, o + 12, Le16(|c.name|), p5);
    HoldsBoth(data, o + 14, Le16(c.extra), Le16(c.comment));
    HoldsLe32(data, o, c.crc);
    HoldsLe32(data, o + 4, c.packed);
    HoldsLe32(data, o + 8, c.size);
    HoldsLe16(data, o + 12, |c.name|);
    HoldsLe16(data, o + 14, c.extra);
    HoldsLe16(data, o + 16, c.comment);
  }

  lemma {:induction false} RawPlaceRead(data: Bytes, o: nat, c: Central)
    requires CentralFits(c) && Holds(data, o, RawPlace(c))
    ensures ReadLe32(data, o + 8) == Ok(c.at) && ReadBytes(data, o + 12, |c.name|) == Ok(c.name)
  {
    HoldsBoth(data, o, c.attributes, Le32(c.at) + c.name);
    HoldsBoth(data, o + 8, Le32(c.at), c.name);
    HoldsLe32(data, o + 8, c.at);
  }

  lemma {:induction false} RawCentralRead(data: Bytes, o: nat, c: Central)
    requires CentralFits(c) && Holds(data, o, RawCentral(c))
    ensures ReadLe32(data, o) == Ok(c.signature) && ReadLe16(data, o + 8) == Ok(c.flags)
    ensures ReadLe16(data, o + 10) == Ok(c.compression)
    ensures Holds(data, o + 16, RawSizes(c)) && Holds(data, o + 34, RawPlace(c))
  {
    var p5 := RawSizes(c) + RawPlace(c);
    var p4 := c.times + p5;
    var p3 := Le16(c.compression) + p4;
    var p2 := Le16(c.flags) + p3;
    HoldsBoth(data, o, Le32(c.signature), c.versions + p2);
    HoldsBoth(data, o + 4, c.versions, p2);
    HoldsBoth(data, o + 8, Le16(c.flags), p3);
    HoldsBoth(data, o + 10, Le16(c.compression), p4);
    HoldsBoth(data, o + 12, c.times, p5);
    HoldsBoth(data, o + 16, RawSizes(c), RawPlace(c));
    HoldsLe32(data, o, c.signature);
    HoldsLe16(data, o + 8, c.flags);
    HoldsLe16(data, o + 10, c.compression);
  }

  /** An entry is refused precisely when its signature is not that of one, and when a size or its place is the mark of
      ZIP64; every other one is read as its numbers say, and the next one begins after its name and what follows it. */
  lemma {:induction false} EntryDecides(data: Bytes, o: nat, c: Central)
    requires CentralFits(c) && Holds(data, o, RawCentral(c))
    ensures ReadEntry(data, o) ==
            if c.signature != CENTRAL_SIGNATURE then Err(BAD_ENTRY)
            else if c.packed == MAX_32 || c.size == MAX_32 || c.at == MAX_32 then Err(ZIP64)
            else Ok((Entry(c.name, c.flags, c.compression, c.crc, c.packed, c.size, c.at),
                     o + 46 + |c.name| + c.extra + c.comment))
  {
    RawCentralRead(data, o, c);
    RawSizesRead(data, o + 16, c);
    RawPlaceRead(data, o + 34, c);
  }

  // ----- Local headers -----

  /** The data of an entry: refused when encrypted, when there is no local header at its place, when the method is not
      known, and when the file ends before the data does. */
  lemma {:induction false} DataDecides(data: Bytes, entry: Entry, signature: nat, fields: Bytes, name: nat, extra: nat,
                                       inflate: Inflater)
    requires signature <= MAX_32 && name <= MAX_16 && extra <= MAX_16 && |fields| == 22
    requires Holds(data, entry.localOffset, Le32(signature) + (fields + (Le16(name) + Le16(extra))))
    ensures var from := entry.localOffset + 30 + name + extra;
            Unpacked(data, entry, inflate) ==
            if entry.flags % 2 == 1 then Err(ENCRYPTED)
            else if signature != LOCAL_SIGNATURE then Err(BAD_LOCAL)
            else if entry.compression == 0 then
              if from + entry.uncompressedSize <= |data| then Ok(data[from..from + entry.uncompressedSize])
              else Err(CUT_DATA)
            else if entry.compression == 8 then
              if from + entry.compressedSize <= |data| then
                inflate(data[from..from + entry.compressedSize], entry.uncompressedSize)
              else Err(CUT_DEFLATE)
            else Err(BAD_METHOD)
  {
    var o, p3 := entry.localOffset, Le16(name) + Le16(extra);
    HoldsBoth(data, o, Le32(signature), fields + p3);
    HoldsBoth(data, o + 4, fields, p3);
    HoldsBoth(data, o + 26, Le16(name), Le16(extra));
    HoldsLe32(data, o, signature);
    HoldsLe16(data, o + 26, name);
    HoldsLe16(data, o + 28, extra);
  }

  // ----- Where the end record is looked for -----

  /** The four bytes an end record begins with. */
  predicate SignedAt(data: Bytes, o: nat) {
    o + 4 <= |data| && data[o] == 0x50 && data[o + 1] == 0x4b && data[o + 2] == 5 && data[o + 3] == 6
  }

  lemma {:induction false} SignatureIs(data: Bytes, o: nat)
    ensures IsEnd(data, o) <==> SignedAt(data, o)
  {
  }

  /** The end record is found at the last signature with 22 bytes of room, if it is among the last 65557 bytes. */
  lemma {:induction false} EndPlace(data: Bytes, o: nat)
    ensures EndRecord(data) == Ok(o) <==>
            && SignedAt(data, o) && o + 22 <= |data| <= o + 22 + 65535
            && forall k: nat :: o < k && k + 22 <= |data| ==> !SignedAt(data, k)
  {
    EndRecordIs(data, o);
    SignatureIs(data, o);
    forall k: nat ensures IsEnd(data, k) <==> SignedAt(data, k) { SignatureIs(data, k); }
  }
}

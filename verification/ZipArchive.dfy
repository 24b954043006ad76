/** Archives laid out as sections 4.3.7, 4.3.12 and 4.3.16 of APPNOTE.TXT lay them out, and what the reader makes of
    them. Bytes the reader does not look at (versions, times, attributes, the local copies of sizes) are arbitrary. */
module ZipArchive {
  import opened Outcomes
  import opened ZipDirectory

  /** A file or directory in the archive: `packed` is its data as stored, `after` what follows the data. */
  datatype Member = Member(
    name: Bytes,
    flags: nat,
    compression: nat,
    crc: nat,
    packed: Bytes,
    size: nat,
    versions: Bytes,
    times: Bytes,
    attributes: Bytes,
    extra: Bytes,
    comment: Bytes,
    localFields: Bytes,
    localName: Bytes,
    localExtra: Bytes,
    after: Bytes)

  datatype Archive = Archive(lead: Bytes, members: seq<Member>, comment: Bytes)

  predicate MemberOk(m: Member) {
    && m.flags <= MAX_16 && m.compression <= MAX_16 && m.crc <= MAX_32
    && |m.packed| < MAX_32 && m.size < MAX_32
    && |m.versions| == 4 && |m.times| == 4 && |m.attributes| == 8 && |m.localFields| == 22
    && |m.name| <= MAX_16 && |m.extra| <= MAX_16 && |m.comment| <= MAX_16
    && |m.localName| <= MAX_16 && |m.localExtra| <= MAX_16
  }

  predicate MembersOk(ms: seq<Member>) {
    forall i | 0 <= i < |ms| :: MemberOk(ms[i])
  }

  function Le16(v: nat): (r: Bytes)
    requires v <= MAX_16
    ensures |r| == 2
  {
    [v % 0x100, v / 0x100]
  }

  function Le32(v: nat): (r: Bytes)
    requires v <= MAX_32
    ensures |r| == 4
  {
    [v % 0x100, v / 0x100 % 0x100, v / 0x1_0000 % 0x100, v / 0x100_0000]
  }

  function LocalHead(m: Member): (r: Bytes)
    requires MemberOk(m)
    ensures |r| == 30
  {
    Le32(LOCAL_SIGNATURE) + (m.localFields + (Le16(|m.localName|) + Le16(|m.localExtra|)))
  }

  function LocalNames(m: Member): Bytes {
    m.localName + m.localExtra
  }

  function LocalBytes(m: Member): Bytes
    requires MemberOk(m)
  {
    LocalHead(m) + (LocalNames(m) + (m.packed + m.after))
  }

  function Locals(ms: seq<Member>): Bytes
    requires MembersOk(ms)
  {
    if ms == [] then [] else LocalBytes(ms[0]) + Locals(ms[1..])
  }

  function CentralSizes(m: Member): (r: Bytes)
    requires MemberOk(m)
    ensures |r| == 18
  {
    Le32(m.crc) + (Le32(|m.packed|) + (Le32(m.size) + (Le16(|m.name|) + (Le16(|m.extra|) + Le16(|m.comment|)))))
  }

  function CentralHead(m: Member, at: nat): (r: Bytes)
    requires MemberOk(m) && at <= MAX_32
    ensures |r| == 46
  {
    Le32(CENTRAL_SIGNATURE) + (m.versions + (Le16(m.flags) + (Le16(m.compression) + (m.times +
      (CentralSizes(m) + (m.attributes + Le32(at)))))))
  }

  /** A directory entry for a member whose local header is at `at`. */
  function CentralBytes(m: Member, at: nat): Bytes
    requires MemberOk(m) && at <= MAX_32
  {
    CentralHead(m, at) + (m.name + (m.extra + m.comment))
  }

  /** The directory of members whose local headers start at `at`. */
  function Centrals(ms: seq<Member>, at: nat): Bytes
    requires MembersOk(ms) && at + |Locals(ms)| <= MAX_32
  {
    if ms == [] then [] else CentralBytes(ms[0], at) + Centrals(ms[1..], at + |LocalBytes(ms[0])|)
  }

  function EndBytes(count: nat, size: nat, offset: nat, comment: Bytes): Bytes
    requires count <= MAX_16 && size <= MAX_32 && offset <= MAX_32 && |comment| <= MAX_16
  {
    Le32(END_SIGNATURE) + (Le16(0) + (Le16(0) + (Le16(count) + (Le16(count) + (Le32(size) + (Le32(offset) +
      (Le16(|comment|) + comment)))))))
  }

  function DirectoryOffset(a: Archive): nat
    requires MembersOk(a.members)
  {
    |a.lead| + |Locals(a.members)|
  }

  /** An archive below the limits of the ZIP64 markers. */
  predicate ArchiveOk(a: Archive) {
    && MembersOk(a.members) && |a.members| < MAX_16 && |a.comment| <= MAX_16
    && DirectoryOffset(a) < MAX_32
    && |Centrals(a.members, |a.lead|)| < MAX_32
  }

  function DirectoryBytes(a: Archive): Bytes
    requires ArchiveOk(a)
  {
    Centrals(a.members, |a.lead|)
  }

  function ArchiveBytes(a: Archive): Bytes
    requires ArchiveOk(a)
  {
    a.lead + (Locals(a.members) + (DirectoryBytes(a) +
      EndBytes(|a.members|, |DirectoryBytes(a)|, DirectoryOffset(a), a.comment)))
  }

  function EndOffset(a: Archive): nat
    requires ArchiveOk(a)
  {
    DirectoryOffset(a) + |DirectoryBytes(a)|
  }

  // ----- Bytes at a place -----

  predicate Holds(data: Bytes, offset: nat, part: Bytes) {
    offset + |part| <= |data| && data[offset..offset + |part|] == part
  }

  lemma {:induction false} HoldsBoth(data: Bytes, offset: nat, a: Bytes, b: Bytes)
    requires Holds(data, offset, a + b)
    ensures Holds(data, offset, a) && Holds(data, offset + |a|, b)
  {
    assert data[offset..offset + |a|] == (a + b)[..|a|] == a;
    assert data[offset + |a|..offset + |a| + |b|] == (a + b)[|a|..] == b;
  }

  lemma {:induction false} HoldsLe16(data: Bytes, offset: nat, v: nat)
    requires v <= MAX_16 && Holds(data, offset, Le16(v))
    ensures ReadLe16(data, offset) == Ok(v)
  {
    var part := data[offset..offset + 2];
    assert part[0] == data[offset] && part[1] == data[offset + 1];
  }

  lemma {:induction false} HoldsLe32(data: Bytes, offset: nat, v: nat)
    requires v <= MAX_32 && Holds(data, offset, Le32(v))
    ensures ReadLe32(data, offset) == Ok(v)
  {
    var part := data[offset..offset + 4];
    assert part[0] == data[offset] && part[1] == data[offset + 1];
    assert part[2] == data[offset + 2] && part[3] == data[offset + 3];
    assert v / 0x100 == v / 0x1_0000 * 0x100 + v / 0x100 % 0x100;
    assert v / 0x1_0000 == v / 0x100_0000 * 0x100 + v / 0x1_0000 % 0x100;
  }

  // ----- The directory is read back -----

  function EntryOf(m: Member, at: nat): Entry {
    Entry(m.name, m.flags, m.compression, m.crc, |m.packed|, m.size, at)
  }

  lemma {:induction false} HoldsCentralSizes(data: Bytes, o: nat, m: Member)
    requires MemberOk(m) && Holds(data, o, CentralSizes(m))
    ensures ReadLe32(data, o) == Ok(m.crc) && ReadLe32(data, o + 4) == Ok(|m.packed|)
    ensures ReadLe32(data, o + 8) == Ok(m.size) && ReadLe16(data, o + 12) == Ok(|m.name|)
    ensures ReadLe16(data, o + 14) == Ok(|m.extra|) && ReadLe16(data, o + 16) == Ok(|m.comment|)
  {
    var p5 := Le16(|m.extra|) + Le16(|m.comment|);
    var p4 := Le16(|m.name|) + p5;
    var p3 := Le32(m.size) + p4;
    var p2 := Le32(|m.packed|) + p3;
    HoldsBoth(data, o, Le32(m.crc), p2);
    HoldsBoth(data, o + 4, Le32(|m.packed|), p3);
    HoldsBoth(data, o + 8, Le32(m.size), p4);
    HoldsBoth(data, o + 12, Le16(|m.name|), p5);
    HoldsBoth(data, o + 14, Le16(|m.extra|), Le16(|m.comment|));
    HoldsLe32(data, o, m.crc);
    HoldsLe32(data, o + 4, |m.packed|);
    HoldsLe32(data, o + 8, m.size);
    HoldsLe16(data, o + 12, |m.name|);
    HoldsLe16(data, o + 14, |m.extra|);
    HoldsLe16(data, o + 16, |m.comment|);
  }

  lemma {:induction false} HoldsCentralHead(data: Bytes, o: nat, m: Member, at: nat)
    requires MemberOk(m) && at <= MAX_32 && Holds(data, o, CentralHead(m, at))
    ensures ReadLe32(data, o) == Ok(CENTRAL_SIGNATURE)
    ensures ReadLe16(data, o + 8) == Ok(m.flags) && ReadLe16(data, o + 10) == Ok(m.compression)
    ensures Holds(data, o + 16, CentralSizes(m)) && ReadLe32(data, o + 42) == Ok(at)
  {
    var p7 := m.attributes + Le32(at);
    var p6 := CentralSizes(m) + p7;
    var p5 := m.times + p6;
    var p4 := Le16(m.compression) + p5;
    var p3 := Le16(m.flags) + p4;
    var p2 := m.versions + p3;
    HoldsBoth(data, o, Le32(CENTRAL_SIGNATURE), p2);
    HoldsBoth(data, o + 4, m.versions, p3);
    HoldsBoth(data, o + 8, Le16(m.flags), p4);
    HoldsBoth(data, o + 10, Le16(m.compression), p5);
    HoldsBoth(data, o + 12, m.times, p6);
    HoldsBoth(data, o + 16, CentralSizes(m), p7);
    HoldsBoth(data, o + 34, m.attributes, Le32(at));
    HoldsLe32(data, o, CENTRAL_SIGNATURE);
    HoldsLe16(data, o + 8, m.flags);
    HoldsLe16(data, o + 10, m.compression);
    HoldsLe32(data, o + 42, at);
  }

  /** A directory entry is read back, with the place of the next one. */
  lemma {:induction false} EntryReadBack(data: Bytes, o: nat, m: Member, at: nat)
    requires MemberOk(m) && at < MAX_32 && Holds(data, o, CentralBytes(m, at))
    ensures ReadEntry(data, o) == Ok((EntryOf(m, at), o + |CentralBytes(m, at)|))
  {
    var tail := m.extra + m.comment;
    HoldsBoth(data, o, CentralHead(m, at), m.name + tail);
    HoldsBoth(data, o + 46, m.name, tail);
    HoldsCentralHead(data, o, m, at);
    HoldsCentralSizes(data, o + 16, m);
    assert ReadBytes(data, o + 46, |m.name|) == Ok(m.name);
  }

  function FileEntriesOf(ms: seq<Member>, at: nat): seq<Entry>
    requires MembersOk(ms)
  {
    if ms == [] then []
    else
      (if IsFile(ms[0].name) then [EntryOf(ms[0], at)] else []) + FileEntriesOf(ms[1..], at + |LocalBytes(ms[0])|)
  }

  /** The first entry of a directory, and the place of the directory of the others. */
  lemma {:induction false} FirstReadBack(data: Bytes, o: nat, ms: seq<Member>, at: nat) returns (end: nat, next: nat)
    requires MembersOk(ms) && ms != [] && at + |Locals(ms)| < MAX_32 && Holds(data, o, Centrals(ms, at))
    ensures ReadEntry(data, o) == Ok((EntryOf(ms[0], at), end))
    ensures next + |Locals(ms[1..])| < MAX_32 && Holds(data, end, Centrals(ms[1..], next))
    ensures FileEntriesOf(ms, at)
         == (if IsFile(ms[0].name) then [EntryOf(ms[0], at)] else []) + FileEntriesOf(ms[1..], next)
  {
    next := at + |LocalBytes(ms[0])|;
    end := o + |CentralBytes(ms[0], at)|;
    HoldsBoth(data, o, CentralBytes(ms[0], at), Centrals(ms[1..], next));
    EntryReadBack(data, o, ms[0], at);
  }

  lemma {:induction false} EntriesReadBack(data: Bytes, o: nat, ms: seq<Member>, at: nat)
    requires MembersOk(ms) && at + |Locals(ms)| < MAX_32 && Holds(data, o, Centrals(ms, at))
    ensures ReadEntries(data, o, |ms|) == Ok(FileEntriesOf(ms, at))
    decreases |ms|
  {
    if ms != [] {
      var end, next := FirstReadBack(data, o, ms, at);
      EntriesReadBack(data, end, ms[1..], next);
      FirstEntry(data, o, |ms[1..]|, EntryOf(ms[0], at), end, FileEntriesOf(ms[1..], next));
    }
  }

  lemma {:induction false} FirstEntry(data: Bytes, o: nat, count: nat, entry: Entry, next: nat, rest: seq<Entry>)
    requires ReadEntry(data, o) == Ok((entry, next)) && ReadEntries(data, next, count) == Ok(rest)
    ensures ReadEntries(data, o, count + 1) == Ok((if IsFile(entry.name) then [entry] else []) + rest)
  {
  }

  lemma {:induction false} EndReadBack(data: Bytes, o: nat, count: nat, size: nat, offset: nat, comment: Bytes)
    requires count < MAX_16 && size < MAX_32 && offset < MAX_32 && |comment| <= MAX_16
    requires Holds(data, o, EndBytes(count, size, offset, comment)) && offset + size <= |data|
    ensures IsEnd(data, o) && ReadEnd(data, o) == Ok(Directory(offset, count))
  {
    var p8 := Le16(|comment|) + comment;
    var p7 := Le32(offset) + p8;
    var p6 := Le32(size) + p7;
    var p5 := Le16(count) + p6;
    var p4 := Le16(count) + p5;
    var p3 := Le16(0) + p4;
    var p2 := Le16(0) + p3;
    HoldsBoth(data, o, Le32(END_SIGNATURE), p2);
    HoldsBoth(data, o + 4, Le16(0), p3);
    HoldsBoth(data, o + 6, Le16(0), p4);
    HoldsBoth(data, o + 8, Le16(count), p5);
    HoldsBoth(data, o + 10, Le16(count), p6);
    HoldsBoth(data, o + 12, Le32(size), p7);
    HoldsBoth(data, o + 16, Le32(offset), p8);
    HoldsLe32(data, o, END_SIGNATURE);
    HoldsLe16(data, o + 4, 0);
    HoldsLe16(data, o + 6, 0);
    HoldsLe16(data, o + 8, count);
    HoldsLe16(data, o + 10, count);
    HoldsLe32(data, o + 12, size);
    HoldsLe32(data, o + 16, offset);
  }

  lemma {:induction false} ArchiveHolds(a: Archive)
    requires ArchiveOk(a)
    ensures var data := ArchiveBytes(a);
            && Holds(data, |a.lead|, Locals(a.members))
            && Holds(data, DirectoryOffset(a), DirectoryBytes(a))
            && Holds(data, EndOffset(a), EndBytes(|a.members|, |DirectoryBytes(a)|, DirectoryOffset(a), a.comment))
            && |data| == EndOffset(a) + END_SIZE + |a.comment|
  {
    var end := EndBytes(|a.members|, |DirectoryBytes(a)|, DirectoryOffset(a), a.comment);
    EndLength(|a.members|, |DirectoryBytes(a)|, DirectoryOffset(a), a.comment);
    HoldsFour(ArchiveBytes(a), a.lead, Locals(a.members), DirectoryBytes(a), end);
  }

  lemma {:induction false} HoldsFour(data: Bytes, a: Bytes, b: Bytes, c: Bytes, d: Bytes)
    requires data == a + (b + (c + d))
    ensures |data| == |a| + |b| + |c| + |d|
    ensures Holds(data, |a|, b) && Holds(data, |a| + |b|, c) && Holds(data, |a| + |b| + |c|, d)
  {
    assert Holds(data, 0, data);
    HoldsBoth(data, 0, a, b + (c + d));
    HoldsBoth(data, |a|, b, c + d);
    HoldsBoth(data, |a| + |b|, c, d);
  }

  lemma {:induction false} EndLength(count: nat, size: nat, offset: nat, comment: Bytes)
    requires count <= MAX_16 && size <= MAX_32 && offset <= MAX_32 && |comment| <= MAX_16
    ensures |EndBytes(count, size, offset, comment)| == END_SIZE + |comment|
  {
  }

  function EndOf(a: Archive): Bytes
    requires ArchiveOk(a)
  {
    EndBytes(|a.members|, |DirectoryBytes(a)|, DirectoryOffset(a), a.comment)
  }

  /** The end record does not hold the signature again, early enough for another end record to fit after it. */
  predicate EndIsClear(a: Archive)
    requires ArchiveOk(a)
  {
    forall k: nat | 1 <= k <= |a.comment| :: !Holds(EndOf(a), k, Le32(END_SIGNATURE))
  }

  lemma {:induction false} SliceInSlice(data: Bytes, o: nat, hi: nat, k: nat)
    requires o + k + 4 <= hi <= |data|
    ensures data[o..hi][k..k + 4] == data[o + k..o + k + 4]
  {
    var a, b := data[o..hi][k..k + 4], data[o + k..o + k + 4];
    forall j | 0 <= j < 4 ensures a[j] == b[j] {
      assert a[j] == data[o..hi][k + j] && b[j] == data[o + k + j];
    }
  }

  lemma {:induction false} IsEndWithin(data: Bytes, o: nat, end: Bytes, k: nat)
    requires Holds(data, o, end) && k + 4 <= |end|
    ensures IsEnd(data, o + k) <==> Holds(end, k, Le32(END_SIGNATURE))
  {
    var four := end[k..k + 4];
    SliceInSlice(data, o, o + |end|, k);
    if IsEnd(data, o + k) {
      SignatureBytes(data, o + k);
    } else if four == Le32(END_SIGNATURE) {
      HoldsLe32(data, o + k, END_SIGNATURE);
    }
  }

  lemma {:induction false} SignatureBytes(data: Bytes, o: nat)
    requires IsEnd(data, o)
    ensures o + 4 <= |data| && data[o..o + 4] == Le32(END_SIGNATURE)
  {
    var a: int, b: int, c: int, d: int := data[o], data[o + 1], data[o + 2], data[o + 3];
    assert a + 0x100 * b + 0x1_0000 * c + 0x100_0000 * d == END_SIGNATURE;
  }

  lemma {:induction false} ClearMeansLast(data: Bytes, o: nat, end: Bytes, length: nat)
    requires Holds(data, o, end) && |end| == END_SIZE + length && |data| == o + |end|
    ensures (forall k: nat | o < k <= |data| - END_SIZE :: !IsEnd(data, k))
            <==> (forall k: nat | 1 <= k <= length :: !Holds(end, k, Le32(END_SIGNATURE)))
  {
    if forall k: nat | 1 <= k <= length :: !Holds(end, k, Le32(END_SIGNATURE)) {
      forall k: nat | o < k <= |data| - END_SIZE ensures !IsEnd(data, k) {
        IsEndWithin(data, o, end, k - o);
      }
    } else {
      var k: nat :| 1 <= k <= length && Holds(end, k, Le32(END_SIGNATURE));
      IsEndWithin(data, o, end, k);
    }
  }

  /** The true end record is found exactly when the signature is not in it again. */
  lemma {:induction false} EndFound(a: Archive)
    requires ArchiveOk(a)
    ensures EndRecord(ArchiveBytes(a)) == Ok(EndOffset(a)) <==> EndIsClear(a)
  {
    var data, o := ArchiveBytes(a), EndOffset(a);
    ArchiveHolds(a);
    EndReadBack(data, o, |a.members|, |DirectoryBytes(a)|, DirectoryOffset(a), a.comment);
    EndRecordIs(data, o);
    EndLength(|a.members|, |DirectoryBytes(a)|, DirectoryOffset(a), a.comment);
    ClearMeansLast(data, o, EndOf(a), |a.comment|);
  }

  /** Without a comment the end record is always found. */
  lemma {:induction false} NoCommentFound(a: Archive)
    requires ArchiveOk(a) && a.comment == []
    ensures EndRecord(ArchiveBytes(a)) == Ok(EndOffset(a))
  {
    EndFound(a);
  }

  /** The directory of every such archive is read back: its files, in order, each with its fields and place. */
  lemma {:induction false} DirectoryReadBack(a: Archive)
    requires ArchiveOk(a) && EndIsClear(a)
    ensures FileEntries(ArchiveBytes(a)) == Ok(FileEntriesOf(a.members, |a.lead|))
  {
    var data := ArchiveBytes(a);
    EndFound(a);
    ArchiveHolds(a);
    EndReadBack(data, EndOffset(a), |a.members|, |DirectoryBytes(a)|, DirectoryOffset(a), a.comment);
    EntriesReadBack(data, DirectoryOffset(a), a.members, |a.lead|);
  }

  // ----- An entry is read back -----

  /** Where the local header of member `i` starts. */
  function MemberOffset(ms: seq<Member>, at: nat, i: nat): nat
    requires MembersOk(ms) && i < |ms|
  {
    if i == 0 then at else MemberOffset(ms[1..], at + |LocalBytes(ms[0])|, i - 1)
  }

  lemma {:induction false} LocalHeld(data: Bytes, ms: seq<Member>, at: nat, i: nat)
    requires MembersOk(ms) && i < |ms| && Holds(data, at, Locals(ms))
    ensures Holds(data, MemberOffset(ms, at, i), LocalBytes(ms[i]))
  {
    HoldsBoth(data, at, LocalBytes(ms[0]), Locals(ms[1..]));
    if i > 0 { LocalHeld(data, ms[1..], at + |LocalBytes(ms[0])|, i - 1); }
  }

  /** The first member with a name is the one selected. */
  lemma {:induction false} MemberSelected(ms: seq<Member>, at: nat, i: nat)
    requires MembersOk(ms) && i < |ms| && IsFile(ms[i].name)
    requires forall j | 0 <= j < i :: ms[j].name != ms[i].name
    ensures Selected(FileEntriesOf(ms, at), ms[i].name) == Ok(EntryOf(ms[i], MemberOffset(ms, at, i)))
  {
    var next := at + |LocalBytes(ms[0])|;
    var rest := FileEntriesOf(ms[1..], next);
    if i == 0 {
      assert FileEntriesOf(ms, at)[0] == EntryOf(ms[0], at);
    } else {
      MemberSelected(ms[1..], next, i - 1);
      if IsFile(ms[0].name) {
        assert FileEntriesOf(ms, at)[1..] == rest;
      } else {
        assert FileEntriesOf(ms, at) == rest;
      }
    }
  }

  /** The data of a member is found at its local header, whose own name and extra field may differ in length. */
  lemma {:induction false} DataFound(data: Bytes, o: nat, m: Member)
    requires MemberOk(m) && Holds(data, o, LocalBytes(m))
    ensures DataOffset(data, EntryOf(m, o)) == Ok(o + 30 + |m.localName| + |m.localExtra|)
    ensures Holds(data, o + 30 + |m.localName| + |m.localExtra|, m.packed)
  {
    HoldsBoth(data, o, LocalHead(m), LocalNames(m) + (m.packed + m.after));
    HoldsBoth(data, o + 30, LocalNames(m), m.packed + m.after);
    HoldsBoth(data, o + 30 + |LocalNames(m)|, m.packed, m.after);
    HoldsLocalHead(data, o, m);
  }

  lemma {:induction false} HoldsLocalHead(data: Bytes, o: nat, m: Member)
    requires MemberOk(m) && Holds(data, o, LocalHead(m))
    ensures ReadLe32(data, o) == Ok(LOCAL_SIGNATURE)
    ensures ReadLe16(data, o + 26) == Ok(|m.localName|) && ReadLe16(data, o + 28) == Ok(|m.localExtra|)
  {
    var lengths := Le16(|m.localName|) + Le16(|m.localExtra|);
    HoldsBoth(data, o, Le32(LOCAL_SIGNATURE), m.localFields + lengths);
    HoldsBoth(data, o + 4, m.localFields, lengths);
    HoldsBoth(data, o + 26, Le16(|m.localName|), Le16(|m.localExtra|));
    HoldsLe32(data, o, LOCAL_SIGNATURE);
    HoldsLe16(data, o + 26, |m.localName|);
    HoldsLe16(data, o + 28, |m.localExtra|);
  }

  /** What unpacking a member should give. */
  function MemberContent(m: Member, inflate: Inflater): Result<Bytes> {
    if m.compression == 0 then Ok(m.packed) else inflate(m.packed, m.size)
  }

  /** Not encrypted, and stored or deflated. */
  predicate Readable(m: Member) {
    m.flags % 2 == 0 && (m.compression == 8 || (m.compression == 0 && m.size == |m.packed|))
  }

  lemma {:induction false} MemberUnpacked(data: Bytes, o: nat, m: Member, inflate: Inflater)
    requires MemberOk(m) && Readable(m) && Holds(data, o, LocalBytes(m))
    ensures Unpacked(data, EntryOf(m, o), inflate) == MemberContent(m, inflate)
  {
    DataFound(data, o, m);
  }

  function Checked(r: Result<Bytes>, crc: Bytes -> nat, wanted: nat): Result<Bytes> {
    match r
    case Err(message) => Err(message)
    case Ok(content) => if crc(content) == wanted then Ok(content) else Err(BAD_CRC)
  }

  lemma {:induction false} ContentIs(data: Bytes, requested: Bytes, entries: seq<Entry>, entry: Entry,
                                     crc: Bytes -> nat, inflate: Inflater)
    requires FileEntries(data) == Ok(entries) && Selected(entries, requested) == Ok(entry)
    ensures EntryContent(data, requested, crc, inflate) == Checked(Unpacked(data, entry, inflate), crc, entry.crc)
  {
  }

  /** Reading a member of the archive by name gives its content: the stored bytes, or what the inflater makes of the
      packed ones. A second member of the same name is out of reach. */
  lemma {:induction false} MemberReadBack(a: Archive, i: nat, crc: Bytes -> nat, inflate: Inflater)
    requires ArchiveOk(a) && EndIsClear(a) && i < |a.members|
    requires IsFile(a.members[i].name) && Readable(a.members[i])
    requires forall j | 0 <= j < i :: a.members[j].name != a.members[i].name
    ensures var m := a.members[i];
            EntryContent(ArchiveBytes(a), m.name, crc, inflate) == Checked(MemberContent(m, inflate), crc, m.crc)
  {
    var data, m := ArchiveBytes(a), a.members[i];
    var o := MemberOffset(a.members, |a.lead|, i);
    DirectoryReadBack(a);
    MemberSelected(a.members, |a.lead|, i);
    ContentIs(data, m.name, FileEntriesOf(a.members, |a.lead|), EntryOf(m, o), crc, inflate);
    ArchiveHolds(a);
    LocalHeld(data, a.members, |a.lead|, i);
    MemberUnpacked(data, o, m, inflate);
  }

  /** A stored member whose checksum is right is read back byte for byte. */
  lemma {:induction false} StoredReadBack(a: Archive, i: nat, crc: Bytes -> nat, inflate: Inflater)
    requires ArchiveOk(a) && EndIsClear(a) && i < |a.members|
    requires var m := a.members[i];
             IsFile(m.name) && Readable(m) && m.compression == 0 && m.crc == crc(m.packed)
    requires forall j | 0 <= j < i :: a.members[j].name != a.members[i].name
    ensures EntryContent(ArchiveBytes(a), a.members[i].name, crc, inflate) == Ok(a.members[i].packed)
  {
    MemberReadBack(a, i, crc, inflate);
  }

  /** A comment that holds the signature early enough hides the true end record. */
  lemma {:induction false} CommentHidesEnd(a: Archive, k: nat)
    requires ArchiveOk(a) && k + END_SIZE <= |a.comment| && Holds(a.comment, k, Le32(END_SIGNATURE))
    ensures EndRecord(ArchiveBytes(a)) != Ok(EndOffset(a))
  {
    CommentHeld(EndOf(a), 0, |a.members|, |DirectoryBytes(a)|, DirectoryOffset(a), a.comment);
    HoldsInside(EndOf(a), END_SIZE, a.comment, k, Le32(END_SIGNATURE));
    NotClear(a, END_SIZE + k);
  }

  /** So an archive without members may not be found to be one. */
  lemma {:induction false} HiddenEnd(a: Archive)
    requires a == Archive([], [], Le32(END_SIGNATURE) + seq(18, _ => 0))
    ensures ArchiveOk(a) && EndRecord(ArchiveBytes(a)) != Ok(EndOffset(a))
  {
    assert a.comment[0..4] == Le32(END_SIGNATURE);
    CommentHidesEnd(a, 0);
  }

  /** A comment need not hold the signature to hide the end record: its length can begin one that it completes. */
  lemma {:induction false} LengthHidesEnd(a: Archive)
    requires ArchiveOk(a) && |a.comment| == END_SIGNATURE % 0x1_0000
    requires a.comment[..2] == Le16(END_SIGNATURE / 0x1_0000)
    ensures EndRecord(ArchiveBytes(a)) != Ok(EndOffset(a))
  {
    EndLengthHeld(EndOf(a), |a.members|, |DirectoryBytes(a)|, DirectoryOffset(a), a.comment);
    NotClear(a, END_SIZE - 2);
  }

  lemma {:induction false} EndLengthHeld(end: Bytes, count: nat, size: nat, offset: nat, comment: Bytes)
    requires count < MAX_16 && size < MAX_32 && offset < MAX_32 && |comment| == END_SIGNATURE % 0x1_0000
    requires end == EndBytes(count, size, offset, comment) && comment[..2] == Le16(END_SIGNATURE / 0x1_0000)
    ensures Holds(end, END_SIZE - 2, Le32(END_SIGNATURE))
  {
    var head := Le32(END_SIGNATURE) + Le16(0) + Le16(0) + Le16(count) + Le16(count) + Le32(size) + Le32(offset);
    assert end == head + Le16(|comment|) + comment[..2] + comment[2..];
    assert Le32(END_SIGNATURE) == Le16(|comment|) + comment[..2];
  }

  lemma {:induction false} HoldsInside(data: Bytes, offset: nat, part: Bytes, k: nat, inner: Bytes)
    requires Holds(data, offset, part) && Holds(part, k, inner)
    ensures Holds(data, offset + k, inner)
  {
    forall j | 0 <= j < |inner| ensures data[offset + k + j] == inner[j] {
      assert inner[j] == part[k + j];
      assert part[k + j] == data[offset + (k + j)];
    }
  }

  lemma {:induction false} NotClear(a: Archive, k: nat)
    requires ArchiveOk(a) && 1 <= k <= |a.comment| && Holds(EndOf(a), k, Le32(END_SIGNATURE))
    ensures EndRecord(ArchiveBytes(a)) != Ok(EndOffset(a))
  {
    EndFound(a);
  }

  lemma {:induction false} CommentHeld(data: Bytes, o: nat, count: nat, size: nat, offset: nat, comment: Bytes)
    requires count < MAX_16 && size < MAX_32 && offset < MAX_32 && |comment| <= MAX_16
    requires Holds(data, o, EndBytes(count, size, offset, comment))
    ensures Holds(data, o + END_SIZE, comment)
  {
    var head := Le32(END_SIGNATURE) + Le16(0) + Le16(0) + Le16(count) + Le16(count) + Le32(size) + Le32(offset)
      + Le16(|comment|);
    assert EndBytes(count, size, offset, comment) == head + comment;
    HoldsBoth(data, o, head, comment);
  }
}

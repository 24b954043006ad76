/** What reading an archive gives for each name that may be asked for, and for none. */
module ZipReading {
  import opened Outcomes
  import opened ZipDirectory
  import opened ZipArchive

  /** What a member gives once it is selected: encrypted ones and unknown methods are refused, and all others are
      checked against their checksum. */
  function MemberAnswer(m: Member, crc: Bytes -> nat, inflate: Inflater): Result<Bytes>
    requires m.compression == 0 ==> m.size <= |m.packed|
  {
    if m.flags % 2 == 1 then Err(ENCRYPTED)
    else if m.compression == 0 then Checked(Ok(m.packed[..m.size]), crc, m.crc)
    else if m.compression == 8 then Checked(inflate(m.packed, m.size), crc, m.crc)
    else Err(BAD_METHOD)
  }

  lemma {:induction false} HeldStart(data: Bytes, o: nat, part: Bytes, n: nat)
    requires Holds(data, o, part) && n <= |part|
    ensures ReadBytes(data, o, n) == Ok(part[..n])
  {
    assert data[o..o + n] == data[o..o + |part|][..n];
  }

  lemma {:induction false} AnswerUnpacked(data: Bytes, o: nat, m: Member, inflate: Inflater)
    requires MemberOk(m) && Holds(data, o, LocalBytes(m)) && (m.compression == 0 ==> m.size <= |m.packed|)
    ensures Unpacked(data, EntryOf(m, o), inflate) ==
            if m.flags % 2 == 1 then Err(ENCRYPTED)
            else if m.compression == 0 then Ok(m.packed[..m.size])
            else if m.compression == 8 then inflate(m.packed, m.size)
            else Err(BAD_METHOD)
  {
    DataFound(data, o, m);
    if m.compression == 0 {
      HeldStart(data, o + 30 + |m.localName| + |m.localExtra|, m.packed, m.size);
    }
  }

  /** Reading answers for the member that is selected. */
  lemma {:induction false} SelectedAnswers(a: Archive, i: nat, requested: Bytes, crc: Bytes -> nat, inflate: Inflater)
    requires ArchiveOk(a) && EndIsClear(a) && i < |a.members|
    requires a.members[i].compression == 0 ==> a.members[i].size <= |a.members[i].packed|
    requires Selected(FileEntriesOf(a.members, |a.lead|), requested)
          == Ok(EntryOf(a.members[i], MemberOffset(a.members, |a.lead|, i)))
    ensures EntryContent(ArchiveBytes(a), requested, crc, inflate) == MemberAnswer(a.members[i], crc, inflate)
  {
    var data, m := ArchiveBytes(a), a.members[i];
    var o := MemberOffset(a.members, |a.lead|, i);
    DirectoryReadBack(a);
    ContentIs(data, requested, FileEntriesOf(a.members, |a.lead|), EntryOf(m, o), crc, inflate);
    ArchiveHolds(a);
    LocalHeld(data, a.members, |a.lead|, i);
    AnswerUnpacked(data, o, m, inflate);
  }

  lemma {:induction false} SelectionFails(a: Archive, requested: Bytes, message: string, crc: Bytes -> nat,
                                          inflate: Inflater)
    requires ArchiveOk(a) && EndIsClear(a)
    requires Selected(FileEntriesOf(a.members, |a.lead|), requested) == Err(message)
    ensures EntryContent(ArchiveBytes(a), requested, crc, inflate) == Err(message)
  {
    DirectoryReadBack(a);
  }

  // ----- Which member is selected -----

  lemma {:induction false} NoFiles(ms: seq<Member>, at: nat)
    requires MembersOk(ms) && forall j | 0 <= j < |ms| :: !IsFile(ms[j].name)
    ensures FileEntriesOf(ms, at) == []
  {
    if ms != [] {
      NoFiles(ms[1..], at + |LocalBytes(ms[0])|);
    }
  }

  lemma {:induction false} OneFile(ms: seq<Member>, at: nat, i: nat)
    requires MembersOk(ms) && i < |ms| && IsFile(ms[i].name)
    requires forall j | 0 <= j < |ms| && j != i :: !IsFile(ms[j].name)
    ensures FileEntriesOf(ms, at) == [EntryOf(ms[i], MemberOffset(ms, at, i))]
  {
    var next := at + |LocalBytes(ms[0])|;
    if i == 0 {
      NoFiles(ms[1..], next);
    } else {
      assert !IsFile(ms[0].name);
      OneFile(ms[1..], next, i - 1);
    }
  }

  lemma {:induction false} SomeFile(ms: seq<Member>, at: nat, i: nat)
    requires MembersOk(ms) && i < |ms| && IsFile(ms[i].name)
    ensures |FileEntriesOf(ms, at)| >= 1
  {
    if i > 0 { SomeFile(ms[1..], at + |LocalBytes(ms[0])|, i - 1); }
  }

  lemma {:induction false} TwoFiles(ms: seq<Member>, at: nat, i: nat, k: nat)
    requires MembersOk(ms) && i < k < |ms| && IsFile(ms[i].name) && IsFile(ms[k].name)
    ensures |FileEntriesOf(ms, at)| >= 2
  {
    var next := at + |LocalBytes(ms[0])|;
    if i == 0 {
      SomeFile(ms[1..], next, k - 1);
    } else {
      TwoFiles(ms[1..], next, i - 1, k - 1);
    }
  }

  lemma {:induction false} NoSuchName(ms: seq<Member>, at: nat, requested: Bytes)
    requires MembersOk(ms) && requested != []
    requires forall j | 0 <= j < |ms| && IsFile(ms[j].name) :: ms[j].name != requested
    ensures Selected(FileEntriesOf(ms, at), requested) == Err(NOT_FOUND)
  {
    if ms != [] {
      var rest := FileEntriesOf(ms[1..], at + |LocalBytes(ms[0])|);
      NoSuchName(ms[1..], at + |LocalBytes(ms[0])|, requested);
      if IsFile(ms[0].name) {
        OtherName(EntryOf(ms[0], at), rest, requested);
      } else {
        assert [] + rest == rest;
      }
    }
  }

  lemma {:induction false} OtherName(entry: Entry, rest: seq<Entry>, requested: Bytes)
    requires requested != [] && entry.name != requested
    ensures Selected([entry] + rest, requested) == Selected(rest, requested)
  {
    assert ([entry] + rest)[1..] == rest;
  }

  // ----- Reading -----

  /** A file is what has a name that does not end in a slash. */
  lemma {:induction false} FileName(name: Bytes)
    ensures IsFile(name) <==> name != [] && name[|name| - 1] != '/' as int
  {
  }

  /** The first member of a name answers for it, whatever it is. */
  lemma {:induction false} NamedAnswer(a: Archive, i: nat, crc: Bytes -> nat, inflate: Inflater)
    requires ArchiveOk(a) && EndIsClear(a) && i < |a.members| && IsFile(a.members[i].name)
    requires a.members[i].compression == 0 ==> a.members[i].size <= |a.members[i].packed|
    requires forall j | 0 <= j < i :: a.members[j].name != a.members[i].name
    ensures EntryContent(ArchiveBytes(a), a.members[i].name, crc, inflate) == MemberAnswer(a.members[i], crc, inflate)
  {
    MemberSelected(a.members, |a.lead|, i);
    SelectedAnswers(a, i, a.members[i].name, crc, inflate);
  }

  /** Without a name, the only file answers. */
  lemma {:induction false} OnlyFileAnswer(a: Archive, i: nat, crc: Bytes -> nat, inflate: Inflater)
    requires ArchiveOk(a) && EndIsClear(a) && i < |a.members| && IsFile(a.members[i].name)
    requires a.members[i].compression == 0 ==> a.members[i].size <= |a.members[i].packed|
    requires forall j | 0 <= j < |a.members| && j != i :: !IsFile(a.members[j].name)
    ensures EntryContent(ArchiveBytes(a), [], crc, inflate) == MemberAnswer(a.members[i], crc, inflate)
  {
    OneFile(a.members, |a.lead|, i);
    SelectedAnswers(a, i, [], crc, inflate);
  }

  /** Without a name, an archive of no files and one of several are refused, each in its way; so is a name that no file
      has. */
  lemma {:induction false} Refusals(a: Archive, requested: Bytes, crc: Bytes -> nat, inflate: Inflater)
    requires ArchiveOk(a) && EndIsClear(a)
    ensures (forall j | 0 <= j < |a.members| :: !IsFile(a.members[j].name)) ==>
              EntryContent(ArchiveBytes(a), [], crc, inflate) == Err(NO_FILES)
    ensures (exists i, k :: 0 <= i < k < |a.members| && IsFile(a.members[i].name) && IsFile(a.members[k].name)) ==>
              EntryContent(ArchiveBytes(a), [], crc, inflate) == Err(MANY_FILES)
    ensures requested != []
            && (forall j | 0 <= j < |a.members| && IsFile(a.members[j].name) :: a.members[j].name != requested) ==>
              EntryContent(ArchiveBytes(a), requested, crc, inflate) == Err(NOT_FOUND)
  {
    if forall j | 0 <= j < |a.members| :: !IsFile(a.members[j].name) {
      NoFiles(a.members, |a.lead|);
      SelectionFails(a, [], NO_FILES, crc, inflate);
    }
    if i, k :| 0 <= i < k < |a.members| && IsFile(a.members[i].name) && IsFile(a.members[k].name) {
      TwoFiles(a.members, |a.lead|, i, k);
      SelectionFails(a, [], MANY_FILES, crc, inflate);
    }
    if && requested != []
       && forall j | 0 <= j < |a.members| && IsFile(a.members[j].name) :: a.members[j].name != requested {
      NoSuchName(a.members, |a.lead|, requested);
      SelectionFails(a, requested, NOT_FOUND, crc, inflate);
    }
  }

  // ----- An archive byte by byte -----

  const LOCAL_FRONT: Bytes := [0x50, 0x4b, 3, 4]
  const LOCAL_FIELDS: Bytes := [20, 0, 0, 0, 0, 0, 0, 0, 0, 0, 0xb7, 0xef, 0xdc, 0x83, 1, 0, 0, 0, 1, 0, 0, 0]
  const LOCAL_REST: Bytes := [1, 0, 0, 0, 0x61, 0x31]

  const CENTRAL_FRONT: Bytes := [0x50, 0x4b, 1, 2, 20, 0, 20, 0, 0, 0, 0, 0, 0, 0, 0, 0]
  const CENTRAL_SIZES: Bytes := [0xb7, 0xef, 0xdc, 0x83, 1, 0, 0, 0, 1, 0, 0, 0, 1, 0, 0, 0, 0, 0]
  const CENTRAL_REST: Bytes := [0, 0, 0, 0, 0, 0, 0, 0, 0, 0, 0, 0, 0x61]

  const END_BYTES: Bytes := [0x50, 0x4b, 5, 6, 0, 0, 0, 0, 1, 0, 1, 0, 47, 0, 0, 0, 32, 0, 0, 0, 0, 0]

  function Zeros(n: nat): (z: Bytes)
    ensures |z| == n
  {
    seq(n, _ => 0)
  }

  const ONE := Member([0x61], 0, 0, 0x83dcefb7, [0x31], 1, [20, 0, 20, 0], Zeros(4), Zeros(8), [], [],
                      LOCAL_FIELDS, [0x61], [], [])

  lemma {:induction false} SmallFields()
    ensures Le16(0) == [0, 0] && Le16(1) == [1, 0] && Le32(0) == [0, 0, 0, 0] && Le32(1) == [1, 0, 0, 0]
    ensures Le32(0x83dcefb7) == [0xb7, 0xef, 0xdc, 0x83]
    ensures Le32(CENTRAL_SIGNATURE) == [0x50, 0x4b, 1, 2] && Le32(LOCAL_SIGNATURE) == [0x50, 0x4b, 3, 4]
  {
  }

  lemma {:induction false} OneLocal()
    ensures MemberOk(ONE) && LocalBytes(ONE) == ONE_LOCAL
  {
    SmallFields();
    var lengths := Le16(|ONE.localName|) + Le16(|ONE.localExtra|);
    assert lengths == [1, 0, 0, 0];
    assert lengths + (LocalNames(ONE) + (ONE.packed + ONE.after)) == LOCAL_REST;
    Regroup(LOCAL_FRONT, LOCAL_FIELDS, lengths, LocalNames(ONE) + (ONE.packed + ONE.after));
  }

  lemma {:induction false} OneSizes()
    ensures MemberOk(ONE) && CentralSizes(ONE) == CENTRAL_SIZES
  {
    SmallFields();
    var lengths := Le16(|ONE.name|) + (Le16(|ONE.extra|) + Le16(|ONE.comment|));
    assert lengths == [1, 0, 0, 0, 0, 0];
    var sizes := Le32(|ONE.packed|) + (Le32(ONE.size) + lengths);
    assert sizes == [1, 0, 0, 0, 1, 0, 0, 0, 1, 0, 0, 0, 0, 0];
  }

  lemma {:induction false} OneFront(rest: Bytes)
    ensures Le32(CENTRAL_SIGNATURE) + (ONE.versions + (Le16(ONE.flags) + (Le16(ONE.compression) + (ONE.times + rest))))
         == CENTRAL_FRONT + rest
  {
    SmallFields();
    assert CENTRAL_FRONT == [0x50, 0x4b, 1, 2] + ([20, 0, 20, 0] + ([0, 0] + ([0, 0] + [0, 0, 0, 0])));
    assert ONE.times == [0, 0, 0, 0];
  }

  lemma {:induction false} OneCentral()
    ensures MemberOk(ONE) && CentralBytes(ONE, 0) == ONE_CENTRAL
  {
    SmallFields();
    OneSizes();
    OneFront(CENTRAL_SIZES + (ONE.attributes + Le32(0)));
    assert ONE.attributes + Le32(0) + (ONE.name + (ONE.extra + ONE.comment)) == CENTRAL_REST;
    Regroup(CENTRAL_FRONT, CENTRAL_SIZES, ONE.attributes + Le32(0), ONE.name + (ONE.extra + ONE.comment));
  }

  lemma {:induction false} Regroup(a: Bytes, b: Bytes, c: Bytes, d: Bytes)
    ensures (a + (b + c)) + d == a + (b + (c + d))
  {
  }

  lemma {:induction false} OneEnd()
    ensures EndBytes(1, 47, 32, []) == END_BYTES
  {
  }

  const ONE_LOCAL: Bytes := LOCAL_FRONT + (LOCAL_FIELDS + LOCAL_REST)
  const ONE_CENTRAL: Bytes := CENTRAL_FRONT + (CENTRAL_SIZES + CENTRAL_REST)

  lemma {:induction false} OneArchive(a: Archive)
    requires a == Archive([], [ONE], [])
    ensures ArchiveOk(a) && ArchiveBytes(a) == ONE_LOCAL + ONE_CENTRAL + END_BYTES
  {
    OneLocal();
    OneCentral();
    OneEnd();
    assert Locals([ONE]) == ONE_LOCAL;
    assert Centrals([ONE], 0) == ONE_CENTRAL;
    assert [] + (ONE_LOCAL + (ONE_CENTRAL + END_BYTES)) == ONE_LOCAL + ONE_CENTRAL + END_BYTES;
  }

  /** These very bytes are an archive of the file `a` that holds the digit 1, and are read as it. */
  lemma {:induction false} OneFileRead(crc: Bytes -> nat, inflate: Inflater)
    requires crc([0x31]) == 0x83dcefb7
    ensures EntryContent(ONE_LOCAL + ONE_CENTRAL + END_BYTES, [], crc, inflate) == Ok([0x31])
  {
    var a := Archive([], [ONE], []);
    OneArchive(a);
    OnlyFileAnswer(a, 0, crc, inflate);
    assert [0x31][..1] == [0x31];
  }
}

/** The records of a delimited file: section 2 of RFC 4180 with a chosen delimiter and quote, read by a
    machine that looks at one character at a time. A quote opens a quoted field only at the start of a
    field, a doubled quote inside one stands for itself, and a record ends at CR, LF or CRLF outside quotes.
    A `char` stands for one byte of the file. */
module CsvGrammar {

  datatype Dialect = Dialect(delim: char, quote: char, quoting: bool)

  /** A tab or a printable ASCII character. */
  predicate DialectChar(c: char) {
    c == '\t' || ' ' <= c <= '~'
  }

  /** What `WithDialect` lets through. */
  predicate ValidDialect(d: Dialect) {
    DialectChar(d.delim) && (d.quoting ==> DialectChar(d.quote) && d.quote != d.delim)
  }

  predicate IsBreak(c: char) {
    c == '\r' || c == '\n'
  }

  predicate IsQuote(d: Dialect, c: char) {
    d.quoting && c == d.quote
  }

  /** Between: no record open. AfterCr: the same, right after a CR that may be half of CRLF.
      FieldStart: at the first character of a field. Bare: inside an unquoted field or after a closing quote.
      Quoted: inside quotes. Closing: after a quote inside quotes, which closes them or is half of a pair. */
  datatype Mode = Between | AfterCr | FieldStart | Bare | Quoted | Closing

  datatype Record = Record(offset: nat, fields: seq<string>)

  /** `start`, `fields` and `field` describe the open record; they are stale when none is open. */
  datatype Scanner = Scanner(mode: Mode, pos: nat, start: nat, fields: seq<string>, field: string,
                             records: seq<Record>) {
    predicate Idle() {
      mode == Between || mode == AfterCr
    }

    function Opened(): Scanner {
      if Idle() then this.(mode := FieldStart, start := pos, fields := [], field := "") else this
    }

    function Completed(): seq<Record> {
      if Idle() then records else records + [Record(start, fields + [field])]
    }
  }

  function Fresh(pos: nat): Scanner {
    Scanner(Between, pos, pos, [], "", [])
  }

  /** A character that is not inside quotes, with a record open. */
  function StepUnquoted(d: Dialect, s: Scanner, c: char): Scanner
    requires !s.Idle()
  {
    if c == d.delim then
      s.(mode := FieldStart, pos := s.pos + 1, fields := s.fields + [s.field], field := "")
    else if IsBreak(c) then
      s.(mode := if c == '\r' then AfterCr else Between, pos := s.pos + 1, records := s.Completed())
    else
      s.(mode := Bare, pos := s.pos + 1, field := s.field + [c])
  }

  function Step(d: Dialect, s: Scanner, c: char): Scanner {
    if s.mode == AfterCr && c == '\n' then s.(mode := Between, pos := s.pos + 1)
    else
      var o := s.Opened();
      match o.mode
      case Quoted =>
        if IsQuote(d, c) then o.(mode := Closing, pos := o.pos + 1)
        else o.(field := o.field + [c], pos := o.pos + 1)
      case Closing =>
        if IsQuote(d, c) then o.(mode := Quoted, field := o.field + [c], pos := o.pos + 1)
        else StepUnquoted(d, o, c)
      case FieldStart =>
        if IsQuote(d, c) then o.(mode := Quoted, pos := o.pos + 1)
        else StepUnquoted(d, o, c)
      case _ => StepUnquoted(d, o, c)
  }

  function Run(d: Dialect, s: Scanner, text: string): Scanner {
    if text == [] then s
    else Step(d, Run(d, s, text[..|text| - 1]), text[|text| - 1])
  }

  /** The scanner after `text[from..p]`. */
  function At(d: Dialect, text: string, from: nat, p: nat): Scanner
    requires from <= p <= |text|
  {
    Run(d, Fresh(from), text[from..p])
  }

  /** Every record of `text` from `from` on, with the offset of its first byte. */
  function Scan(d: Dialect, text: string, from: nat): seq<Record>
    requires from <= |text|
  {
    At(d, text, from, |text|).Completed()
  }

  function FieldsOf(records: seq<Record>): (r: seq<seq<string>>)
    ensures |r| == |records|
  {
    seq(|records|, i requires 0 <= i < |records| => records[i].fields)
  }

  lemma {:induction false} FieldsOfAppend(records: seq<Record>, r: Record)
    ensures FieldsOf(records + [r]) == FieldsOf(records) + [r.fields]
  {
  }

  // ----- The machine over a joined text -----

  lemma {:induction false} RunConcat(d: Dialect, s: Scanner, a: string, b: string)
    ensures Run(d, s, a + b) == Run(d, Run(d, s, a), b)
  {
    if b == [] {
      assert a + b == a;
    } else {
      assert (a + b)[..|a + b| - 1] == a + b[..|b| - 1];
      RunConcat(d, s, a, b[..|b| - 1]);
    }
  }

  lemma {:induction false} RunOne(d: Dialect, s: Scanner, c: char)
    ensures Run(d, s, [c]) == Step(d, s, c)
  {
    assert [c][..0] == "";
  }

  lemma {:induction false} AtStep(d: Dialect, text: string, from: nat, p: nat)
    requires from <= p < |text|
    ensures At(d, text, from, p + 1) == Step(d, At(d, text, from, p), text[p])
  {
    assert text[from..p + 1][..p - from] == text[from..p];
  }

  lemma {:induction false} AtRun(d: Dialect, text: string, from: nat, p: nat, q: nat)
    requires from <= p <= q <= |text|
    ensures At(d, text, from, q) == Run(d, At(d, text, from, p), text[p..q])
  {
    RunConcat(d, Fresh(from), text[from..p], text[p..q]);
    assert text[from..p] + text[p..q] == text[from..q];
  }

  // ----- Offsets -----

  /** What the machine knows about the records behind it: each started at an idle point that had seen
      exactly the records before it. */
  ghost predicate Indexed(d: Dialect, text: string, from: nat, p: nat, records: seq<Record>)
    requires from <= p <= |text|
  {
    forall k :: 0 <= k < |records| ==> StartsRecord(d, text, from, p, records, k)
  }

  ghost predicate StartsRecord(d: Dialect, text: string, from: nat, p: nat, records: seq<Record>, k: nat)
    requires from <= p <= |text| && k < |records|
  {
    && from <= records[k].offset < p
    && var s := At(d, text, from, records[k].offset);
    && s.Idle() && s.records == records[..k]
    && !Absorbs(s, text[records[k].offset])
  }

  predicate Absorbs(s: Scanner, c: char) {
    s.mode == AfterCr && c == '\n'
  }

  /** One character keeps the records already read, and opens at most one, here. */
  lemma {:induction false} StepCompleted(d: Dialect, s: Scanner, c: char)
    ensures var t := Step(d, s, c);
            && t.pos == s.pos + 1
            && s.records <= t.records
            && (Absorbs(s, c) ==> t.Idle() && t.records == s.records)
            && (!Absorbs(s, c) ==> (
                  && |t.Completed()| == |s.records| + 1 && s.records <= t.Completed()
                  && t.Completed()[|s.records|].offset == (if s.Idle() then s.pos else s.start)))
            && (!s.Idle() ==> s.Completed()[|s.records|].offset == s.start)
  {
  }

  lemma {:induction false} IndexedAt(d: Dialect, text: string, from: nat, p: nat)
    requires from <= p <= |text|
    ensures At(d, text, from, p).pos == p
    ensures Indexed(d, text, from, p, At(d, text, from, p).Completed())
    decreases p
  {
    if p > from {
      IndexedAt(d, text, from, p - 1);
      AtStep(d, text, from, p - 1);
      var s, t := At(d, text, from, p - 1), At(d, text, from, p);
      StepCompleted(d, s, text[p - 1]);
      var before, after := s.Completed(), t.Completed();
      forall k | 0 <= k < |after| ensures StartsRecord(d, text, from, p, after, k) {
        assert after[..k] == s.records[..k];
        if k < |before| {
          assert StartsRecord(d, text, from, p - 1, before, k);
          assert before[..k] == s.records[..k];
          assert after[k].offset == before[k].offset;
        } else {
          assert k == |s.records| && after[k].offset == p - 1;
        }
      }
    }
  }

  /** The records of a file start at increasing offsets, each at an idle point of the machine. */
  lemma {:induction false} ScanIndexed(d: Dialect, text: string, from: nat)
    requires from <= |text|
    ensures Indexed(d, text, from, |text|, Scan(d, text, from))
    ensures forall i, j :: 0 <= i < j < |Scan(d, text, from)| ==>
      Scan(d, text, from)[i].offset < Scan(d, text, from)[j].offset
  {
    IndexedAt(d, text, from, |text|);
    var records := Scan(d, text, from);
    forall i, j | 0 <= i < j < |records| ensures records[i].offset < records[j].offset {
      assert StartsRecord(d, text, from, |text|, records, i);
      assert StartsRecord(d, text, from, |text|, records, j);
      if records[j].offset <= records[i].offset {
        RecordsGrow(d, text, from, records[j].offset, records[i].offset);
      }
    }
  }

  lemma {:induction false} RecordsGrow(d: Dialect, text: string, from: nat, p: nat, q: nat)
    requires from <= p <= q <= |text|
    ensures At(d, text, from, p).records <= At(d, text, from, q).records
    decreases q
  {
    if p < q {
      RecordsGrow(d, text, from, p, q - 1);
      AtStep(d, text, from, q - 1);
    }
  }

  /** Every record has at least one field. */
  lemma {:induction false} RecordsNotEmpty(d: Dialect, s: Scanner, text: string)
    requires forall k :: 0 <= k < |s.records| ==> s.records[k].fields != []
    ensures forall k :: 0 <= k < |Run(d, s, text).Completed()| ==> Run(d, s, text).Completed()[k].fields != []
  {
    if text != [] {
      RecordsNotEmpty(d, s, text[..|text| - 1]);
      var before, c := Run(d, s, text[..|text| - 1]), text[|text| - 1];
      StepCompleted(d, before, c);
      var after := Step(d, before, c).Completed();
      forall k | 0 <= k < |after| ensures after[k].fields != [] {
        if k < |before.records| {
          assert after[k] == before.Completed()[k];
        }
      }
    }
  }

  // ----- Slices -----

  lemma {:induction false} RunFrame(d: Dialect, s: Scanner, before: seq<Record>, text: string)
    ensures var t := Run(d, s, text);
            Run(d, s.(records := before + s.records), text) == t.(records := before + t.records)
  {
    if text != [] {
      RunFrame(d, s, before, text[..|text| - 1]);
      var t := Run(d, s, text[..|text| - 1]);
      StepFrame(d, t, before, text[|text| - 1]);
    }
  }

  lemma {:induction false} StepFrame(d: Dialect, s: Scanner, before: seq<Record>, c: char)
    ensures var t := Step(d, s, c);
            Step(d, s.(records := before + s.records), c) == t.(records := before + t.records)
  {
    var o := s.Opened();
    assert before + s.records + [Record(o.start, o.fields + [o.field])]
        == before + (s.records + [Record(o.start, o.fields + [o.field])]);
  }

  /** Two scanners that agree on everything but positions. */
  ghost predicate Alike(s: Scanner, t: Scanner) {
    && (s.mode == t.mode || (s.Idle() && t.Idle()))
    && (!s.Idle() ==> s.fields == t.fields && s.field == t.field)
    && FieldsOf(s.records) == FieldsOf(t.records)
  }

  lemma {:induction false} StepAlike(d: Dialect, s: Scanner, t: Scanner, c: char)
    requires Alike(s, t)
    requires s.mode == t.mode || (!Absorbs(s, c) && !Absorbs(t, c))
    ensures Alike(Step(d, s, c), Step(d, t, c)) && Step(d, s, c).mode == Step(d, t, c).mode
  {
    if !Absorbs(s, c) {
      var so, to := s.Opened(), t.Opened();
      FieldsOfAppend(s.records, Record(so.start, so.fields + [so.field]));
      FieldsOfAppend(t.records, Record(to.start, to.fields + [to.field]));
    }
  }

  lemma {:induction false} RunAlike(d: Dialect, s: Scanner, t: Scanner, text: string)
    requires Alike(s, t)
    requires s.mode == t.mode || (text != [] && !Absorbs(s, text[0]) && !Absorbs(t, text[0]))
    ensures Alike(Run(d, s, text), Run(d, t, text))
    ensures Run(d, s, text).mode == Run(d, t, text).mode
  {
    if text != [] {
      var init, c := text[..|text| - 1], text[|text| - 1];
      if init != [] || s.mode == t.mode {
        RunAlike(d, s, t, init);
      }
      StepAlike(d, Run(d, s, init), Run(d, t, init), c);
    }
  }

  /** Where the bytes of records before `j` end: the offset of record `j`, or the end of the file. */
  function OffsetOrEnd(records: seq<Record>, j: nat, size: nat): nat {
    if j < |records| then records[j].offset else size
  }

  /** Parsing the slice between two indexed offsets gives exactly the records between them. */
  lemma {:induction false} SliceRecords(d: Dialect, text: string, from: nat, i: nat, j: nat)
    requires from <= |text|
    requires i <= j <= |Scan(d, text, from)| && i < |Scan(d, text, from)|
    ensures var records := Scan(d, text, from);
            var lo, hi := records[i].offset, OffsetOrEnd(records, j, |text|);
            from <= lo <= hi <= |text|
            && FieldsOf(Scan(d, text[lo..hi], 0)) == FieldsOf(records[i..j])
  {
    var records := Scan(d, text, from);
    var lo, hi := records[i].offset, OffsetOrEnd(records, j, |text|);
    ScanIndexed(d, text, from);
    assert StartsRecord(d, text, from, |text|, records, i);
    if j < |records| {
      assert StartsRecord(d, text, from, |text|, records, j);
    }
    var slice := text[lo..hi];
    AtRun(d, text, from, lo, hi);
    assert slice[0..|slice|] == slice;
    if slice == [] {
      assert records[i..j] == [];
    } else {
      SliceRun(d, text, from, i, hi);
      var t, s := Run(d, Fresh(0), slice), At(d, text, from, hi);
      if j < |records| {
        assert s.records == records[..j];
      } else {
        assert s.Completed() == records;
      }
      assert FieldsOf(t.Completed()) == FieldsOf(records[i..j]) by {
        var upto := s.Completed();
        assert upto == records[..j];
        assert FieldsOf(upto)[i..] == FieldsOf(t.Completed());
        assert FieldsOf(records[..j])[i..] == FieldsOf(records[i..j]);
      }
    }
  }

  /** From an indexed offset on, the machine reads the same records as one started afresh there. */
  lemma {:induction false} SliceRun(d: Dialect, text: string, from: nat, i: nat, hi: nat)
    requires from <= hi <= |text| && i < |Scan(d, text, from)|
    requires Scan(d, text, from)[i].offset < hi
    ensures from <= Scan(d, text, from)[i].offset
    ensures var t := Run(d, Fresh(0), text[Scan(d, text, from)[i].offset..hi]);
            var s := At(d, text, from, hi);
            && t.Idle() == s.Idle()
            && |s.Completed()| >= i
            && FieldsOf(s.Completed())[i..] == FieldsOf(t.Completed())
  {
    var records := Scan(d, text, from);
    var lo := records[i].offset;
    ScanIndexed(d, text, from);
    assert StartsRecord(d, text, from, |text|, records, i);
    var slice := text[lo..hi];
    var s := At(d, text, from, lo);
    AtRun(d, text, from, lo, hi);
    var bare := s.(records := []);
    assert s == bare.(records := s.records + bare.records);
    RunFrame(d, bare, s.records, slice);
    RunAlike(d, bare, Fresh(0), slice);
    var t0, t := Run(d, bare, slice), Run(d, Fresh(0), slice);
    AlikeCompleted(t0, t);
    FramedCompleted(t0, s.records, i);
  }

  lemma {:induction false} AlikeCompleted(s: Scanner, t: Scanner)
    requires Alike(s, t) && s.mode == t.mode
    ensures FieldsOf(s.Completed()) == FieldsOf(t.Completed())
  {
    if !t.Idle() {
      FieldsOfAppend(s.records, Record(s.start, s.fields + [s.field]));
      FieldsOfAppend(t.records, Record(t.start, t.fields + [t.field]));
    }
  }

  /** Records read before do not change what is read after them. */
  lemma {:induction false} FramedCompleted(t: Scanner, before: seq<Record>, i: nat)
    requires |before| == i
    ensures var u := t.(records := before + t.records);
            |u.Completed()| >= i && FieldsOf(u.Completed())[i..] == FieldsOf(t.Completed())
  {
    var u := t.(records := before + t.records);
    assert u.Completed() == before + t.Completed();
  }
}

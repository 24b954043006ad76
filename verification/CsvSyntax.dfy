/** The syntax of a delimited file, apart from the machine that reads it: every text has one, and the machine reads what
    it stands for. */
module CsvSyntax {
  import opened CsvGrammar
  import opened CsvWriter
  import opened CsvQuoting

  /** A field without quotes, or a quoted value with what follows its closing quote. */
  datatype Field = Plain(value: string) | Enclosed(value: string, tail: string)

  datatype Fields = First(field: Field) | Then(before: Fields, field: Field)

  datatype Rows = NoRows | Ended(before: Rows, fields: Fields, end: string)

  /** What follows the last terminator: nothing, the fields of a record, or a quoted value never closed, alone or after
      other fields. */
  datatype Last =
    | NoLast
    | Unended(fields: Fields)
    | Unclosed(value: string)
    | ThenUnclosed(fields: Fields, value: string)

  datatype File = File(rows: Rows, last: Last)

  // ----- What is well-formed -----

  predicate NoBreaks(d: Dialect, s: string) {
    forall i :: 0 <= i < |s| ==> s[i] != d.delim && !IsBreak(s[i])
  }

  predicate NoQuoteFirst(d: Dialect, s: string) {
    s != "" ==> !IsQuote(d, s[0])
  }

  predicate FieldOk(d: Dialect, x: Field) {
    match x
    case Plain(value) => NoBreaks(d, value) && NoQuoteFirst(d, value)
    case Enclosed(_, tail) => d.quoting && NoBreaks(d, tail) && NoQuoteFirst(d, tail)
  }

  predicate FieldsOk(d: Dialect, xs: Fields) {
    match xs
    case First(x) => FieldOk(d, x)
    case Then(before, x) => FieldsOk(d, before) && FieldOk(d, x)
  }

  /** The one field of a blank line. */
  predicate IsBlank(xs: Fields) {
    xs.First? && xs.field.Plain? && xs.field.value == ""
  }

  predicate EndsInCr(rows: Rows) {
    rows.Ended? && rows.end == "\r"
  }

  /** A blank line that is just a line feed cannot follow a lone carriage return, which would take it for itself. */
  predicate RowsOk(d: Dialect, rows: Rows) {
    match rows
    case NoRows => true
    case Ended(before, fields, end) =>
      && RowsOk(d, before) && FieldsOk(d, fields) && IsTerminator(end)
      && !(EndsInCr(before) && IsBlank(fields) && end == "\n")
  }

  predicate LastOk(d: Dialect, last: Last) {
    match last
    case NoLast => true
    case Unended(fields) => !IsBlank(fields) && FieldsOk(d, fields)
    case Unclosed(_) => d.quoting
    case ThenUnclosed(fields, _) => d.quoting && FieldsOk(d, fields)
  }

  predicate FileOk(d: Dialect, f: File) {
    RowsOk(d, f.rows) && LastOk(d, f.last)
  }

  // ----- Texts and values -----

  /** A quote and the value after it. */
  function OpenText(d: Dialect, value: string): string {
    [d.quote] + Doubled(d.quote, value)
  }

  function FieldSpelling(d: Dialect, x: Field): string {
    match x
    case Plain(value) => value
    case Enclosed(value, tail) => OpenText(d, value) + [d.quote] + tail
  }

  function FieldValue(x: Field): string {
    match x
    case Plain(value) => value
    case Enclosed(value, tail) => value + tail
  }

  function FieldsSpelling(d: Dialect, xs: Fields): string {
    match xs
    case First(x) => FieldSpelling(d, x)
    case Then(before, x) => FieldsSpelling(d, before) + [d.delim] + FieldSpelling(d, x)
  }

  function FieldValues(xs: Fields): seq<string> {
    match xs
    case First(x) => [FieldValue(x)]
    case Then(before, x) => FieldValues(before) + [FieldValue(x)]
  }

  function RowsSpelling(d: Dialect, rows: Rows): string {
    match rows
    case NoRows => ""
    case Ended(before, fields, end) => RowsSpelling(d, before) + (FieldsSpelling(d, fields) + end)
  }

  function LastSpelling(d: Dialect, last: Last): string {
    match last
    case NoLast => ""
    case Unended(fields) => FieldsSpelling(d, fields)
    case Unclosed(value) => OpenText(d, value)
    case ThenUnclosed(fields, value) => FieldsSpelling(d, fields) + [d.delim] + OpenText(d, value)
  }

  function FileSpelling(d: Dialect, f: File): string {
    RowsSpelling(d, f.rows) + LastSpelling(d, f.last)
  }

  /** The records of rows whose text begins at `from`, each where its own text begins. */
  function RowRecords(d: Dialect, rows: Rows, from: nat): seq<Record> {
    match rows
    case NoRows => []
    case Ended(before, fields, _) =>
      RowRecords(d, before, from) + [Record(from + |RowsSpelling(d, before)|, FieldValues(fields))]
  }

  function LastRecord(last: Last, at: nat): seq<Record> {
    match last
    case NoLast => []
    case Unended(fields) => [Record(at, FieldValues(fields))]
    case Unclosed(value) => [Record(at, [value])]
    case ThenUnclosed(fields, value) => [Record(at, FieldValues(fields) + [value])]
  }

  function FileRecords(d: Dialect, f: File, from: nat): seq<Record> {
    RowRecords(d, f.rows, from) + LastRecord(f.last, from + |RowsSpelling(d, f.rows)|)
  }

  // ----- The machine on a field -----

  lemma {:induction false} TailWithoutLast(d: Dialect, tail: string, before: string)
    requires NoBreaks(d, tail) && tail != ""
    ensures var init, c := tail[..|tail| - 1], tail[|tail| - 1];
            && NoBreaks(d, init) && c != d.delim && !IsBreak(c) && before + init + [c] == before + tail
            && (NoQuoteFirst(d, tail) ==> NoQuoteFirst(d, init) && (init == "" ==> !IsQuote(d, c)))
  {
    var init := tail[..|tail| - 1];
    assert forall i :: 0 <= i < |init| ==> init[i] == tail[i];
    assert init + [tail[|tail| - 1]] == tail;
  }

  lemma {:induction false} RunTail(d: Dialect, s: Scanner, tail: string)
    requires s.mode == Bare || s.mode == Closing
    requires NoBreaks(d, tail) && (s.mode == Closing ==> NoQuoteFirst(d, tail))
    ensures Run(d, s, tail)
         == s.(pos := s.pos + |tail|, field := s.field + tail, mode := if tail == "" then s.mode else Bare)
  {
    if tail == "" {
      assert s.field + tail == s.field;
    } else {
      var init, c := tail[..|tail| - 1], tail[|tail| - 1];
      TailWithoutLast(d, tail, s.field);
      RunTail(d, s, init);
      TailStep(d, Run(d, s, init), c);
    }
  }

  lemma {:induction false} TailStep(d: Dialect, s: Scanner, c: char)
    requires s.mode == Bare || (s.mode == Closing && !IsQuote(d, c))
    requires c != d.delim && !IsBreak(c)
    ensures Step(d, s, c) == s.(mode := Bare, pos := s.pos + 1, field := s.field + [c])
  {
  }

  lemma {:induction false} RunOpenText(d: Dialect, s: Scanner, value: string)
    requires s.mode == FieldStart && s.field == "" && d.quoting
    ensures Run(d, s, OpenText(d, value)) == s.(pos := s.pos + |OpenText(d, value)|, field := value, mode := Quoted)
  {
    RunConcat(d, s, [d.quote], Doubled(d.quote, value));
    RunOne(d, s, d.quote);
    RunDoubled(d, Step(d, s, d.quote), value);
  }

  lemma {:induction false} RunSpelled(d: Dialect, s: Scanner, x: Field)
    requires ValidDialect(d) && s.mode == FieldStart && s.field == "" && FieldOk(d, x)
    ensures var t := Run(d, s, FieldSpelling(d, x));
            && t == s.(pos := s.pos + |FieldSpelling(d, x)|, field := FieldValue(x), mode := t.mode)
            && AfterField(d, t)
  {
    match x
    case Plain(value) => RunStanding(d, s, value);
    case Enclosed(value, tail) =>
      var open := OpenText(d, value);
      RunOpenText(d, s, value);
      RunConcat(d, s, open, [d.quote]);
      RunOne(d, Run(d, s, open), d.quote);
      RunConcat(d, s, open + [d.quote], tail);
      RunTail(d, Run(d, s, open + [d.quote]), tail);
  }

  // ----- The machine on a row -----

  /** From `s` on the text makes the machine this one. */
  ghost predicate Makes(d: Dialect, s: Scanner, text: string, t: Scanner) {
    Run(d, s, text) == t && t.pos == s.pos + |text|
  }

  lemma {:induction false} MakesOn(d: Dialect, s: Scanner, a: string, t: Scanner, b: string, u: Scanner)
    requires Makes(d, s, a, t) && Makes(d, t, b, u)
    ensures Makes(d, s, a + b, u)
  {
    RunConcat(d, s, a, b);
  }

  predicate AtField(t: Scanner) {
    t.mode == FieldStart && t.field == ""
  }

  /** A delimiter, from after a field to the start of the next one. */
  lemma {:induction false} DelimMakes(d: Dialect, t: Scanner) returns (u: Scanner)
    requires ValidDialect(d) && AfterField(d, t)
    ensures Makes(d, t, [d.delim], u) && AtField(u)
    ensures u.start == t.start && u.records == t.records && u.fields == t.fields + [t.field]
  {
    RunOne(d, t, d.delim);
    DelimStep(d, t);
    u := Step(d, t, d.delim);
  }

  /** The record that was opened when `s` was has these values so far; the last of them is still open. */
  predicate HasRead(s: Scanner, t: Scanner, values: seq<string>) {
    t.start == s.start && t.records == s.records && t.fields + [t.field] == values
  }

  lemma {:induction false} FieldsMake(d: Dialect, s: Scanner, xs: Fields) returns (t: Scanner)
    requires ValidDialect(d) && AtField(s) && s.fields == [] && FieldsOk(d, xs)
    ensures Makes(d, s, FieldsSpelling(d, xs), t) && HasRead(s, t, FieldValues(xs)) && AfterField(d, t)
  {
    match xs
    case First(x) =>
      RunSpelled(d, s, x);
      t := Run(d, s, FieldSpelling(d, x));
    case Then(before, x) =>
      var u := FieldsMake(d, s, before);
      var v := DelimMakes(d, u);
      MakesOn(d, s, FieldsSpelling(d, before), u, [d.delim], v);
      RunSpelled(d, v, x);
      t := Run(d, v, FieldSpelling(d, x));
      MakesOn(d, s, FieldsSpelling(d, before) + [d.delim], v, FieldSpelling(d, x), t);
  }

  lemma {:induction false} SpellingOpens(d: Dialect, xs: Fields)
    requires ValidDialect(d) && FieldsOk(d, xs)
    ensures FieldsSpelling(d, xs) != "" ==> !IsBreak(FieldsSpelling(d, xs)[0])
    ensures FieldsSpelling(d, xs) == "" <==> IsBlank(xs)
  {
    match xs
    case First(x) =>
    case Then(before, x) => SpellingOpens(d, before);
  }

  /** From an idle machine a text that begins a record makes what it makes from the start of a field. */
  lemma {:induction false} OpenedMakes(d: Dialect, s: Scanner, text: string, t: Scanner)
    requires s.Idle() && text != "" && !IsBreak(text[0]) && Makes(d, s.Opened(), text, t)
    ensures Makes(d, s, text, t)
  {
    RunOpened(d, s, text);
  }

  /** A break makes the machine idle and completes the open record, or a blank one. */
  lemma {:induction false} BreakMakes(d: Dialect, t: Scanner, c: char) returns (u: Scanner)
    requires ValidDialect(d) && IsBreak(c)
    requires AfterField(d, t) || t.mode == Between || (t.mode == AfterCr && c == '\r')
    ensures Makes(d, t, [c], u)
    ensures u.mode == (if c == '\r' then AfterCr else Between) && u.records == t.Opened().Completed()
  {
    RunOne(d, t, c);
    u := Step(d, t, c);
  }

  /** A terminator, of which only a lone carriage return can take a line feed after it. */
  lemma {:induction false} EndMakes(d: Dialect, t: Scanner, end: string) returns (u: Scanner)
    requires ValidDialect(d) && IsTerminator(end)
    requires AfterField(d, t) || t.mode == Between || (t.mode == AfterCr && end != "\n")
    ensures Makes(d, t, end, u)
    ensures u.mode == (if end == "\r" then AfterCr else Between) && u.records == t.Opened().Completed()
  {
    if end == "\r\n" {
      var v := BreakMakes(d, t, '\r');
      RunOne(d, v, '\n');
      u := Step(d, v, '\n');
      MakesOn(d, t, ['\r'], v, ['\n'], u);
      assert end == ['\r'] + ['\n'];
    } else {
      u := BreakMakes(d, t, end[0]);
      assert end == [end[0]];
    }
  }

  lemma {:induction false} RowMakes(d: Dialect, s: Scanner, fields: Fields, end: string) returns (u: Scanner)
    requires ValidDialect(d) && s.Idle() && FieldsOk(d, fields) && IsTerminator(end)
    requires !(s.mode == AfterCr && IsBlank(fields) && end == "\n")
    ensures Makes(d, s, FieldsSpelling(d, fields) + end, u)
    ensures u.mode == (if end == "\r" then AfterCr else Between)
    ensures u.records == s.records + [Record(s.pos, FieldValues(fields))]
  {
    var text := FieldsSpelling(d, fields);
    SpellingOpens(d, fields);
    if IsBlank(fields) {
      u := EndMakes(d, s, end);
      assert "" + end == end;
      assert s.Opened().fields + [s.Opened().field] == [""];
    } else {
      var t := FieldsMake(d, s.Opened(), fields);
      OpenedMakes(d, s, text, t);
      u := EndMakes(d, t, end);
      MakesOn(d, s, text, t, end, u);
    }
  }

  // ----- The machine on a file -----

  lemma {:induction false} NextRowMakes(d: Dialect, from: nat, text: string, s: Scanner, fields: Fields, end: string)
    returns (whole: string, t: Scanner)
    requires ValidDialect(d) && s.Idle() && FieldsOk(d, fields) && IsTerminator(end) && Makes(d, Fresh(from), text, s)
    requires !(s.mode == AfterCr && IsBlank(fields) && end == "\n")
    ensures whole == text + (FieldsSpelling(d, fields) + end) && Makes(d, Fresh(from), whole, t)
    ensures t.mode == (if end == "\r" then AfterCr else Between)
    ensures t.records == s.records + [Record(from + |text|, FieldValues(fields))]
  {
    t := RowMakes(d, s, fields, end);
    whole := text + (FieldsSpelling(d, fields) + end);
    MakesOn(d, Fresh(from), text, s, FieldsSpelling(d, fields) + end, t);
  }

  lemma {:induction false} RowsParts(d: Dialect, rows: Rows, from: nat, whole: string, before: seq<Record>)
    requires rows.Ended? && whole == RowsSpelling(d, rows.before) + (FieldsSpelling(d, rows.fields) + rows.end)
    requires before == RowRecords(d, rows.before, from)
    ensures whole == RowsSpelling(d, rows)
    ensures RowRecords(d, rows, from)
         == before + [Record(from + |RowsSpelling(d, rows.before)|, FieldValues(rows.fields))]
  {
  }

  /** The rows' text, and the machine after it. */
  lemma {:induction false} RowsMake(d: Dialect, from: nat, rows: Rows) returns (text: string, t: Scanner)
    requires ValidDialect(d) && RowsOk(d, rows)
    ensures text == RowsSpelling(d, rows) && Makes(d, Fresh(from), text, t)
    ensures t.mode == (if EndsInCr(rows) then AfterCr else Between) && t.records == RowRecords(d, rows, from)
  {
    if rows.NoRows? {
      text, t := "", Fresh(from);
    } else {
      var before, s := RowsMake(d, from, rows.before);
      text, t := NextRowMakes(d, from, before, s, rows.fields, rows.end);
      RowsParts(d, rows, from, text, s.records);
    }
  }

  lemma {:induction false} UnclosedMakes(d: Dialect, s: Scanner, fields: Fields, value: string) returns (t: Scanner)
    requires ValidDialect(d) && AtField(s) && s.fields == [] && d.quoting && FieldsOk(d, fields)
    ensures Makes(d, s, FieldsSpelling(d, fields) + [d.delim] + OpenText(d, value), t)
    ensures HasRead(s, t, FieldValues(fields) + [value]) && t.mode == Quoted
  {
    var u := FieldsMake(d, s, fields);
    var v := DelimMakes(d, u);
    MakesOn(d, s, FieldsSpelling(d, fields), u, [d.delim], v);
    RunOpenText(d, v, value);
    t := Run(d, v, OpenText(d, value));
    MakesOn(d, s, FieldsSpelling(d, fields) + [d.delim], v, OpenText(d, value), t);
  }

  lemma {:induction false} LastOpens(d: Dialect, last: Last)
    requires ValidDialect(d) && LastOk(d, last) && last != NoLast
    ensures LastSpelling(d, last) != "" && !IsBreak(LastSpelling(d, last)[0])
  {
    match last
    case Unended(fields) => SpellingOpens(d, fields);
    case ThenUnclosed(fields, _) => SpellingOpens(d, fields);
    case _ =>
  }

  /** The machine in the last record, not idle. */
  lemma {:induction false} OpenMakes(d: Dialect, o: Scanner, last: Last) returns (t: Scanner)
    requires ValidDialect(d) && AtField(o) && o.fields == [] && LastOk(d, last) && last != NoLast
    ensures Makes(d, o, LastSpelling(d, last), t) && !t.Idle()
    ensures t.records == o.records && [Record(t.start, t.fields + [t.field])] == LastRecord(last, o.start)
  {
    match last
    case Unended(fields) => t := FieldsMake(d, o, fields);
    case Unclosed(value) =>
      RunOpenText(d, o, value);
      t := Run(d, o, OpenText(d, value));
      assert [] + [value] == [value];
    case ThenUnclosed(fields, value) => t := UnclosedMakes(d, o, fields, value);
  }

  lemma {:induction false} LastMakes(d: Dialect, s: Scanner, last: Last) returns (t: Scanner)
    requires ValidDialect(d) && s.Idle() && LastOk(d, last)
    ensures Makes(d, s, LastSpelling(d, last), t) && t.Completed() == s.records + LastRecord(last, s.pos)
  {
    if last == NoLast {
      t := s;
    } else {
      t := OpenMakes(d, s.Opened(), last);
      LastOpens(d, last);
      OpenedMakes(d, s, LastSpelling(d, last), t);
    }
  }

  lemma {:induction false} FileParts(d: Dialect, f: File, from: nat, s: Scanner, records: seq<Record>)
    requires s.pos == from + |RowsSpelling(d, f.rows)| && s.records == RowRecords(d, f.rows, from)
    requires records == s.records + LastRecord(f.last, s.pos)
    ensures records == FileRecords(d, f, from)
  {
  }

  /** A file in two texts: its rows and what is left over. */
  lemma {:induction false} FileMakes(d: Dialect, from: nat, f: File)
    returns (a: string, s: Scanner, b: string, t: Scanner)
    requires ValidDialect(d) && FileOk(d, f)
    ensures Makes(d, Fresh(from), a, s) && Makes(d, s, b, t)
    ensures a + b == FileSpelling(d, f) && t.Completed() == FileRecords(d, f, from)
  {
    a, s := RowsMake(d, from, f.rows);
    b := LastSpelling(d, f.last);
    t := LastMakes(d, s, f.last);
    FileParts(d, f, from, s, t.Completed());
  }

  lemma {:induction false} ScanMade(d: Dialect, prefix: string, a: string, s: Scanner, b: string, t: Scanner)
    requires Makes(d, Fresh(|prefix|), a, s) && Makes(d, s, b, t)
    ensures Scan(d, prefix + (a + b), |prefix|) == t.Completed()
  {
    MakesOn(d, Fresh(|prefix|), a, s, b, t);
    assert (prefix + (a + b))[|prefix|..|prefix + (a + b)|] == a + b;
  }

  /** Every file is read as the records of its syntax, each with the offset where its text begins. */
  lemma {:induction false} FileRead(d: Dialect, prefix: string, f: File)
    requires ValidDialect(d) && FileOk(d, f)
    ensures Scan(d, prefix + FileSpelling(d, f), |prefix|) == FileRecords(d, f, |prefix|)
  {
    var a, s, b, t := FileMakes(d, |prefix|, f);
    ScanMade(d, prefix, a, s, b, t);
  }

  // ----- Every text has a syntax -----

  /** The fields with another last one. */
  function WithField(xs: Fields, x: Field): Fields {
    match xs
    case First(_) => First(x)
    case Then(before, _) => Then(before, x)
  }

  lemma {:induction false} Associates(a: string, b: string, c: string)
    ensures a + (b + c) == a + b + c
  {
  }

  lemma {:induction false} LongerValue(d: Dialect, value: string, c: char)
    ensures OpenText(d, value + [c]) == OpenText(d, value) + if c == d.quote then [c, c] else [c]
  {
    assert (value + [c])[..|value|] == value;
  }

  /** A field with one character more, outside quotes. */
  function Lengthened(x: Field, c: char): Field {
    match x
    case Plain(value) => Plain(value + [c])
    case Enclosed(value, tail) => Enclosed(value, tail + [c])
  }

  predicate CanLengthen(d: Dialect, x: Field, c: char) {
    c != d.delim && !IsBreak(c) && (IsQuote(d, c) ==> if x.Plain? then x.value != "" else x.tail != "")
  }

  lemma {:induction false} LengthenField(d: Dialect, x: Field, c: char)
    requires FieldOk(d, x) && CanLengthen(d, x, c)
    ensures FieldOk(d, Lengthened(x, c)) && FieldSpelling(d, Lengthened(x, c)) == FieldSpelling(d, x) + [c]
  {
    if x.Enclosed? { Associates(OpenText(d, x.value) + [d.quote], x.tail, [c]); }
  }

  lemma {:induction false} LengthenFields(d: Dialect, xs: Fields, c: char)
    requires FieldsOk(d, xs) && CanLengthen(d, xs.field, c)
    ensures var ys := WithField(xs, Lengthened(xs.field, c));
            FieldsOk(d, ys) && !IsBlank(ys) && FieldsSpelling(d, ys) == FieldsSpelling(d, xs) + [c]
  {
    LengthenField(d, xs.field, c);
    if xs.Then? { Associates(FieldsSpelling(d, xs.before) + [d.delim], FieldSpelling(d, xs.field), [c]); }
  }

  /** What is left over by one character more where the last record has fields: a quote may open a value, or open one
      again that seemed to be closed. */
  function NextUnended(d: Dialect, xs: Fields, c: char): Last {
    if c == d.delim then Unended(Then(xs, Plain("")))
    else if CanLengthen(d, xs.field, c) then Unended(WithField(xs, Lengthened(xs.field, c)))
    else
      var value := if xs.field.Plain? then "" else xs.field.value + [c];
      if xs.First? then Unclosed(value) else ThenUnclosed(xs.before, value)
  }

  lemma {:induction false} ReopenField(d: Dialect, x: Field, c: char)
    requires FieldOk(d, x) && IsQuote(d, c) && !CanLengthen(d, x, c) && ValidDialect(d)
    ensures OpenText(d, if x.Plain? then "" else x.value + [c]) == FieldSpelling(d, x) + [c]
  {
    if x.Enclosed? {
      LongerValue(d, x.value, c);
      var open := OpenText(d, x.value);
      assert open + [c] + "" == open + [c] && open + [c, c] == open + [c] + [c];
    } else {
      assert [c] + "" == "" + [c];
    }
  }

  lemma {:induction false} UnendedGrows(d: Dialect, xs: Fields, c: char)
    requires ValidDialect(d) && FieldsOk(d, xs) && !IsBreak(c)
    ensures LastOk(d, NextUnended(d, xs, c))
    ensures LastSpelling(d, NextUnended(d, xs, c)) == FieldsSpelling(d, xs) + [c]
  {
    if c == d.delim {
      var text := FieldsSpelling(d, xs) + [c];
      assert text + "" == text;
    } else if CanLengthen(d, xs.field, c) {
      LengthenFields(d, xs, c);
    } else {
      ReopenField(d, xs.field, c);
      if xs.Then? { Associates(FieldsSpelling(d, xs.before) + [d.delim], FieldSpelling(d, xs.field), [c]); }
    }
  }

  function NextLast(d: Dialect, last: Last, c: char): Last {
    match last
    case NoLast => if IsQuote(d, c) then Unclosed("") else NextUnended(d, First(Plain("")), c)
    case Unended(xs) => NextUnended(d, xs, c)
    case Unclosed(value) =>
      if c == d.quote then Unended(First(Enclosed(value, ""))) else Unclosed(value + [c])
    case ThenUnclosed(xs, value) =>
      if c == d.quote then Unended(Then(xs, Enclosed(value, ""))) else ThenUnclosed(xs, value + [c])
  }

  /** In an unclosed value every character counts, elsewhere breaks end the record. */
  predicate Ends(last: Last, c: char) {
    IsBreak(c) && (last.NoLast? || last.Unended?)
  }

  lemma {:induction false} LastGrows(d: Dialect, last: Last, c: char)
    requires ValidDialect(d) && LastOk(d, last) && !Ends(last, c)
    ensures LastOk(d, NextLast(d, last, c)) && LastSpelling(d, NextLast(d, last, c)) == LastSpelling(d, last) + [c]
  {
    match last
    case NoLast =>
      assert "" + [c] == [c] && [c] + "" == [c];
      UnendedGrows(d, First(Plain("")), c);
    case Unended(xs) => UnendedGrows(d, xs, c);
    case Unclosed(value) =>
      LongerValue(d, value, c);
      var open := OpenText(d, value) + [d.quote];
      assert open + "" == open;
    case ThenUnclosed(xs, value) =>
      LongerValue(d, value, c);
      var open := OpenText(d, value) + [d.quote];
      assert open + "" == open;
      Associates(FieldsSpelling(d, xs) + [d.delim], OpenText(d, value), [c]);
  }

  /** The rows when a break ends the record after them; a line feed may be the other half of a terminator. */
  function NextRows(rows: Rows, last: Last, c: char): Rows {
    if last.Unended? then Ended(rows, last.fields, [c])
    else if EndsInCr(rows) && c == '\n' then rows.(end := "\r\n")
    else Ended(rows, First(Plain("")), [c])
  }

  lemma {:induction false} RowsGrow(d: Dialect, rows: Rows, last: Last, c: char)
    requires RowsOk(d, rows) && LastOk(d, last) && Ends(last, c)
    ensures RowsOk(d, NextRows(rows, last, c))
    ensures RowsSpelling(d, NextRows(rows, last, c)) == RowsSpelling(d, rows) + LastSpelling(d, last) + [c]
  {
    var text := RowsSpelling(d, rows);
    assert text + "" == text && "" + [c] == [c];
    if last.Unended? {
      Associates(text, FieldsSpelling(d, last.fields), [c]);
    } else if EndsInCr(rows) && c == '\n' {
      var fields := FieldsSpelling(d, rows.fields);
      assert fields + "\r\n" == fields + "\r" + [c];
      Associates(RowsSpelling(d, rows.before), fields + "\r", [c]);
    }
  }

  lemma {:induction false} FileGrows(d: Dialect, f: File, c: char) returns (g: File)
    requires ValidDialect(d) && FileOk(d, f)
    ensures FileOk(d, g) && FileSpelling(d, g) == FileSpelling(d, f) + [c]
  {
    if Ends(f.last, c) {
      g := File(NextRows(f.rows, f.last, c), NoLast);
      RowsGrow(d, f.rows, f.last, c);
      assert RowsSpelling(d, g.rows) + "" == RowsSpelling(d, g.rows);
    } else {
      g := File(f.rows, NextLast(d, f.last, c));
      LastGrows(d, f.last, c);
      Associates(RowsSpelling(d, f.rows), LastSpelling(d, f.last), [c]);
    }
  }

  /** Every text is that of a file. */
  lemma {:induction false} EveryText(d: Dialect, text: string) returns (f: File)
    requires ValidDialect(d)
    ensures FileOk(d, f) && FileSpelling(d, f) == text
  {
    if text == "" {
      f := File(NoRows, NoLast);
    } else {
      var init, c := text[..|text| - 1], text[|text| - 1];
      var g := EveryText(d, init);
      f := FileGrows(d, g, c);
      assert init + [c] == text;
    }
  }

  /** What the machine reads in any text, after a mark or not: the records of the file the text spells. */
  lemma {:induction false} TextRead(d: Dialect, prefix: string, text: string) returns (f: File)
    requires ValidDialect(d)
    ensures FileOk(d, f) && FileSpelling(d, f) == text
    ensures Scan(d, prefix + text, |prefix|) == FileRecords(d, f, |prefix|)
  {
    f := EveryText(d, text);
    FileRead(d, prefix, f);
  }
}

/** Writing rows in a chosen dialect, and finding the record terminator of a file. */
module CsvWriter {
  import opened Characters
  import opened CsvGrammar
  import opened Outcomes

  const QUOTING_REQUIRED := "This value requires quoting; choose a quoting character in Options."

  const BAD_CHARACTERS := "Delimiter and quote must be single ASCII characters (or no quote)."

  const SAME_CHARACTERS := "Delimiter and quoting character must differ."

  predicate SingleDialectChar(s: string) {
    |s| == 1 && DialectChar(s[0])
  }

  /** The dialect named by two option strings; an empty quote turns quoting off. */
  function WithDialect(delimiter: string, quote: string): (r: Result<Dialect>)
    ensures r.Ok? <==> SingleDialectChar(delimiter)
                       && (quote == "" || (SingleDialectChar(quote) && quote != delimiter))
    ensures r.Ok? ==> ValidDialect(r.value) && DelimiterOf(r.value) == delimiter && QuoteOf(r.value) == quote
  {
    if !SingleDialectChar(delimiter) || (quote != "" && !SingleDialectChar(quote)) then Err(BAD_CHARACTERS)
    else if quote != "" && delimiter == quote then Err(SAME_CHARACTERS)
    else Ok(Dialect(delimiter[0], if quote == "" then '\0' else quote[0], quote != ""))
  }

  function DelimiterOf(d: Dialect): string {
    [d.delim]
  }

  function QuoteOf(d: Dialect): string {
    if d.quoting then [d.quote] else ""
  }

  // ----- The text of a row -----

  predicate NeedsQuote(d: Dialect, value: string, alone: bool) {
    d.delim in value || '\r' in value || '\n' in value || (d.quoting && d.quote in value) || (alone && value == "")
  }

  /** Without quoting, only values that need none can be written. */
  predicate Writable(d: Dialect, values: seq<string>) {
    d.quoting || forall i :: 0 <= i < |values| ==> !NeedsQuote(d, values[i], |values| == 1)
  }

  function Doubled(quote: char, value: string): string {
    if value == "" then ""
    else Doubled(quote, value[..|value| - 1])
         + (if value[|value| - 1] == quote then [quote, quote] else [value[|value| - 1]])
  }

  function FieldText(d: Dialect, value: string, alone: bool): string {
    if NeedsQuote(d, value, alone) then [d.quote] + Doubled(d.quote, value) + [d.quote] else value
  }

  /** The first `n` fields of a row, with delimiters between them. */
  function FieldsText(d: Dialect, values: seq<string>, n: nat): string
    requires n <= |values|
  {
    if n == 0 then ""
    else FieldsText(d, values, n - 1) + (if n == 1 then "" else [d.delim])
         + FieldText(d, values[n - 1], |values| == 1)
  }

  function RowText(d: Dialect, values: seq<string>, newline: string): string {
    FieldsText(d, values, |values|) + newline
  }

  /** One value, between quotes and with its quotes doubled when it needs quoting. */
  method WriteValue(output: string, value: string, quote: char, needsQuote: bool) returns (out: string)
    ensures out == output + if needsQuote then [quote] + Doubled(quote, value) + [quote] else value
  {
    out := output;
    if needsQuote { out := out + [quote]; }
    ghost var start := out;
    var k := 0;
    while k < |value|
      invariant 0 <= k <= |value|
      invariant out == start + (if needsQuote then Doubled(quote, value[..k]) else value[..k])
    {
      assert value[..k + 1][..k] == value[..k];
      if needsQuote && value[k] == quote { out := out + [quote]; }
      out := out + [value[k]];
      k := k + 1;
    }
    assert value[..k] == value;
    if needsQuote { out := out + [quote]; }
  }

  method WriteRow(output: string, values: seq<string>, d: Dialect, newline: string) returns (r: Result<string>)
    ensures r == if Writable(d, values) then Ok(output + RowText(d, values, newline)) else Err(QUOTING_REQUIRED)
  {
    var out := output;
    var i := 0;
    while i < |values|
      invariant 0 <= i <= |values|
      invariant forall k :: 0 <= k < i ==> d.quoting || !NeedsQuote(d, values[k], |values| == 1)
      invariant out == output + FieldsText(d, values, i)
    {
      ghost var before := out;
      if i != 0 { out := out + [d.delim]; }
      var value := values[i];
      var needsQuote := d.delim in value || '\r' in value || '\n' in value
                        || (d.quoting && d.quote in value) || (|values| == 1 && value == "");
      assert needsQuote == NeedsQuote(d, values[i], |values| == 1);
      if needsQuote && !d.quoting {
        assert !Writable(d, values);
        return Err(QUOTING_REQUIRED);
      }
      out := WriteValue(out, value, d.quote, needsQuote);
      FieldsTextStep(d, values, i, output, before, out);
      i := i + 1;
    }
    assert Writable(d, values);
    assert out + newline == output + (FieldsText(d, values, |values|) + newline);
    return Ok(out + newline);
  }

  lemma {:induction false} FieldsTextStep(d: Dialect, values: seq<string>, i: nat, output: string, before: string,
                                          after: string)
    requires i < |values| && before == output + FieldsText(d, values, i)
    requires after == before + (if i == 0 then "" else [d.delim]) + FieldText(d, values[i], |values| == 1)
    ensures after == output + FieldsText(d, values, i + 1)
  {
  }

  // ----- The grammar undoes the writer -----

  predicate IsTerminator(newline: string) {
    newline == "\n" || newline == "\r\n" || newline == "\r"
  }

  lemma {:induction false} RunBare(d: Dialect, s: Scanner, value: string)
    requires s.mode == FieldStart && s.field == ""
    requires !NeedsQuote(d, value, false)
    ensures var t := Run(d, s, value);
            t == s.(pos := s.pos + |value|, field := value, mode := if value == "" then FieldStart else Bare)
  {
    if value != "" {
      RunBare(d, s, value[..|value| - 1]);
    }
  }

  lemma {:induction false} RunDoubled(d: Dialect, s: Scanner, value: string)
    requires s.mode == Quoted && s.field == "" && d.quoting
    ensures Run(d, s, Doubled(d.quote, value)) == s.(pos := s.pos + |Doubled(d.quote, value)|, field := value)
  {
    if value != "" {
      var init, c := value[..|value| - 1], value[|value| - 1];
      RunDoubled(d, s, init);
      assert value == init + [c];
      RunQuoted(d, s, Doubled(d.quote, init), c);
    }
  }

  /** Inside quotes a character, or the quote doubled, adds itself to the field. */
  lemma {:induction false} RunQuoted(d: Dialect, s: Scanner, before: string, c: char)
    requires d.quoting && Run(d, s, before).mode == Quoted
    ensures var t, text := Run(d, s, before), if c == d.quote then [c, c] else [c];
            Run(d, s, before + text) == t.(pos := t.pos + |text|, field := t.field + [c])
  {
    var t := Run(d, s, before);
    RunOne(d, t, c);
    if c == d.quote {
      RunConcat(d, s, before, [c, c]);
      assert [c] + [c] == [c, c];
      RunConcat(d, t, [c], [c]);
      RunOne(d, Step(d, t, c), c);
    } else {
      RunConcat(d, s, before, [c]);
    }
  }

  /** After the text of a field the machine holds exactly its value. */
  lemma {:induction false} RunField(d: Dialect, s: Scanner, value: string, alone: bool)
    requires s.mode == FieldStart && s.field == ""
    requires NeedsQuote(d, value, alone) ==> d.quoting
    ensures var t := Run(d, s, FieldText(d, value, alone));
            && t == s.(pos := t.pos, field := value, mode := t.mode)
            && t.pos == s.pos + |FieldText(d, value, alone)| && AfterField(d, t)
  {
    if NeedsQuote(d, value, alone) {
      var q, body := [d.quote], Doubled(d.quote, value);
      RunOne(d, s, d.quote);
      RunConcat(d, s, q, body);
      RunDoubled(d, Step(d, s, d.quote), value);
      RunConcat(d, s, q + body, q);
      RunOne(d, Run(d, s, q + body), d.quote);
    } else {
      RunBare(d, s, value);
    }
  }

  lemma {:induction false} RunFields(d: Dialect, s: Scanner, values: seq<string>, n: nat)
    requires ValidDialect(d) && Writable(d, values)
    requires s.mode == FieldStart && s.field == "" && s.fields == []
    requires 0 < n <= |values|
    ensures var t := Run(d, s, FieldsText(d, values, n));
            Holds(s, t, values, n) && t.pos == s.pos + |FieldsText(d, values, n)| && AfterField(d, t)
  {
    var alone := |values| == 1;
    if n == 1 {
      assert FieldsText(d, values, 1) == FieldText(d, values[0], alone);
      RunField(d, s, values[0], alone);
    } else {
      var before := FieldsText(d, values, n - 1);
      RunFields(d, s, values, n - 1);
      RunNextField(d, s, before, values[n - 1], alone);
      HoldsNext(s, Run(d, s, before), Run(d, s, FieldsText(d, values, n)), values, n);
    }
  }

  /** From `s` on, the machine has read the first `n` values of a row; the last of them is still open. */
  predicate Holds(s: Scanner, t: Scanner, values: seq<string>, n: nat) {
    0 < n <= |values| && t.start == s.start && t.records == s.records
    && t.fields == values[..n - 1] && t.field == values[n - 1]
  }

  lemma {:induction false} HoldsNext(s: Scanner, t: Scanner, u: Scanner, values: seq<string>, n: nat)
    requires 1 < n <= |values| && Holds(s, t, values, n - 1)
    requires u.start == t.start && u.records == t.records && u.fields == t.fields + [t.field]
    requires u.field == values[n - 1]
    ensures Holds(s, u, values, n)
  {
    assert values[..n - 2] + [values[n - 2]] == values[..n - 1];
  }

  lemma {:induction false} HoldsAll(s: Scanner, t: Scanner, values: seq<string>)
    requires Holds(s, t, values, |values|) && !t.Idle()
    ensures t.Completed() == s.records + [Record(s.start, values)]
  {
    assert values[..|values| - 1] + [values[|values| - 1]] == values;
  }

  /** The machine stands after a field. */
  predicate AfterField(d: Dialect, t: Scanner) {
    t.mode in {FieldStart, Bare, Closing} && (t.mode == Closing ==> d.quoting)
  }

  lemma {:induction false} DelimStep(d: Dialect, t: Scanner)
    requires ValidDialect(d) && AfterField(d, t)
    ensures Step(d, t, d.delim) == t.(mode := FieldStart, pos := t.pos + 1, fields := t.fields + [t.field], field := "")
  {
  }

  lemma {:induction false} RunDelim(d: Dialect, s: Scanner, before: string)
    requires ValidDialect(d) && AfterField(d, Run(d, s, before))
    ensures var t := Run(d, s, before);
            Run(d, s, before + [d.delim])
            == t.(mode := FieldStart, pos := t.pos + 1, fields := t.fields + [t.field], field := "")
  {
    RunConcat(d, s, before, [d.delim]);
    RunOne(d, Run(d, s, before), d.delim);
    DelimStep(d, Run(d, s, before));
  }

  /** A delimiter and the text of a field after it close the open field and hold the new value. */
  lemma {:induction false} RunNextField(d: Dialect, s: Scanner, before: string, value: string, alone: bool)
    requires ValidDialect(d) && AfterField(d, Run(d, s, before)) && (NeedsQuote(d, value, alone) ==> d.quoting)
    ensures var t, text := Run(d, s, before), before + [d.delim] + FieldText(d, value, alone);
            var u := Run(d, s, text);
            && u == t.(pos := u.pos, field := value, fields := t.fields + [t.field], mode := u.mode)
            && u.pos == t.pos + 1 + |FieldText(d, value, alone)| && AfterField(d, u)
  {
    RunDelim(d, s, before);
    RunConcat(d, s, before + [d.delim], FieldText(d, value, alone));
    RunField(d, Run(d, s, before + [d.delim]), value, alone);
  }

  /** A written row starts with a character that opens a record. */
  lemma {:induction false} RowTextOpens(d: Dialect, values: seq<string>, n: nat)
    requires ValidDialect(d) && Writable(d, values) && 0 < n <= |values|
    ensures n == |values| ==> FieldsText(d, values, n) != ""
    ensures FieldsText(d, values, n) != "" ==> !IsBreak(FieldsText(d, values, n)[0])
  {
    if n == 1 {
      assert FieldsText(d, values, 1) == FieldText(d, values[0], |values| == 1);
    } else {
      RowTextOpens(d, values, n - 1);
    }
  }

  lemma {:induction false} RunOpened(d: Dialect, s: Scanner, text: string)
    requires text != "" && !IsBreak(text[0])
    ensures Run(d, s, text) == Run(d, s.Opened(), text)
  {
    RunFirst(d, s, text);
    RunFirst(d, s.Opened(), text);
    StepOpened(d, s, text[0]);
  }

  lemma {:induction false} StepOpened(d: Dialect, s: Scanner, c: char)
    requires !IsBreak(c)
    ensures Step(d, s, c) == Step(d, s.Opened(), c)
  {
  }

  lemma {:induction false} RunFirst(d: Dialect, s: Scanner, text: string)
    requires text != ""
    ensures Run(d, s, text) == Run(d, Step(d, s, text[0]), text[1..])
  {
    assert text == [text[0]] + text[1..];
    RunConcat(d, s, [text[0]], text[1..]);
    RunOne(d, s, text[0]);
  }

  lemma {:induction false} RunBreak(d: Dialect, t: Scanner, c: char)
    requires ValidDialect(d) && IsBreak(c) && AfterField(d, t)
    ensures var u := Run(d, t, [c]);
            && u.mode == (if c == '\r' then AfterCr else Between)
            && u.pos == t.pos + 1 && u.records == t.Completed()
  {
    RunOne(d, t, c);
  }

  lemma {:induction false} RunLf(d: Dialect, u: Scanner)
    requires u.mode == AfterCr
    ensures Run(d, u, ['\n']) == u.(mode := Between, pos := u.pos + 1)
  {
    RunOne(d, u, '\n');
  }

  lemma {:induction false} RunTerminator(d: Dialect, t: Scanner, newline: string)
    requires ValidDialect(d) && IsTerminator(newline)
    requires AfterField(d, t)
    ensures var u := Run(d, t, newline);
            u.Idle() && u.pos == t.pos + |newline| && u.records == t.Completed()
  {
    RunBreak(d, t, newline[0]);
    if newline == "\r\n" {
      assert newline == ['\r'] + ['\n'];
      RunConcat(d, t, ['\r'], ['\n']);
      RunLf(d, Run(d, t, ['\r']));
    } else {
      assert newline == [newline[0]];
    }
  }

  /** Reading the text of a row, wherever the machine is idle, adds exactly that row. */
  lemma {:induction false} RunRow(d: Dialect, s: Scanner, values: seq<string>, newline: string)
    requires ValidDialect(d) && Writable(d, values) && values != []
    requires s.Idle() && IsTerminator(newline)
    ensures var t := Run(d, s, RowText(d, values, newline));
            && t.Idle() && t.pos == s.pos + |RowText(d, values, newline)|
            && t.records == s.records + [Record(s.pos, values)]
  {
    RunOpenRow(d, s, values);
    RunEnd(d, s, FieldsText(d, values, |values|), newline);
  }

  /** The fields of a row, read from an idle point, make it the open record. */
  lemma {:induction false} RunOpenRow(d: Dialect, s: Scanner, values: seq<string>)
    requires ValidDialect(d) && Writable(d, values) && values != [] && s.Idle()
    ensures var t := Run(d, s, FieldsText(d, values, |values|));
            && AfterField(d, t) && t.pos == s.pos + |FieldsText(d, values, |values|)|
            && t.Completed() == s.records + [Record(s.pos, values)]
  {
    var text := FieldsText(d, values, |values|);
    RowTextOpens(d, values, |values|);
    RunOpened(d, s, text);
    RunFields(d, s.Opened(), values, |values|);
    HoldsAll(s.Opened(), Run(d, s, text), values);
  }

  lemma {:induction false} RunEnd(d: Dialect, s: Scanner, text: string, newline: string)
    requires ValidDialect(d) && IsTerminator(newline) && AfterField(d, Run(d, s, text))
    ensures var t, u := Run(d, s, text), Run(d, s, text + newline);
            u.Idle() && u.pos == t.pos + |newline| && u.records == t.Completed()
  {
    RunConcat(d, s, text, newline);
    RunTerminator(d, Run(d, s, text), newline);
  }

  function RowsText(d: Dialect, rows: seq<seq<string>>, newline: string): string {
    if rows == [] then "" else RowsText(d, rows[..|rows| - 1], newline) + RowText(d, rows[|rows| - 1], newline)
  }

  ghost predicate AllWritable(d: Dialect, rows: seq<seq<string>>) {
    forall i :: 0 <= i < |rows| ==> rows[i] != [] && Writable(d, rows[i])
  }

  lemma {:induction false} RunRows(d: Dialect, s: Scanner, rows: seq<seq<string>>, newline: string)
    requires ValidDialect(d) && AllWritable(d, rows) && s.Idle() && IsTerminator(newline)
    ensures var t := Run(d, s, RowsText(d, rows, newline));
            && t.Idle() && FieldsOf(t.records) == FieldsOf(s.records) + rows
  {
    if rows != [] {
      var init, last := rows[..|rows| - 1], rows[|rows| - 1];
      RunRows(d, s, init, newline);
      RunNextRow(d, s, RowsText(d, init, newline), last, newline);
      RowsAfter(FieldsOf(s.records), rows);
    }
  }

  lemma {:induction false} RowsAfter(before: seq<seq<string>>, rows: seq<seq<string>>)
    requires rows != []
    ensures before + rows[..|rows| - 1] + [rows[|rows| - 1]] == before + rows
  {
    assert rows[..|rows| - 1] + [rows[|rows| - 1]] == rows;
  }

  lemma {:induction false} RunNextRow(d: Dialect, s: Scanner, before: string, values: seq<string>, newline: string)
    requires ValidDialect(d) && Writable(d, values) && values != []
    requires Run(d, s, before).Idle() && IsTerminator(newline)
    ensures var t := Run(d, s, before + RowText(d, values, newline));
            t.Idle() && FieldsOf(t.records) == FieldsOf(Run(d, s, before).records) + [values]
  {
    RunConcat(d, s, before, RowText(d, values, newline));
    RunRowFields(d, Run(d, s, before), values, newline);
  }

  lemma {:induction false} RunRowFields(d: Dialect, s: Scanner, values: seq<string>, newline: string)
    requires ValidDialect(d) && Writable(d, values) && values != []
    requires s.Idle() && IsTerminator(newline)
    ensures var t := Run(d, s, RowText(d, values, newline));
            t.Idle() && FieldsOf(t.records) == FieldsOf(s.records) + [values]
  {
    RunRow(d, s, values, newline);
    FieldsOfAppend(s.records, Record(s.pos, values));
  }

  /** Scanning written rows gives back exactly those rows. */
  lemma {:induction false} ScanUndoesWrite(d: Dialect, prefix: string, rows: seq<seq<string>>, newline: string)
    requires ValidDialect(d) && AllWritable(d, rows) && IsTerminator(newline)
    ensures FieldsOf(Scan(d, prefix + RowsText(d, rows, newline), |prefix|)) == rows
  {
    var text := prefix + RowsText(d, rows, newline);
    assert text[|prefix|..|text|] == RowsText(d, rows, newline);
    RunRows(d, Fresh(|prefix|), rows, newline);
  }

  // ----- The terminator of a file -----

  /** The first CR or LF outside quotes is at `p`. */
  ghost predicate FirstBreak(d: Dialect, text: string, from: nat, p: nat) {
    && from <= p < |text|
    && IsBreak(text[p]) && At(d, text, from, p).mode != Quoted
    && PassesBreaks(d, text, from, p)
  }

  function TerminatorAt(text: string, p: nat): string
    requires p < |text|
  {
    if text[p] == '\r' then (if p + 1 < |text| && text[p + 1] == '\n' then "\r\n" else "\r") else "\n"
  }

  function BodyStart(text: string): (from: nat)
    ensures from <= |text|
  {
    if BOM <= text then 3 else 0
  }

  predicate PassesBreaks(d: Dialect, text: string, from: nat, p: nat)
    requires from <= p <= |text|
  {
    forall k :: from <= k < p ==> !(IsBreak(text[k]) && At(d, text, from, k).mode != Quoted)
  }

  /** The terminator of the first record, skipping quoted line breaks; LF when there is none. */
  method RecordNewline(text: string, d: Dialect) returns (newline: string)
    requires ValidDialect(d)
    ensures IsTerminator(newline)
    ensures forall p :: FirstBreak(d, text, BodyStart(text), p) ==> newline == TerminatorAt(text, p)
    ensures (forall p :: !FirstBreak(d, text, BodyStart(text), p)) ==> newline == "\n"
  {
    var from := BodyStart(text);
    var pos := from;
    var quoted, fieldStart := false, true;
    ghost var s := Fresh(from);
    while pos < |text|
      invariant from <= pos <= |text|
      invariant PassesBreaks(d, text, from, pos) && s == At(d, text, from, pos)
      invariant Follows(d, text, pos, s, quoted, fieldStart)
    {
      var c := text[pos];
      PassOne(d, text, from, pos, s);
      FollowsStep(d, text, pos, s, quoted, fieldStart);
      s := Step(d, s, c);
      if d.quoting && c == d.quote {
        if quoted && pos + 1 < |text| && text[pos + 1] == c {
          FollowsPair(d, text, pos, At(d, text, from, pos), quoted, fieldStart);
          PassOne(d, text, from, pos + 1, s);
          s := Step(d, s, c);
          pos := pos + 2;
          continue;
        }
        if quoted || fieldStart { quoted := !quoted; }
      } else if !quoted {
        if IsBreak(c) {
          assert FirstBreak(d, text, from, pos);
          return TerminatorAt(text, pos);
        }
      }
      fieldStart := !quoted && c == d.delim;
      pos := pos + 1;
    }
    return "\n";
  }

  lemma {:induction false} PassOne(d: Dialect, text: string, from: nat, p: nat, s: Scanner)
    requires from <= p < |text| && PassesBreaks(d, text, from, p) && s == At(d, text, from, p)
    ensures At(d, text, from, p + 1) == Step(d, s, text[p])
    ensures IsBreak(text[p]) && s.mode != Quoted ==> FirstBreak(d, text, from, p)
    ensures !(IsBreak(text[p]) && s.mode != Quoted) ==> PassesBreaks(d, text, from, p + 1)
  {
    AtStep(d, text, from, p);
  }

  /** The two flags are the mode of the machine, which never stops between the quotes of a pair. */
  ghost predicate Follows(d: Dialect, text: string, pos: nat, s: Scanner, quoted: bool, fieldStart: bool) {
    && s.mode != AfterCr
    && (quoted <==> s.mode == Quoted)
    && (fieldStart <==> s.mode == Between || s.mode == FieldStart)
    && (s.mode == Closing && pos < |text| ==> !IsQuote(d, text[pos]))
  }

  lemma {:induction false} FollowsStep(d: Dialect, text: string, pos: nat, s: Scanner, quoted: bool, fieldStart: bool)
    requires ValidDialect(d) && pos < |text| && Follows(d, text, pos, s, quoted, fieldStart)
    ensures var c := text[pos];
            var toggled := if IsQuote(d, c) && (quoted || fieldStart) then !quoted else quoted;
            (quoted && IsQuote(d, c) && pos + 1 < |text| && text[pos + 1] == c)
            || (!quoted && IsBreak(c))
            || Follows(d, text, pos + 1, Step(d, s, c), toggled, !toggled && c == d.delim)
  {
  }

  lemma {:induction false} FollowsPair(d: Dialect, text: string, pos: nat, s: Scanner, quoted: bool, fieldStart: bool)
    requires ValidDialect(d) && pos + 1 < |text| && Follows(d, text, pos, s, quoted, fieldStart)
    requires quoted && IsQuote(d, text[pos]) && text[pos + 1] == text[pos]
    ensures !IsBreak(text[pos])
    ensures Follows(d, text, pos + 2, Step(d, Step(d, s, text[pos]), text[pos]), quoted, fieldStart)
  {
  }

  /** The first break outside quotes in the fields, the terminator and the rest of a file is that terminator. */
  ghost predicate EndsRow(d: Dialect, prefix: string, fields: string, newline: string, rest: string) {
    var text, p := prefix + (fields + newline) + rest, |prefix| + |fields|;
    FirstBreak(d, text, |prefix|, p) && TerminatorAt(text, p) == newline
  }

  /** In a file that begins with a written row the first break outside quotes ends that row, so
      `RecordNewline` recovers the terminator the row was written with. */
  lemma {:induction false} WrittenTerminator(d: Dialect, prefix: string, values: seq<string>, newline: string,
                                             rest: string)
    requires ValidDialect(d) && Writable(d, values) && values != [] && IsTerminator(newline)
    requires rest == "" || rest[0] != '\n'
    ensures EndsRow(d, prefix, FieldsText(d, values, |values|), newline, rest)
  {
    RowFieldsState(d, |prefix|, values);
    FieldsTerminator(d, prefix, FieldsText(d, values, |values|), newline, rest);
  }

  lemma {:induction false} FieldsTerminator(d: Dialect, prefix: string, fields: string, newline: string, rest: string)
    requires ValidDialect(d) && IsTerminator(newline) && (rest == "" || rest[0] != '\n')
    requires var s := Run(d, Fresh(|prefix|), fields); s.mode != Quoted && s.records == []
    ensures EndsRow(d, prefix, fields, newline, rest)
  {
    TerminatorIs(prefix, fields, newline, rest);
    BreakAfter(d, prefix + (fields + newline) + rest, |prefix|, |prefix| + |fields|, fields);
  }

  lemma {:induction false} BreakAfter(d: Dialect, text: string, from: nat, p: nat, fields: string)
    requires ValidDialect(d) && from <= p < |text| && text[from..p] == fields && IsBreak(text[p])
    requires var s := Run(d, Fresh(from), fields); s.mode != Quoted && s.records == []
    ensures FirstBreak(d, text, from, p)
  {
    NoBreakBefore(d, text, from, p);
  }

  lemma {:induction false} TerminatorIs(prefix: string, fields: string, newline: string, rest: string)
    requires IsTerminator(newline) && (rest == "" || rest[0] != '\n')
    ensures var text, p := prefix + (fields + newline) + rest, |prefix| + |fields|;
            && p < |text| && text[|prefix|..p] == fields && IsBreak(text[p]) && TerminatorAt(text, p) == newline
  {
    var text, p := prefix + (fields + newline) + rest, |prefix| + |fields|;
    assert text[p..] == newline + rest;
    if |newline| == 2 {
      assert text[p] == text[p..][0] && text[p + 1] == text[p..][1];
    } else {
      assert text[p] == text[p..][0] && (rest != "" ==> text[p + 1] == text[p..][1]);
    }
  }

  lemma {:induction false} RowFieldsState(d: Dialect, from: nat, values: seq<string>)
    requires ValidDialect(d) && Writable(d, values) && values != []
    ensures var s := Run(d, Fresh(from), FieldsText(d, values, |values|));
            s.mode != Quoted && s.records == []
  {
    RowTextOpens(d, values, |values|);
    RunOpened(d, Fresh(from), FieldsText(d, values, |values|));
    RunFields(d, Fresh(from).Opened(), values, |values|);
  }

  /** While the machine has completed no record, it has passed no break outside quotes. */
  lemma {:induction false} NoBreakBefore(d: Dialect, text: string, from: nat, p: nat)
    requires ValidDialect(d) && from <= p <= |text|
    requires At(d, text, from, p).records == []
    ensures PassesBreaks(d, text, from, p)
  {
    forall k | from <= k < p && IsBreak(text[k])
      ensures At(d, text, from, k).mode == Quoted
    {
      RecordsGrow(d, text, from, k, p);
      RecordsGrow(d, text, from, k + 1, p);
      AtStep(d, text, from, k);
      NeverAfterCr(d, text, from, k);
      StepBreak(d, At(d, text, from, k), text[k]);
    }
  }

  lemma {:induction false} NeverAfterCr(d: Dialect, text: string, from: nat, p: nat)
    requires from <= p <= |text| && At(d, text, from, p).records == []
    ensures At(d, text, from, p).mode != AfterCr
  {
    if from < p {
      RecordsGrow(d, text, from, p - 1, p);
      NeverAfterCr(d, text, from, p - 1);
      StepToCr(d, At(d, text, from, p - 1), text[p - 1]);
      AtStep(d, text, from, p - 1);
    }
  }

  lemma {:induction false} StepToCr(d: Dialect, s: Scanner, c: char)
    requires s.mode != AfterCr
    ensures Step(d, s, c).mode == AfterCr ==> Step(d, s, c).records != []
  {
  }

  lemma {:induction false} StepBreak(d: Dialect, s: Scanner, c: char)
    requires ValidDialect(d) && IsBreak(c) && s.mode != AfterCr
    ensures s.mode == Quoted || Step(d, s, c).records != []
  {
  }
}

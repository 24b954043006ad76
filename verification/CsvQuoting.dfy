/** When quotes are needed: a row of bare values is read back precisely when no value of it must be quoted. */
module CsvQuoting {
  import opened CsvGrammar
  import opened CsvWriter

  /** The first `n` values of a row as they are, with delimiters between them. */
  function BareText(d: Dialect, values: seq<string>, n: nat): string
    requires n <= |values|
  {
    if n == 0 then ""
    else BareText(d, values, n - 1) + (if n == 1 then "" else [d.delim]) + values[n - 1]
  }

  /** The row as it is and a terminator are read as that row, with nothing left open. */
  predicate ReadsBack(d: Dialect, values: seq<string>, newline: string) {
    var t := Run(d, Fresh(0), BareText(d, values, |values|) + newline);
    t.Idle() && t.records == [Record(0, values)]
  }

  predicate StandsBare(d: Dialect, value: string) {
    && (forall i :: 0 <= i < |value| ==> value[i] != d.delim && !IsBreak(value[i]))
    && (value != "" ==> !IsQuote(d, value[0]))
  }

  predicate AllBare(d: Dialect, values: seq<string>) {
    forall i :: 0 <= i < |values| ==> StandsBare(d, values[i])
  }

  // ----- How much of a text the machine has kept -----

  function Total(values: seq<string>): nat {
    if values == [] then 0 else Total(values[..|values| - 1]) + |values[|values| - 1]|
  }

  function RecordsMass(records: seq<Record>): int {
    if records == [] then 0
    else
      var last := records[|records| - 1].fields;
      RecordsMass(records[..|records| - 1]) + |last| - 1 + Total(last)
  }

  /** The characters of all fields and the delimiters between them. */
  function Mass(s: Scanner): int {
    RecordsMass(s.records) + if s.Idle() then 0 else |s.fields| + Total(s.fields) + |s.field|
  }

  lemma {:induction false} TotalMore(values: seq<string>, value: string)
    ensures Total(values + [value]) == Total(values) + |value|
  {
    assert (values + [value])[..|values|] == values;
  }

  lemma {:induction false} MassCompleted(s: Scanner)
    requires !s.Idle()
    ensures RecordsMass(s.Completed()) == Mass(s)
  {
    var record := Record(s.start, s.fields + [s.field]);
    assert (s.records + [record])[..|s.records|] == s.records;
    TotalMore(s.fields, s.field);
  }

  lemma {:induction false} MassOpened(s: Scanner)
    ensures Mass(s.Opened()) == Mass(s)
  {
  }

  lemma {:induction false} MassNextField(s: Scanner, t: Scanner)
    requires !s.Idle() && !t.Idle() && t.records == s.records && t.fields == s.fields + [s.field] && t.field == ""
    ensures Mass(t) == Mass(s) + 1
  {
    TotalMore(s.fields, s.field);
  }

  lemma {:induction false} MassClosed(s: Scanner, t: Scanner)
    requires !s.Idle() && t.Idle() && t.records == s.Completed()
    ensures Mass(t) == Mass(s)
  {
    MassCompleted(s);
  }

  /** A character outside quotes is kept, unless it is a break. */
  lemma {:induction false} MassUnquoted(d: Dialect, s: Scanner, c: char)
    requires !s.Idle() && ValidDialect(d)
    ensures Mass(StepUnquoted(d, s, c)) == Mass(s) + if IsBreak(c) then 0 else 1
  {
    if c == d.delim {
      MassNextField(s, StepUnquoted(d, s, c));
    } else if IsBreak(c) {
      MassClosed(s, StepUnquoted(d, s, c));
    }
  }

  /** A step keeps the character at most. It keeps none that opens a quoted field or is a break outside quotes. */
  lemma {:induction false} MassStep(d: Dialect, s: Scanner, c: char)
    requires ValidDialect(d)
    ensures Mass(Step(d, s, c)) <= Mass(s) + 1
    ensures IsBreak(c) && Step(d, s, c).Idle() ==> Mass(Step(d, s, c)) == Mass(s)
    ensures s.Opened().mode == FieldStart && IsQuote(d, c) ==> Mass(Step(d, s, c)) == Mass(s)
  {
    MassOpened(s);
    MassUnquoted(d, s.Opened(), c);
  }

  lemma {:induction false} MassRun(d: Dialect, s: Scanner, text: string)
    requires ValidDialect(d)
    ensures Mass(Run(d, s, text)) <= Mass(s) + |text|
  {
    if text != [] {
      var init := text[..|text| - 1];
      MassRun(d, s, init);
      MassStep(d, Run(d, s, init), text[|text| - 1]);
    }
  }

  /** The machine is in a row of bare values. */
  predicate InBareRow(d: Dialect, s: Scanner) {
    && s.records == [] && s.mode in {Between, FieldStart, Bare}
    && var o := s.Opened();
       AllBare(d, o.fields) && StandsBare(d, o.field) && (o.mode == FieldStart <==> o.field == "")
  }

  lemma {:induction false} BareMore(d: Dialect, values: seq<string>, value: string)
    requires AllBare(d, values) && StandsBare(d, value)
    ensures AllBare(d, values + [value])
  {
  }

  lemma {:induction false} BareLonger(d: Dialect, value: string, c: char)
    requires StandsBare(d, value) && c != d.delim && !IsBreak(c) && (value == "" ==> !IsQuote(d, c))
    ensures StandsBare(d, value + [c])
  {
  }

  lemma {:induction false} BareStep(d: Dialect, s: Scanner, c: char)
    requires ValidDialect(d) && InBareRow(d, s) && Mass(Step(d, s, c)) == Mass(s) + 1
    ensures InBareRow(d, Step(d, s, c))
  {
    MassStep(d, s, c);
    var o := s.Opened();
    if c == d.delim {
      BareMore(d, o.fields, o.field);
    } else {
      assert !IsBreak(c);
      BareLonger(d, o.field, c);
    }
  }

  /** When every character of a text is kept, it is a row of bare values. */
  lemma {:induction false} KeptIsBare(d: Dialect, text: string)
    requires ValidDialect(d) && Mass(Run(d, Fresh(0), text)) == |text|
    ensures InBareRow(d, Run(d, Fresh(0), text))
  {
    if text != [] {
      var init, c := text[..|text| - 1], text[|text| - 1];
      MassRun(d, Fresh(0), init);
      MassStep(d, Run(d, Fresh(0), init), c);
      KeptIsBare(d, init);
      BareStep(d, Run(d, Fresh(0), init), c);
    }
  }

  lemma {:induction false} BreakNotKept(d: Dialect, t: Scanner, c: char)
    requires ValidDialect(d) && IsBreak(c) && Step(d, t, c).Idle()
    ensures Mass(Step(d, t, c)) == Mass(t)
    ensures t.mode in {Between, FieldStart, Bare} ==> Step(d, t, c).records == t.Opened().Completed()
    ensures t.mode in {Between, FieldStart, Bare} && c == '\r' ==> Step(d, t, c).mode == AfterCr
  {
    MassStep(d, t, c);
  }

  lemma {:induction false} IdleBeforeLf(d: Dialect, t: Scanner)
    requires ValidDialect(d) && Step(d, Step(d, t, '\r'), '\n').Idle()
    ensures Step(d, t, '\r').mode == AfterCr
    ensures Step(d, Step(d, t, '\r'), '\n').records == Step(d, t, '\r').records
  {
  }

  /** A terminator after which the machine is idle is not kept. */
  lemma {:induction false} TerminatorNotKept(d: Dialect, t: Scanner, newline: string)
    requires ValidDialect(d) && IsTerminator(newline) && Run(d, t, newline).Idle()
    ensures Mass(Run(d, t, newline)) == Mass(t)
    ensures t.mode in {Between, FieldStart, Bare} ==> Run(d, t, newline).records == t.Opened().Completed()
  {
    RunFirst(d, t, newline);
    var v := Step(d, t, newline[0]);
    if newline == "\r\n" {
      assert newline[1..] == ['\n'];
      RunOne(d, v, '\n');
      IdleBeforeLf(d, t);
      BreakNotKept(d, v, '\n');
    } else {
      assert newline[1..] == [];
    }
    BreakNotKept(d, t, newline[0]);
  }

  lemma {:induction false} BareTextLength(d: Dialect, values: seq<string>, n: nat)
    requires n <= |values|
    ensures |BareText(d, values, n)| == Total(values[..n]) + if n == 0 then 0 else n - 1
  {
    if n > 0 {
      BareTextLength(d, values, n - 1);
      assert values[..n] == values[..n - 1] + [values[n - 1]];
      TotalMore(values[..n - 1], values[n - 1]);
    }
  }

  lemma {:induction false} OneRecord(values: seq<string>)
    ensures RecordsMass([Record(0, values)]) == |values| - 1 + Total(values)
  {
    assert [Record(0, values)][..0] == [];
  }

  /** Only bare values are read back. */
  lemma {:induction false} ReadBackIsBare(d: Dialect, values: seq<string>, newline: string)
    requires ValidDialect(d) && IsTerminator(newline) && values != [] && ReadsBack(d, values, newline)
    ensures AllBare(d, values)
  {
    var text := BareText(d, values, |values|);
    RunConcat(d, Fresh(0), text, newline);
    var t := Run(d, Fresh(0), text);
    TerminatorNotKept(d, t, newline);
    OneRecord(values);
    assert values[..|values|] == values;
    BareTextLength(d, values, |values|);
    KeptIsBare(d, text);
    BareMore(d, t.Opened().fields, t.Opened().field);
    assert t.Opened().Completed()[0].fields == t.Opened().fields + [t.Opened().field];
  }

  // ----- Bare values are read back -----

  lemma {:induction false} StandingStep(d: Dialect, s: Scanner, c: char)
    requires s.mode == Bare || (s.mode == FieldStart && !IsQuote(d, c))
    requires c != d.delim && !IsBreak(c)
    ensures Step(d, s, c) == s.(mode := Bare, pos := s.pos + 1, field := s.field + [c])
  {
  }

  lemma {:induction false} StandsWithoutLast(d: Dialect, value: string)
    requires StandsBare(d, value) && value != ""
    ensures StandsBare(d, value[..|value| - 1])
    ensures var c := value[|value| - 1]; c != d.delim && !IsBreak(c) && (|value| == 1 ==> !IsQuote(d, c))
    ensures value[..|value| - 1] + [value[|value| - 1]] == value
  {
    var init := value[..|value| - 1];
    assert forall i :: 0 <= i < |init| ==> init[i] == value[i];
  }

  lemma {:induction false} RunStanding(d: Dialect, s: Scanner, value: string)
    requires s.mode == FieldStart && s.field == "" && StandsBare(d, value)
    ensures Run(d, s, value)
         == s.(pos := s.pos + |value|, field := value, mode := if value == "" then FieldStart else Bare)
  {
    if value != "" {
      var init := value[..|value| - 1];
      StandsWithoutLast(d, value);
      RunStanding(d, s, init);
      StandingStep(d, Run(d, s, init), value[|value| - 1]);
    }
  }

  lemma {:induction false} RunStandingRow(d: Dialect, s: Scanner, values: seq<string>, n: nat)
    requires ValidDialect(d) && AllBare(d, values) && 0 < n <= |values|
    requires s.mode == FieldStart && s.field == "" && s.fields == []
    ensures var t := Run(d, s, BareText(d, values, n)); Holds(s, t, values, n) && t.mode in {FieldStart, Bare}
  {
    if n == 1 {
      assert BareText(d, values, 1) == values[0];
      RunStanding(d, s, values[0]);
    } else {
      var before := BareText(d, values, n - 1);
      RunStandingRow(d, s, values, n - 1);
      RunDelim(d, s, before);
      RunConcat(d, s, before + [d.delim], values[n - 1]);
      RunStanding(d, Run(d, s, before + [d.delim]), values[n - 1]);
      HoldsNext(s, Run(d, s, before), Run(d, s, BareText(d, values, n)), values, n);
    }
  }

  lemma {:induction false} BareTextOpens(d: Dialect, values: seq<string>, n: nat)
    requires ValidDialect(d) && AllBare(d, values) && n <= |values|
    ensures BareText(d, values, n) != "" ==> !IsBreak(BareText(d, values, n)[0])
    ensures n > 1 ==> BareText(d, values, n) != ""
  {
    if n > 0 {
      BareTextOpens(d, values, n - 1);
      assert StandsBare(d, values[n - 1]);
    }
  }

  lemma {:induction false} BareIsReadBack(d: Dialect, values: seq<string>, newline: string)
    requires ValidDialect(d) && IsTerminator(newline) && values != [] && AllBare(d, values)
    ensures ReadsBack(d, values, newline)
  {
    var text, s := BareText(d, values, |values|), Fresh(0);
    BareTextOpens(d, values, |values|);
    RunStandingRow(d, s.Opened(), values, |values|);
    HoldsAll(s.Opened(), Run(d, s.Opened(), text), values);
    if text == "" {
      EmptyRow(d, newline);
      assert values == [values[0]];
      assert BareText(d, values, 1) == values[0];
    } else {
      RunOpened(d, s, text);
      RunEnd(d, s, text, newline);
    }
  }

  /** A blank line is a record with one empty field. */
  lemma {:induction false} EmptyRow(d: Dialect, newline: string)
    requires ValidDialect(d) && IsTerminator(newline)
    ensures Run(d, Fresh(0), "" + newline).Idle()
    ensures Run(d, Fresh(0), "" + newline).records == [Record(0, [""])]
  {
    assert "" + newline == newline;
    RunFirst(d, Fresh(0), newline);
    RunFirst(d, Fresh(0).Opened(), newline);
    assert [] + [""] == [""];
    var v := Step(d, Fresh(0), newline[0]);
    if newline == "\r\n" {
      assert newline[1..] == ['\n'];
      RunOne(d, v, '\n');
    } else {
      assert newline[1..] == [];
    }
  }

  // ----- What the writer quotes -----

  /** In a row of several values one needs quoting precisely when it would not be read back without, or when it has the
      quoting character somewhere, which section 2 of RFC 4180 asks to be quoted wherever it stands. Alone in its row
      the empty value does as well, although a blank line is read as such a row. */
  lemma {:induction false} NeedsQuoteIs(d: Dialect, value: string, newline: string)
    requires ValidDialect(d) && IsTerminator(newline)
    ensures NeedsQuote(d, value, false) <==>
            !ReadsBack(d, ["", value, ""], newline) || (d.quoting && d.quote in value)
    ensures NeedsQuote(d, value, true) <==>
            !ReadsBack(d, [value], newline) || (d.quoting && d.quote in value) || value == ""
  {
    NeedsOrStands(d, value);
    var row := ["", value, ""];
    assert StandsBare(d, "");
    assert row[1] == value && [value][0] == value;
    if StandsBare(d, value) {
      BareIsReadBack(d, row, newline);
      BareIsReadBack(d, [value], newline);
    }
    if ReadsBack(d, row, newline) { ReadBackIsBare(d, row, newline); }
    if ReadsBack(d, [value], newline) { ReadBackIsBare(d, [value], newline); }
  }

  lemma {:induction false} NeedsOrStands(d: Dialect, value: string)
    requires ValidDialect(d)
    ensures NeedsQuote(d, value, false) <==> !StandsBare(d, value) || (d.quoting && d.quote in value)
  {
    if !NeedsQuote(d, value, false) {
      forall i | 0 <= i < |value| ensures value[i] != d.delim && !IsBreak(value[i]) && !IsQuote(d, value[i]) {
        assert value[i] in value;
      }
    }
  }

  /** Without a quoting character a row is refused precisely when it would not be read back, and when all it has is one
      empty value. */
  lemma {:induction false} WritableIs(d: Dialect, values: seq<string>, newline: string)
    requires ValidDialect(d) && IsTerminator(newline) && values != [] && !d.quoting
    ensures Writable(d, values) <==> ReadsBack(d, values, newline) && values != [""]
  {
    forall i | 0 <= i < |values|
      ensures NeedsQuote(d, values[i], |values| == 1) <==> !StandsBare(d, values[i]) || values == [""]
    {
      NeedsOrStands(d, values[i]);
      assert |values| == 1 && values[i] == "" <==> values == [""];
    }
    if AllBare(d, values) { BareIsReadBack(d, values, newline); }
    if ReadsBack(d, values, newline) { ReadBackIsBare(d, values, newline); }
  }
}

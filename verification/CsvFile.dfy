/** What a file shows when it is loaded, what a table looks like as a file, and how far the two undo each other. */
module CsvFile {
  import opened Characters
  import opened CsvGrammar
  import opened CsvWriter
  import opened Outcomes
  import opened PlainTable
  import opened SyntheticLabels

  /** The fields of every record; a byte order mark at the beginning of the file is not part of them. */
  function AllFields(d: Dialect, text: string): seq<seq<string>> {
    FieldsOf(Scan(d, text, BodyStart(text)))
  }

  function Wider(a: nat, b: nat): nat {
    if a < b then b else a
  }

  function MaxWidth(rows: seq<seq<string>>): (width: nat)
    ensures forall i :: 0 <= i < |rows| ==> |rows[i]| <= width
    ensures width == 0 || exists i :: 0 <= i < |rows| && |rows[i]| == width
  {
    if rows == [] then 0 else Wider(MaxWidth(rows[..|rows| - 1]), |rows[|rows| - 1]|)
  }

  lemma {:induction false} MaxWidthFirst(rows: seq<seq<string>>)
    requires rows != []
    ensures MaxWidth(rows) == Wider(|rows[0]|, MaxWidth(rows[1..]))
  {
    if |rows| == 1 {
      assert rows[1..] == [] && rows[..0] == [];
      assert MaxWidth(rows) == |rows[0]|;
    } else {
      MaxWidthFirst(rows[..|rows| - 1]);
      assert rows[1..][..|rows| - 2] == rows[..|rows| - 1][1..];
    }
  }

  function Padded(row: seq<string>, width: nat): seq<string> {
    seq(width, i requires 0 <= i < width => if i < |row| then row[i] else "")
  }

  function PaddedRows(rows: seq<seq<string>>, width: nat): seq<seq<string>> {
    seq(|rows|, i requires 0 <= i < |rows| => Padded(rows[i], width))
  }

  /** Whether some record is wider than the first one, which is why headers are then turned off. */
  predicate Ragged(rows: seq<seq<string>>) {
    rows != [] && MaxWidth(rows) > |rows[0]|
  }

  predicate IsEmptyFile(text: string) {
    text == "" || text == BOM
  }

  /** The table a file shows when read with or without a header row. A file without records shows the `known`
      columns when no header is wanted, and cannot be shown otherwise. */
  function LoadedTable(text: string, d: Dialect, header: bool, known: nat): Option<Table> {
    var rows := AllFields(d, text);
    if IsEmptyFile(text) then
      if header || known == 0 then None else Some(Table(false, Labels(known), []))
    else if rows == [] then None
    else if header && !Ragged(rows) then Some(Table(true, rows[0], PaddedRows(rows[1..], |rows[0]|)))
    else Some(Table(false, Labels(MaxWidth(rows)), PaddedRows(rows, MaxWidth(rows))))
  }

  /** Any character of a file belongs to a record. */
  lemma {:induction false} EmptyScan(d: Dialect, text: string)
    ensures AllFields(d, text) == [] <==> IsEmptyFile(text)
  {
    var from := BodyStart(text);
    if from < |text| {
      AtStep(d, text, from, from);
      StepCompleted(d, At(d, text, from, from), text[from]);
      AtRun(d, text, from, from + 1, |text|);
      CompletedGrows(d, At(d, text, from, from + 1), text[from + 1..|text|]);
    }
  }

  lemma {:induction false} RowsNotEmpty(d: Dialect, text: string)
    ensures forall i :: 0 <= i < |AllFields(d, text)| ==> AllFields(d, text)[i] != []
  {
    RecordsNotEmpty(d, Fresh(BodyStart(text)), text[BodyStart(text)..|text|]);
  }

  lemma {:induction false} CompletedGrows(d: Dialect, s: Scanner, text: string)
    requires s.Completed() != []
    ensures Run(d, s, text).Completed() != []
  {
    if text != [] {
      CompletedGrows(d, s, text[..|text| - 1]);
      StepCompleted(d, Run(d, s, text[..|text| - 1]), text[|text| - 1]);
    }
  }

  /** With a record wider than the first, asking for headers makes no difference. */
  lemma {:induction false} RaggedLoads(text: string, d: Dialect, known: nat, other: nat)
    requires Ragged(AllFields(d, text))
    ensures LoadedTable(text, d, true, known) == LoadedTable(text, d, false, other)
  {
    EmptyScan(d, text);
  }

  /** The record a row of a loaded table shows. */
  function RecordOf(header: bool, i: nat): nat {
    if header then i + 1 else i
  }

  /** A loaded table cell by cell: each row shows a record, the fields in their columns and nothing after them; headers
      are the fields of the first record, taken when asked for unless some record is wider. */
  lemma {:induction false} LoadedCells(text: string, d: Dialect, header: bool, known: nat)
    requires !IsEmptyFile(text)
    ensures var records, loaded := AllFields(d, text), LoadedTable(text, d, header, known);
            && loaded.Some? && records != []
            && var t := loaded.value;
               && (t.hasHeaders <==> header && forall i :: 0 <= i < |records| ==> |records[i]| <= |records[0]|)
               && (t.hasHeaders ==> t.names == records[0] && |t.rows| == |records| - 1)
               && (!t.hasHeaders ==> t.names == Labels(|t.names|) && |t.rows| == |records|)
               && (forall i :: 0 <= i < |records| ==> |records[i]| <= |t.names|)
               && (exists i :: 0 <= i < |records| && |records[i]| == |t.names|)
               && forall i, j :: 0 <= i < |t.rows| && 0 <= j < |t.names| ==>
                    var record := records[RecordOf(t.hasHeaders, i)];
                    |t.rows[i]| == |t.names| && t.rows[i][j] == if j < |record| then record[j] else ""
  {
    EmptyScan(d, text);
    var records := AllFields(d, text);
    var t := LoadedTable(text, d, header, known).value;
    RowsNotEmpty(d, text);
    assert records[0] != [];
    assert t.hasHeaders ==> |records[0]| == |t.names|;
  }

  // ----- Saving -----

  /** The rows a table is written as. */
  function WrittenRows(t: Table): seq<seq<string>> {
    (if t.hasHeaders then [t.names] else []) + t.rows
  }

  function SavedText(d: Dialect, bom: bool, newline: string, t: Table): string {
    (if bom then BOM else "") + RowsText(d, WrittenRows(t), newline)
  }

  /** The table can be written, and it is one the view can show. */
  ghost predicate Savable(d: Dialect, t: Table) {
    && t.Rectangular() && t.names != []
    && (!t.hasHeaders ==> t.names == Labels(|t.names|))
    && AllWritable(d, WrittenRows(t))
  }

  /** A file saved without a byte order mark would seem to begin with one: its first value begins with those
      bytes and is written without quotes. */
  predicate SeemsMarked(d: Dialect, bom: bool, t: Table) {
    !bom && WrittenRows(t) != [] && WrittenRows(t)[0] != [] &&
    var values := WrittenRows(t)[0];
    BOM <= values[0] && !NeedsQuote(d, values[0], |values| == 1)
  }

  lemma {:induction false} RowsTextFirst(d: Dialect, rows: seq<seq<string>>, newline: string)
    requires rows != []
    ensures RowsText(d, rows, newline) == RowText(d, rows[0], newline) + RowsText(d, rows[1..], newline)
  {
    var init, last, tail := rows[..|rows| - 1], rows[|rows| - 1], rows[1..];
    var first := RowText(d, rows[0], newline);
    if |rows| == 1 {
      assert RowsText(d, init, newline) == "" && RowsText(d, tail, newline) == "";
    } else {
      RowsTextFirst(d, init, newline);
      assert tail[..|tail| - 1] == init[1..] && tail[|tail| - 1] == last;
      Associate(first, RowsText(d, init[1..], newline), RowText(d, last, newline));
    }
  }

  lemma {:induction false} Associate(a: string, b: string, c: string)
    ensures (a + b) + c == a + (b + c)
  {
  }

  lemma {:induction false} FieldsTextFirst(d: Dialect, values: seq<string>, n: nat)
    requires 0 < n <= |values|
    ensures FieldText(d, values[0], |values| == 1) <= FieldsText(d, values, n)
  {
    if n == 1 {
      assert FieldsText(d, values, 1) == FieldText(d, values[0], |values| == 1);
    } else {
      FieldsTextFirst(d, values, n - 1);
    }
  }

  /** The written rows begin with the bytes of a mark exactly when the first value does, unquoted. */
  lemma {:induction false} MarkAtStart(d: Dialect, rows: seq<seq<string>>, newline: string)
    requires ValidDialect(d) && AllWritable(d, rows) && IsTerminator(newline)
    ensures BOM <= RowsText(d, rows, newline) <==>
      rows != [] && BOM <= rows[0][0] && !NeedsQuote(d, rows[0][0], |rows[0]| == 1)
  {
    if rows != [] {
      var values := rows[0];
      RowsTextFirst(d, rows, newline);
      var tail := AfterFirst(d, values, newline, RowsText(d, rows[1..], newline));
      var first := FieldText(d, values[0], |values| == 1);
      MarkInFirst(first, tail);
      if NeedsQuote(d, values[0], |values| == 1) {
        assert first[0] == d.quote && d.quote != BOM[0];
      }
    }
  }

  lemma {:induction false} AfterFirst(d: Dialect, values: seq<string>, newline: string, more: string)
      returns (tail: string)
    requires ValidDialect(d) && values != [] && IsTerminator(newline)
    ensures RowText(d, values, newline) + more == FieldText(d, values[0], |values| == 1) + tail
    ensures tail != "" && tail[0] !in BOM
  {
    FieldsTextNext(d, values, |values|);
    FieldsTextFirst(d, values, |values|);
    var first, fields := FieldText(d, values[0], |values| == 1), FieldsText(d, values, |values|);
    tail := Tail(first, fields, newline, more, if |values| == 1 then newline[0] else d.delim);
  }

  lemma {:induction false} Tail(first: string, fields: string, newline: string, more: string, next: char)
      returns (tail: string)
    requires first <= fields && newline != ""
    requires if fields == first then newline[0] == next else fields[|first|] == next
    ensures fields + newline + more == first + tail && tail != "" && tail[0] == next
  {
    tail := fields[|first|..] + newline + more;
  }

  lemma {:induction false} MarkInFirst(first: string, tail: string)
    requires tail != "" && tail[0] !in BOM
    ensures BOM <= first + tail <==> BOM <= first
  {
    if |first| < 3 {
      assert (first + tail)[|first|] == tail[0] && BOM[|first|] in BOM;
    } else {
      assert (first + tail)[..3] == first[..3];
    }
  }

  lemma {:induction false} FieldsTextNext(d: Dialect, values: seq<string>, n: nat)
    requires 0 < n <= |values|
    ensures var first := FieldText(d, values[0], |values| == 1);
            if n == 1 then FieldsText(d, values, n) == first
            else |FieldsText(d, values, n)| > |first| && FieldsText(d, values, n)[|first|] == d.delim
  {
    if n == 1 {
      assert FieldsText(d, values, 1) == FieldText(d, values[0], |values| == 1);
    } else {
      FieldsTextNext(d, values, n - 1);
    }
  }

  /** What is read after skipping three bytes of an unquoted first value: the same rows without those bytes. */
  lemma {:induction false} SkippedMark(d: Dialect, rows: seq<seq<string>>, newline: string)
    requires ValidDialect(d) && AllWritable(d, rows) && IsTerminator(newline)
    requires rows != [] && BOM <= rows[0][0] && !NeedsQuote(d, rows[0][0], |rows[0]| == 1)
    ensures 3 <= |RowsText(d, rows, newline)|
    ensures FieldsOf(Scan(d, RowsText(d, rows, newline), 3)) == rows[0 := rows[0][0 := rows[0][0][3..]]]
  {
    var shorter := rows[0][0 := rows[0][0][3..]];
    SkippedText(d, rows, newline);
    SkippedScan(d, RowsText(d, rows, newline), rows[0], rows[1..], newline);
    FirstReplaced(rows, shorter);
  }

  lemma {:induction false} FirstReplaced(rows: seq<seq<string>>, row: seq<string>)
    requires rows != []
    ensures [row] + rows[1..] == rows[0 := row]
  {
  }

  lemma {:induction false} SkippedScan(d: Dialect, text: string, values: seq<string>, rest: seq<seq<string>>,
                                       newline: string)
    requires ValidDialect(d) && values != [] && Writable(d, values) && AllWritable(d, rest) && IsTerminator(newline)
    requires BOM <= values[0] && !NeedsQuote(d, values[0], |values| == 1)
    requires 3 <= |text| && text[3..] == (SkippedFields(d, values) + newline) + RowsText(d, rest, newline)
    ensures FieldsOf(Scan(d, text, 3)) == [values[0 := values[0][3..]]] + rest
  {
    var body := SkippedFields(d, values) + newline;
    SkippedFirst(d, values, newline);
    SkippedRest(d, body, values[0 := values[0][3..]], rest, newline);
    ScanAll(d, text, 3, body + RowsText(d, rest, newline));
  }

  lemma {:induction false} SkippedText(d: Dialect, rows: seq<seq<string>>, newline: string)
    requires ValidDialect(d) && rows != [] && rows[0] != []
    requires BOM <= rows[0][0] && !NeedsQuote(d, rows[0][0], |rows[0]| == 1)
    ensures 3 <= |RowsText(d, rows, newline)|
    ensures RowsText(d, rows, newline)[3..]
         == (SkippedFields(d, rows[0]) + newline) + RowsText(d, rows[1..], newline)
  {
    var values := rows[0];
    RowsTextFirst(d, rows, newline);
    FieldsTextFirst(d, values, |values|);
    assert FieldsText(d, values, |values|) == BOM + SkippedFields(d, values);
    DropPrefix(RowsText(d, rows, newline), BOM, SkippedFields(d, values), newline, RowsText(d, rows[1..], newline));
  }

  lemma {:induction false} DropPrefix(text: string, a: string, b: string, c: string, e: string)
    requires text == ((a + b) + c) + e
    ensures text[|a|..] == (b + c) + e
  {
  }

  lemma {:induction false} ScanAll(d: Dialect, text: string, from: nat, body: string)
    requires from <= |text| && text[from..] == body
    ensures Scan(d, text, from) == Run(d, Fresh(from), body).Completed()
  {
    assert text[from..|text|] == body;
  }

  lemma {:induction false} SkippedRest(d: Dialect, body: string, first: seq<string>, rows: seq<seq<string>>,
                                       newline: string)
    requires ValidDialect(d) && AllWritable(d, rows) && IsTerminator(newline)
    requires Run(d, Fresh(3), body).Idle() && FieldsOf(Run(d, Fresh(3), body).records) == [first]
    ensures FieldsOf(Run(d, Fresh(3), body + RowsText(d, rows, newline)).Completed()) == [first] + rows
  {
    RunConcat(d, Fresh(3), body, RowsText(d, rows, newline));
    RunRows(d, Run(d, Fresh(3), body), rows, newline);
  }

  /** The first row, without the mark. */
  lemma {:induction false} SkippedFirst(d: Dialect, values: seq<string>, newline: string)
    requires ValidDialect(d) && values != [] && Writable(d, values) && IsTerminator(newline)
    requires BOM <= values[0] && !NeedsQuote(d, values[0], |values| == 1)
    ensures var s := Run(d, Fresh(3), SkippedFields(d, values) + newline);
            s.Idle() && FieldsOf(s.records) == [values[0 := values[0][3..]]]
  {
    var rest := values[0][3..];
    if |values| == 1 && rest == "" {
      FieldsTextNext(d, values, 1);
      assert SkippedFields(d, values) + newline == newline;
      RunLoneBreak(d, Fresh(3), newline);
      assert values[0 := rest] == [""];
      assert FieldsOf(Fresh(3).records) == [];
    } else {
      SkippedShorter(d, values);
      RunRowFields(d, Fresh(3), values[0 := rest], newline);
    }
  }

  /** The rest of the row is a row itself. */
  lemma {:induction false} SkippedShorter(d: Dialect, values: seq<string>)
    requires ValidDialect(d) && values != [] && Writable(d, values)
    requires BOM <= values[0] && !NeedsQuote(d, values[0], |values| == 1)
    requires |values| > 1 || values[0][3..] != ""
    ensures var shorter := values[0 := values[0][3..]];
            Writable(d, shorter) && SkippedFields(d, values) == FieldsText(d, shorter, |shorter|)
  {
    var rest := values[0][3..];
    assert !NeedsQuote(d, rest, |values| == 1);
    assert values[0] == BOM + rest;
    FieldsTextUpdate(d, values, rest, |values|);
  }

  /** The text of the fields of a row, without the first three bytes. */
  function SkippedFields(d: Dialect, values: seq<string>): string {
    var text := FieldsText(d, values, |values|);
    if |text| < 3 then "" else text[3..]
  }

  lemma {:induction false} FieldsTextUpdate(d: Dialect, values: seq<string>, rest: string, n: nat)
    requires 0 < n <= |values| && values[0] == BOM + rest
    requires !NeedsQuote(d, values[0], |values| == 1) && !NeedsQuote(d, rest, |values| == 1)
    ensures FieldsText(d, values, n) == BOM + FieldsText(d, values[0 := rest], n)
  {
    if n == 1 {
      assert FieldsText(d, values, 1) == values[0];
      assert FieldsText(d, values[0 := rest], 1) == rest;
    } else {
      FieldsTextUpdate(d, values, rest, n - 1);
    }
  }

  lemma {:induction false} RunLoneBreak(d: Dialect, s: Scanner, newline: string)
    requires ValidDialect(d) && IsTerminator(newline) && s.mode == Between
    ensures Run(d, s, newline).Idle()
    ensures FieldsOf(Run(d, s, newline).records) == FieldsOf(s.records) + [[""]]
  {
    var o := s.Opened();
    RunTerminator(d, o, newline);
    RunOne(d, s, newline[0]);
    RunOne(d, o, newline[0]);
    if newline == "\r\n" {
      assert newline == ['\r'] + ['\n'];
      RunConcat(d, s, ['\r'], ['\n']);
      RunConcat(d, o, ['\r'], ['\n']);
    } else {
      assert newline == [newline[0]];
    }
    FieldsOfAppend(s.records, Record(s.pos, [""]));
    assert o.fields + [o.field] == [""];
  }

  lemma {:induction false} RowsTextNotEmpty(d: Dialect, rows: seq<seq<string>>, newline: string)
    requires IsTerminator(newline) && rows != []
    ensures RowsText(d, rows, newline) != "" && IsBreak(RowsText(d, rows, newline)[|RowsText(d, rows, newline)| - 1])
  {
  }

  /** Loading a saved file shows the table that was saved, exactly unless the file seems to begin with a mark. */
  lemma {:induction false} SaveLoads(d: Dialect, bom: bool, newline: string, t: Table)
    requires ValidDialect(d) && IsTerminator(newline) && Savable(d, t)
    ensures LoadedTable(SavedText(d, bom, newline, t), d, t.hasHeaders, |t.names|) == Some(t)
       <==> !SeemsMarked(d, bom, t)
  {
    if SeemsMarked(d, bom, t) {
      MarkedLoads(d, newline, t);
      assert SavedText(d, bom, newline, t) == RowsText(d, WrittenRows(t), newline);
    } else {
      UnmarkedLoads(d, bom, newline, t);
    }
  }

  /** A saved file can always be loaded again. */
  lemma {:induction false} SavedLoads(d: Dialect, bom: bool, newline: string, t: Table)
    requires ValidDialect(d) && IsTerminator(newline) && Savable(d, t)
    ensures LoadedTable(SavedText(d, bom, newline, t), d, t.hasHeaders, |t.names|).Some?
  {
    var text := SavedText(d, bom, newline, t);
    EmptyScan(d, text);
    if WrittenRows(t) != [] {
      RowsTextNotEmpty(d, WrittenRows(t), newline);
      assert IsBreak(text[|text| - 1]);
    }
  }

  /** The terminator of a saved file with at least one record is the one it was written with, even where the file seems
      to begin with a byte order mark. */
  lemma {:induction false} SavedTerminator(d: Dialect, bom: bool, newline: string, t: Table) returns (p: nat)
    requires ValidDialect(d) && IsTerminator(newline) && Savable(d, t) && WrittenRows(t) != []
    ensures var text := SavedText(d, bom, newline, t);
            FirstBreak(d, text, BodyStart(text), p) && TerminatorAt(text, p) == newline
  {
    var rows := WrittenRows(t);
    if SeemsMarked(d, bom, t) {
      p := MarkedTerminator(d, rows, newline);
      assert SavedText(d, bom, newline, t) == RowsText(d, rows, newline);
    } else {
      UnmarkedFields(d, bom, newline, t);
      p := RowsTerminator(d, if bom then BOM else "", rows, newline);
    }
  }

  /** Behind the bytes that seem to be a mark the fields go on as they would have begun. */
  lemma {:induction false} SkippedState(d: Dialect, values: seq<string>)
    requires ValidDialect(d) && values != [] && Writable(d, values)
    requires BOM <= values[0] && !NeedsQuote(d, values[0], |values| == 1)
    ensures var s := Run(d, Fresh(3), SkippedFields(d, values)); s.mode != Quoted && s.records == []
  {
    var rest := values[0][3..];
    if |values| == 1 && rest == "" {
      FieldsTextNext(d, values, 1);
      assert SkippedFields(d, values) == "";
    } else {
      SkippedShorter(d, values);
      RowFieldsState(d, 3, values[0 := rest]);
    }
  }

  lemma {:induction false} MarkedTerminator(d: Dialect, rows: seq<seq<string>>, newline: string) returns (p: nat)
    requires ValidDialect(d) && AllWritable(d, rows) && IsTerminator(newline)
    requires rows != [] && BOM <= rows[0][0] && !NeedsQuote(d, rows[0][0], |rows[0]| == 1)
    ensures var text := RowsText(d, rows, newline);
            FirstBreak(d, text, BodyStart(text), p) && TerminatorAt(text, p) == newline
  {
    SkippedText(d, rows, newline);
    MarkAtStart(d, rows, newline);
    SkippedState(d, rows[0]);
    RestOpens(d, rows[1..], newline);
    p := BehindMark(d, RowsText(d, rows, newline), SkippedFields(d, rows[0]), newline, RowsText(d, rows[1..], newline));
  }

  lemma {:induction false} BehindMark(d: Dialect, text: string, fields: string, newline: string, rest: string)
      returns (p: nat)
    requires ValidDialect(d) && IsTerminator(newline) && (rest == "" || rest[0] != '\n')
    requires BOM <= text && text[3..] == (fields + newline) + rest
    requires var s := Run(d, Fresh(3), fields); s.mode != Quoted && s.records == []
    ensures FirstBreak(d, text, BodyStart(text), p) && TerminatorAt(text, p) == newline
  {
    MarkAndRest(text, fields + newline, rest);
    FieldsTerminator(d, BOM, fields, newline, rest);
    p := 3 + |fields|;
  }

  lemma {:induction false} MarkAndRest(text: string, row: string, rest: string)
    requires BOM <= text && text[3..] == row + rest
    ensures text == BOM + row + rest
  {
    assert text == text[..3] + text[3..];
  }

  lemma {:induction false} RowsTerminator(d: Dialect, prefix: string, rows: seq<seq<string>>, newline: string)
      returns (p: nat)
    requires ValidDialect(d) && IsTerminator(newline) && AllWritable(d, rows) && rows != []
    ensures var text := prefix + RowsText(d, rows, newline);
            FirstBreak(d, text, |prefix|, p) && TerminatorAt(text, p) == newline
  {
    var rest := RowsText(d, rows[1..], newline);
    RowsTextFirst(d, rows, newline);
    Associate(prefix, RowText(d, rows[0], newline), rest);
    RestOpens(d, rows[1..], newline);
    WrittenTerminator(d, prefix, rows[0], newline, rest);
    p := |prefix| + |FieldsText(d, rows[0], |rows[0]|)|;
  }

  lemma {:induction false} RestOpens(d: Dialect, rows: seq<seq<string>>, newline: string)
    requires ValidDialect(d) && AllWritable(d, rows)
    ensures RowsText(d, rows, newline) != "" ==> RowsText(d, rows, newline)[0] != '\n'
  {
    if rows != [] {
      RowsTextFirst(d, rows, newline);
      RowTextOpens(d, rows[0], |rows[0]|);
    }
  }

  /** A file that seems to be marked has as many records as rows were written. */
  lemma {:induction false} MarkedFields(d: Dialect, newline: string, t: Table)
    requires ValidDialect(d) && IsTerminator(newline) && Savable(d, t) && SeemsMarked(d, false, t)
    ensures |AllFields(d, RowsText(d, WrittenRows(t), newline))| == |WrittenRows(t)|
  {
    MarkAtStart(d, WrittenRows(t), newline);
    SkippedMark(d, WrittenRows(t), newline);
  }

  lemma {:induction false} MarkedLoads(d: Dialect, newline: string, t: Table)
    requires ValidDialect(d) && IsTerminator(newline) && Savable(d, t) && SeemsMarked(d, false, t)
    ensures LoadedTable(RowsText(d, WrittenRows(t), newline), d, t.hasHeaders, |t.names|) != Some(t)
  {
    MarkAtStart(d, WrittenRows(t), newline);
    SkippedMark(d, WrittenRows(t), newline);
    LoadedCell(d, RowsText(d, WrittenRows(t), newline), t);
  }

  lemma {:induction false} UnmarkedLoads(d: Dialect, bom: bool, newline: string, t: Table)
    requires ValidDialect(d) && IsTerminator(newline) && Savable(d, t) && !SeemsMarked(d, bom, t)
    ensures LoadedTable(SavedText(d, bom, newline, t), d, t.hasHeaders, |t.names|) == Some(t)
  {
    var rows, text := WrittenRows(t), SavedText(d, bom, newline, t);
    UnmarkedFields(d, bom, newline, t);
    if rows != [] {
      LoadedRows(d, text, t);
    }
  }

  lemma {:induction false} UnmarkedFields(d: Dialect, bom: bool, newline: string, t: Table)
    requires ValidDialect(d) && IsTerminator(newline) && Savable(d, t) && !SeemsMarked(d, bom, t)
    ensures AllFields(d, SavedText(d, bom, newline, t)) == WrittenRows(t)
    ensures WrittenRows(t) == [] <==> IsEmptyFile(SavedText(d, bom, newline, t))
    ensures BodyStart(SavedText(d, bom, newline, t)) == if bom then 3 else 0
  {
    var rows := WrittenRows(t);
    var prefix, body := if bom then BOM else "", RowsText(d, rows, newline);
    MarkAtStart(d, rows, newline);
    ScanUndoesWrite(d, prefix, rows, newline);
    if rows != [] {
      RowsTextNotEmpty(d, rows, newline);
    }
    MarkAndBody(bom, body);
  }

  lemma {:induction false} MarkAndBody(bom: bool, body: string)
    requires bom || !(BOM <= body)
    requires body == "" || IsBreak(body[|body| - 1])
    ensures var text := (if bom then BOM else "") + body;
            BodyStart(text) == (if bom then 3 else 0) && (IsEmptyFile(text) <==> body == "")
  {
    var text := (if bom then BOM else "") + body;
    if body != "" {
      assert text[|text| - 1] == body[|body| - 1];
    }
    assert !bom ==> text == body;
  }

  /** A file that holds exactly the written rows shows the table. */
  lemma {:induction false} LoadedRows(d: Dialect, text: string, t: Table)
    requires Savable(d, t) && !IsEmptyFile(text)
    requires AllFields(d, text) == WrittenRows(t) && WrittenRows(t) != []
    ensures LoadedTable(text, d, t.hasHeaders, |t.names|) == Some(t)
  {
    var rows := WrittenRows(t);
    EqualWidths(rows, |t.names|);
    PaddedSame(t.rows, |t.names|);
    if t.hasHeaders { assert rows[1..] == t.rows; } else { assert rows == t.rows; }
  }

  lemma {:induction false} EqualWidths(rows: seq<seq<string>>, width: nat)
    requires rows != [] && forall i :: 0 <= i < |rows| ==> |rows[i]| == width
    ensures MaxWidth(rows) == width
  {
    if |rows| > 1 {
      EqualWidths(rows[..|rows| - 1], width);
    }
  }

  lemma {:induction false} PaddedSame(rows: seq<seq<string>>, width: nat)
    requires forall i :: 0 <= i < |rows| ==> |rows[i]| == width
    ensures PaddedRows(rows, width) == rows
  {
    forall i | 0 <= i < |rows| ensures Padded(rows[i], width) == rows[i] {
    }
  }

  /** A file whose first field is not the first written value does not show the table. */
  lemma {:induction false} LoadedCell(d: Dialect, text: string, t: Table)
    requires t.Rectangular() && t.names != [] && WrittenRows(t) != []
    requires AllFields(d, text) != [] && AllFields(d, text)[0] != []
    requires AllFields(d, text)[0][0] != WrittenRows(t)[0][0]
    ensures LoadedTable(text, d, t.hasHeaders, |t.names|) != Some(t)
  {
    var rows := AllFields(d, text);
    if !IsEmptyFile(text) && !t.hasHeaders {
      assert PaddedRows(rows, MaxWidth(rows))[0][0] == rows[0][0];
    }
  }

  lemma {:induction false} MarkAlone(t: Table, d: Dialect)
    requires t == Table(false, Labels(1), [[BOM]]) && d == Dialect(',', '"', true)
    ensures Savable(d, t) && SeemsMarked(d, false, t)
  {
    assert WrittenRows(t) == [[BOM]];
    assert !NeedsQuote(d, BOM, true);
  }

  /** The file a headerless one-column table with the single value BOM is saved as reads back as one empty value. */
  lemma {:induction false} MarkLostOnSave()
    ensures var t := Table(false, Labels(1), [[BOM]]);
            var d := Dialect(',', '"', true);
            Savable(d, t) && SeemsMarked(d, false, t)
            && LoadedTable(SavedText(d, false, "\n", t), d, false, 1) != Some(t)
  {
    var t, d := Table(false, Labels(1), [[BOM]]), Dialect(',', '"', true);
    assert WrittenRows(t) == [[BOM]];
    MarkAlone(t, d);
    SaveLoads(d, false, "\n", t);
  }
}

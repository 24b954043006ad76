/** The editable view of a CSV file: an index of record offsets and an overlay of edits, which together behave
    like the plain table of `PlainTable`. */
module IndexedCsv {
  import opened Characters
  import opened ColumnOrder
  import opened CsvFile
  import opened CsvGrammar
  import opened CsvWriter
  import opened Outcomes
  import opened Overlay
  import opened OverlayEdits
  import opened PlainTable
  import opened SyntheticLabels

  datatype Format = Format(dialect: Dialect, header: bool)

  /** What can go wrong outside the view while it saves. The last of these comes after the file has been replaced. */
  datatype SaveFault = NoFault | ChangedExternally | WriteFailed | RenameFailed | ReloadFailed(at: ReloadFault)

  /** Where loading breaks off: at the size and time of the file, at opening it, or after some of its records. */
  datatype ReloadFault = StatFailed | OpenFailed | ReadFailed(count: nat)

  /** The save does not fail: nothing goes wrong, or only in reading an empty file, which is not read. */
  predicate Survives(fault: SaveFault, text: string) {
    match fault
    case NoFault => true
    case ReloadFailed(at) => at != StatFailed && IsEmptyFile(text)
    case _ => false
  }

  function Fewer(a: nat, b: nat): nat {
    if a < b then a else b
  }

  /** An edit that is carried out does something, unless it asks for what there is. */
  predicate HasEffect(e: Edit, output: Dialect, hasHeaders: bool) {
    match e
    case SwapRows(first, second) => first != second
    case RenameColumn(column, name) => column != name
    case SetOptions(delimiter, quote, wantHeaders) =>
      !(delimiter == DelimiterOf(output) && quote == QuoteOf(output) && wantHeaders == hasHeaders)
    case _ => true
  }

  ghost function RecordsOf(disk: string, format: Format): seq<Record> {
    Scan(format.dialect, disk, BodyStart(disk))
  }

  function Skip(format: Format): nat {
    if format.header then 1 else 0
  }

  /** The data records of a file. */
  ghost function SourcesOf(disk: string, format: Format): seq<seq<string>> {
    if Skip(format) <= |RecordsOf(disk, format)| then FieldsOf(RecordsOf(disk, format))[Skip(format)..] else []
  }

  ghost predicate IndexOk(disk: string, format: Format, index: seq<nat>, fileSize: nat, hasBom: bool) {
    && ValidDialect(format.dialect)
    && Skip(format) <= |RecordsOf(disk, format)|
    && Offsets(RecordsOf(disk, format)[Skip(format)..], index)
    && fileSize == |disk|
    && hasBom == (BOM <= disk)
  }

  /** The index holds the offsets of the first data records. */
  ghost predicate PartOk(disk: string, format: Format, index: seq<nat>, fileSize: nat, hasBom: bool) {
    && ValidDialect(format.dialect)
    && Skip(format) + |index| <= |RecordsOf(disk, format)|
    && Offsets(RecordsOf(disk, format)[Skip(format)..Skip(format) + |index|], index)
    && fileSize == |disk|
    && hasBom == (BOM <= disk)
  }

  /** The terminator is that of the first record. */
  ghost predicate FirstTerminator(d: Dialect, disk: string, newline: string) {
    forall p :: FirstBreak(d, disk, BodyStart(disk), p) ==> newline == TerminatorAt(disk, p)
  }

  class CsvIndexedFile {
    var disk: string                   // the bytes of the file
    var headers: seq<string>
    var columns: seq<Column>
    var index: seq<nat>
    var rows: seq<LogicalRow>
    var fileSize: nat
    var format: Format
    var outputDialect: Dialect
    var hasHeaders: bool
    var locked: Option<(nat, nat)>     // widest record and first record, when headers are disabled
    var hasBom: bool
    var modified: bool
    var newline: string

    constructor Blank(disk: string, format: Format, columns: seq<Column>)
      ensures this.disk == disk && this.format == format && this.columns == columns && newline == "\n"
    {
      this.disk, this.format, this.columns := disk, format, columns;
      headers, index, rows, fileSize := [], [], [], 0;
      outputDialect, hasHeaders, locked, hasBom := format.dialect, true, None, false;
      modified, newline := false, "\n";
    }

    /** The data records of the file. */
    ghost function Sources(): seq<seq<string>>
      reads this
    {
      SourcesOf(disk, format)
    }

    ghost predicate Indexed()
      reads this
    {
      IndexOk(disk, format, index, fileSize, hasBom)
    }

    ghost predicate PartIndexed()
      reads this
    {
      PartOk(disk, format, index, fileSize, hasBom)
    }

    /** What reading and writing the rows needs: the index may be short, and the headers stale. */
    ghost predicate Ready()
      reads this
    {
      && PartIndexed() && RowsOk(rows, columns, |index|) && ColumnsOk(hasHeaders, Names(columns), columns)
      && ValidDialect(outputDialect) && IsTerminator(newline)
    }

    lemma {:induction false} ValidIsReady()
      requires Valid()
      ensures Ready() && headers == Names(columns)
    {
      IndexIsPart(disk, format, index, fileSize, hasBom);
    }

    ghost predicate Valid()
      reads this
    {
      && Indexed() && RowsOk(rows, columns, |index|) && ColumnsOk(hasHeaders, headers, columns)
      && ValidDialect(outputDialect) && IsTerminator(newline)
    }

    /** The table seen through the overlay. */
    ghost function View(): (t: Table)
      reads this
      ensures t.Rectangular()
    {
      ViewOf(hasHeaders, columns, rows, Sources())
    }

    /** The view once the labels have been refreshed and the headers told. */
    ghost function Refreshed(): Table
      reads this
    {
      Table(hasHeaders, if hasHeaders then Names(columns) else Labels(|columns|), AllValues(rows, columns, Sources()))
    }

    /** The effect of an edit: a refused one changes nothing, and neither does one that has nothing to do; any other is
        the plain edit of the view when column names are unique, leaves the file and its index alone, and marks the
        view modified. */
    twostate predicate Edited(e: Edit, ok: bool)
      reads this
    {
      && Became(Apply(old(View()), old(locked.Some?), e), ok, HasEffect(e, old(outputDialect), old(hasHeaders)))
      && (e.SetOptions? || outputDialect == old(outputDialect))
    }

    twostate predicate Became(after: Option<Table>, ok: bool, effect: bool)
      reads this
    {
      && (ok <==> after.Some?)
      && (if ok && effect then modified else unchanged(this))
      && (ok && Unique(old(headers)) ==> View() == after.value && Unique(headers))
      && SameFile()
    }

    twostate predicate SameFile()
      reads this
    {
      && disk == old(disk) && index == old(index) && fileSize == old(fileSize) && format == old(format)
      && locked == old(locked) && hasBom == old(hasBom) && newline == old(newline)
    }

    function RowCount(): nat
      reads this
    {
      |rows|
    }

    function HasColumn(column: string): bool
      reads this
    {
      column in headers
    }

    method ColumnIndex(column: string) returns (k: Option<nat>)
      ensures k.Some? <==> column in headers
      ensures k.Some? ==> k.value == IndexOf(headers, column)
    {
      var i := 0;
      while i < |headers|
        invariant 0 <= i <= |headers| && column !in headers[..i]
      {
        if headers[i] == column {
          FirstIndex(headers, column, i);
          return Some(i);
        }
        i := i + 1;
      }
      return None;
    }

    method RefreshHeaders()
      modifies this`headers
      ensures headers == Names(columns)
    {
      headers := Names(columns);
    }

    // ----- Edits -----

    method EditCell(row: nat, column: string, value: string) returns (ok: bool)
      requires Valid()
      modifies this
      ensures Valid()
      ensures Edited(Edit.EditCell(row, column, value), ok)
    {
      if row >= RowCount() { return false; }
      if !HasColumn(column) { return false; }
      PutCell(row, column, value);
      return true;
    }

    method PutCell(row: nat, column: string, value: string)
      requires Valid() && row < |rows| && column in headers
      modifies this`rows, this`modified
      ensures Valid() && modified
      ensures Unique(headers) ==> Some(View()) == Apply(old(View()), locked.Some?, Edit.EditCell(row, column, value))
    {
      EditCellView(hasHeaders, columns, rows, Sources(), |index|, locked.Some?, row, column, value);
      rows := rows[row := rows[row].(cells := rows[row].cells[column := value])];
      modified := true;
    }

    method DeleteRow(row: nat) returns (ok: bool)
      requires Valid()
      modifies this
      ensures Valid()
      ensures Edited(Edit.DeleteRow(row), ok)
    {
      if row >= RowCount() { return false; }
      DropRow(row);
      return true;
    }

    method DropRow(row: nat)
      requires Valid() && row < |rows|
      modifies this`rows, this`modified
      ensures Valid() && modified
      ensures Some(View()) == Apply(old(View()), locked.Some?, Edit.DeleteRow(row))
    {
      DeleteRowView(hasHeaders, columns, rows, Sources(), |index|, locked.Some?, row);
      rows := rows[..row] + rows[row + 1..];
      modified := true;
    }

    method InsertRow(row: nat, values: seq<string>) returns (ok: bool)
      requires Valid()
      modifies this
      ensures Valid()
      ensures Edited(Edit.InsertRow(row, values), ok)
    {
      if |values| != |headers| { return false; }
      if row > RowCount() { return false; }
      PlaceRow(row, values);
      return true;
    }

    method PlaceRow(row: nat, values: seq<string>)
      requires Valid() && |values| == |columns| && row <= |rows|
      modifies this`rows, this`modified
      ensures Valid() && modified
      ensures Unique(headers) ==> Some(View()) == Apply(old(View()), locked.Some?, Edit.InsertRow(row, values))
    {
      var cells := NamedCells(headers, values);
      InsertRowView(hasHeaders, columns, rows, Sources(), |index|, locked.Some?, row, values);
      rows := InsertAt(rows, row, LogicalRow(None, cells));
      modified := true;
    }

    method SwapRows(first: nat, second: nat) returns (ok: bool)
      requires Valid()
      modifies this
      ensures Valid()
      ensures Edited(Edit.SwapRows(first, second), ok)
    {
      if first >= RowCount() || second >= RowCount() { return false; }
      if first == second {
        SwapSame(View(), locked.Some?, first);
        return true;
      }
      ExchangeRows(first, second);
      return true;
    }

    method ExchangeRows(first: nat, second: nat)
      requires Valid() && first < |rows| && second < |rows|
      modifies this`rows, this`modified
      ensures Valid() && modified
      ensures Some(View()) == Apply(old(View()), locked.Some?, Edit.SwapRows(first, second))
    {
      SwapRowsView(hasHeaders, columns, rows, Sources(), |index|, locked.Some?, first, second);
      rows := rows[first := rows[second]][second := rows[first]];
      modified := true;
    }

    method Relabel(names: seq<string>)
      requires |names| == |columns|
      modifies this`rows, this`columns, this`headers
      ensures rows == RelabelRows(old(rows), old(columns), names)
      ensures columns == RelabelColumns(old(columns), names)
      ensures headers == names
    {
      var r := 0;
      while r < |rows|
        invariant 0 <= r <= |rows| == |old(rows)| && columns == old(columns)
        invariant forall k :: 0 <= k < r ==> rows[k] == RelabelRow(old(rows)[k], columns, names)
        invariant forall k :: r <= k < |rows| ==> rows[k] == old(rows)[k]
      {
        var cells: map<string, string> := map[];
        var i := 0;
        while i < |columns|
          invariant 0 <= i <= |columns|
          invariant cells == RelabelCells(rows[r].cells, columns, names, i)
        {
          if columns[i].name in rows[r].cells {
            cells := cells[names[i] := rows[r].cells[columns[i].name]];
          }
          i := i + 1;
        }
        rows := rows[r := rows[r].(cells := cells)];
        r := r + 1;
      }
      assert rows == RelabelRows(old(rows), columns, names);
      var i := 0;
      while i < |columns|
        invariant 0 <= i <= |columns| == |old(columns)|
        invariant rows == RelabelRows(old(rows), old(columns), names)
        invariant forall k :: 0 <= k < i ==> columns[k] == old(columns)[k].(name := names[k])
        invariant forall k :: i <= k < |columns| ==> columns[k] == old(columns)[k]
      {
        columns := columns[i := columns[i].(name := names[i])];
        i := i + 1;
      }
      assert columns == RelabelColumns(old(columns), names);
      RefreshHeaders();
    }

    /** Labels afresh after the columns of a headerless view changed. */
    method RelabelHeaderless()
      requires RowsOk(rows, columns, |index|)
      modifies this`rows, this`columns, this`headers
      ensures RowsOk(rows, columns, |index|) && headers == Names(columns) == Labels(|columns|) && Unique(headers)
      ensures |columns| == |old(columns)|
      ensures DefaultsEmpty(old(columns)) ==> DefaultsEmpty(columns)
      ensures ViewOf(false, columns, rows, Sources())
           == Table(false, Labels(|columns|), AllValues(old(rows), old(columns), Sources()))
    {
      RelabelledView(columns, rows, Sources(), |index|);
      var labels := SyntheticHeaders(|columns|);
      Relabel(labels);
    }

    /** After a change of columns: a headerless view is labelled afresh, and the headers are told. */
    method LabelColumns()
      requires RowsOk(rows, columns, |index|) && DefaultsEmpty(columns) && columns != []
      modifies this`rows, this`columns, this`headers
      ensures RowsOk(rows, columns, |index|) && ColumnsOk(hasHeaders, headers, columns)
      ensures Unique(Names(old(columns))) ==> Unique(headers)
      ensures View() == old(Refreshed())
    {
      if !hasHeaders { RelabelHeaderless(); }
      RefreshHeaders();
    }

    method RefreshLabels()
      requires RowsOk(rows, columns, |index|) && DefaultsEmpty(columns) && columns != []
      requires Indexed() && ValidDialect(outputDialect) && IsTerminator(newline)
      modifies this`rows, this`columns, this`headers, this`modified
      ensures Valid() && modified
      ensures Unique(Names(old(columns))) ==> Unique(headers)
      ensures View() == old(Refreshed())
    {
      LabelColumns();
      modified := true;
    }

    method InsertColumn(column: nat, name: string, value: string) returns (ok: bool)
      requires Valid()
      modifies this
      ensures Valid()
      ensures Edited(Edit.InsertColumn(column, name, value), ok)
    {
      if hasHeaders && name == "" { return false; }
      if hasHeaders && HasColumn(name) { return false; }
      if column > |columns| { return false; }
      PlaceColumn(column, name, value);
      return true;
    }

    /** The new column is known by a temporary unique key until labels are given afresh. */
    method PlaceColumn(column: nat, name: string, value: string)
      requires Valid() && column <= |columns|
      requires hasHeaders ==> name != "" && name !in headers
      modifies this`columns, this`rows, this`headers, this`modified
      ensures Valid() && modified
      ensures Some(View()) == Apply(old(View()), locked.Some?, Edit.InsertColumn(column, name, value))
      ensures Unique(old(headers)) ==> Unique(headers)
    {
      PutColumn(column, name, value);
      RefreshLabels();
    }

    /** The column is there; a headerless view still has to be labelled, and the headers have to be told. */
    method PutColumn(column: nat, name: string, value: string)
      requires Valid() && column <= |columns|
      requires hasHeaders ==> name != "" && name !in headers
      modifies this`columns
      ensures RowsOk(rows, columns, |index|) && DefaultsEmpty(columns) && columns != []
      ensures Unique(headers) ==> Unique(Names(columns))
      ensures Some(Refreshed()) == Apply(old(View()), locked.Some?, Edit.InsertColumn(column, name, value))
    {
      var key := name;
      if !hasHeaders { key := FreshKey(headers); }
      InsertColumnView(hasHeaders, columns, rows, Sources(), |index|, locked.Some?, column, key, name, value);
      NamesInserted(columns, column, Column(key, None, value));
      if Unique(headers) { InsertAtUnique(headers, column, key); }
      columns := columns[..column] + [Column(key, None, value)] + columns[column..];
      assert columns == InsertAt(old(columns), column, Column(key, None, value));
    }

    method MoveCells(column: string, name: string)
      modifies this`rows
      ensures |rows| == |old(rows)|
      ensures forall i :: 0 <= i < |rows| ==> rows[i] == MovedCell(old(rows)[i], column, name)
    {
      var r := 0;
      while r < |rows|
        invariant 0 <= r <= |rows| == |old(rows)|
        invariant forall i :: 0 <= i < r ==> rows[i] == MovedCell(old(rows)[i], column, name)
        invariant forall i :: r <= i < |rows| ==> rows[i] == old(rows)[i]
      {
        if column in rows[r].cells {
          rows := rows[r := rows[r].(cells := rows[r].cells[name := rows[r].cells[column]] - {column})];
        }
        r := r + 1;
      }
    }

    method EraseCells(column: string)
      modifies this`rows
      ensures |rows| == |old(rows)|
      ensures forall i :: 0 <= i < |rows| ==> rows[i] == old(rows)[i].(cells := old(rows)[i].cells - {column})
    {
      var r := 0;
      while r < |rows|
        invariant 0 <= r <= |rows| == |old(rows)|
        invariant forall i :: 0 <= i < r ==> rows[i] == old(rows)[i].(cells := old(rows)[i].cells - {column})
        invariant forall i :: r <= i < |rows| ==> rows[i] == old(rows)[i]
      {
        rows := rows[r := rows[r].(cells := rows[r].cells - {column})];
        r := r + 1;
      }
    }

    method RenameColumn(column: string, name: string) returns (ok: bool)
      requires Valid()
      modifies this
      ensures Valid()
      ensures Edited(Edit.RenameColumn(column, name), ok)
    {
      var k := ColumnToRename(column, name);
      if k.None? { return false; }
      if column == name {
        assert Names(columns)[k.value := name] == Names(columns);
        return true;
      }
      ReplaceName(k.value, column, name);
      return true;
    }

    /** The place of a column that may be given this name. */
    method ColumnToRename(column: string, name: string) returns (k: Option<nat>)
      requires Valid()
      ensures k.Some? <==> Apply(View(), locked.Some?, Edit.RenameColumn(column, name)).Some?
      ensures k.Some? ==> hasHeaders && name != "" && column in headers && k.value == IndexOf(headers, column)
      ensures k.Some? && column != name ==> name !in headers
    {
      if !hasHeaders { return None; }
      if name == "" { return None; }
      k := ColumnIndex(column);
      if k.Some? && column != name && HasColumn(name) { k := None; }
    }

    method ReplaceName(k: nat, column: string, name: string)
      requires Valid() && hasHeaders && column in headers && k == IndexOf(headers, column)
      requires name != "" && name !in headers
      modifies this`columns, this`rows, this`headers, this`modified
      ensures Valid() && modified
      ensures Unique(old(headers)) ==> Unique(headers)
      ensures Unique(old(headers)) ==>
        Some(View()) == Apply(old(View()), locked.Some?, Edit.RenameColumn(column, name))
    {
      MoveName(k, column, name);
      RefreshLabels();
    }

    /** The column and its edits carry the new name; the headers still have to be told. */
    method MoveName(k: nat, column: string, name: string)
      requires Valid() && hasHeaders && column in headers && k == IndexOf(headers, column)
      requires name != "" && name !in headers
      modifies this`columns, this`rows
      ensures RowsOk(rows, columns, |index|) && DefaultsEmpty(columns) && columns != []
      ensures Unique(old(headers)) ==> Unique(Names(columns))
      ensures Unique(old(headers)) ==>
        Some(Refreshed()) == Apply(old(View()), locked.Some?, Edit.RenameColumn(column, name))
    {
      columns := columns[k := columns[k].(name := name)];
      MoveCells(column, name);
      RenameColumnView(old(columns), old(rows), rows, Sources(), |index|, locked.Some?, column, name);
    }

    method DeleteColumn(column: string) returns (ok: bool)
      requires Valid()
      modifies this
      ensures Valid()
      ensures Edited(Edit.DeleteColumn(column), ok)
    {
      var k := ColumnToDelete(column);
      ok := k.Some?;
      if ok { RemoveColumn(k.value, column); }
    }

    /** The place of a column that may be deleted: the last one may not. */
    method ColumnToDelete(column: string) returns (k: Option<nat>)
      requires Valid()
      ensures k.Some? <==> Apply(View(), locked.Some?, Edit.DeleteColumn(column)).Some?
      ensures k.Some? ==> |columns| > 1 && column in headers && k.value == IndexOf(headers, column)
    {
      if |columns| <= 1 { return None; }
      k := ColumnIndex(column);
    }

    method RemoveColumn(k: nat, column: string)
      requires Valid() && |columns| > 1 && column in headers && k == IndexOf(headers, column)
      modifies this`columns, this`rows, this`headers, this`modified
      ensures Valid() && modified
      ensures Unique(old(headers)) ==> Unique(headers)
      ensures Unique(old(headers)) ==>
        Some(View()) == Apply(old(View()), locked.Some?, Edit.DeleteColumn(column))
    {
      EraseColumn(k, column);
      RefreshLabels();
    }

    /** The column is gone, and so are its edits; a headerless view still has to be labelled. */
    method EraseColumn(k: nat, column: string)
      requires Valid() && |columns| > 1 && column in headers && k == IndexOf(headers, column)
      modifies this`columns, this`rows
      ensures RowsOk(rows, columns, |index|) && DefaultsEmpty(columns) && columns != []
      ensures Unique(old(headers)) ==> Unique(Names(columns))
      ensures Unique(old(headers)) ==>
        Some(Refreshed()) == Apply(old(View()), locked.Some?, Edit.DeleteColumn(column))
    {
      columns := columns[..k] + columns[k + 1..];
      assert columns == RemoveAt(old(columns), IndexOf(Names(old(columns)), column));
      EraseCells(column);
      DeleteColumnView(hasHeaders, old(columns), old(rows), rows, Sources(), |index|, locked.Some?, column);
    }

    // ----- Header switches -----

    /** The names become the first row, and labels take their place. */
    method HeadersOff()
      requires Valid() && hasHeaders
      modifies this`rows, this`columns, this`headers, this`hasHeaders
      ensures Valid()
      ensures Some(View()) == SwitchHeaders(old(View()), false)
      ensures Unique(headers)
    {
      var first := NamedCells(Names(columns), Names(columns));
      HeadersOffView(columns, rows, Sources(), |index|);
      rows := [LogicalRow(None, first)] + rows;
      RelabelHeaderless();
      hasHeaders := false;
      LabelsUnique(|columns|);
    }

    /** The first row, which holds `names`, becomes the names. */
    method HeadersOn(names: seq<string>)
      requires Valid() && !hasHeaders && rows != []
      requires names == View().rows[0] && Unique(names) && "" !in names
      modifies this`rows, this`columns, this`headers, this`hasHeaders
      ensures Valid()
      ensures Some(View()) == SwitchHeaders(old(View()), true)
      ensures Unique(headers)
    {
      HeadersOnView(columns, rows, Sources(), |index|, names);
      rows := rows[1..];
      Relabel(names);
      hasHeaders := true;
    }

    method SetCsvOptions(delimiter: string, quote: string, wantHeaders: bool) returns (ok: bool)
      requires Valid()
      modifies this
      ensures Valid()
      ensures Edited(Edit.SetOptions(delimiter, quote, wantHeaders), ok)
      ensures ok ==> DelimiterOf(outputDialect) == delimiter && QuoteOf(outputDialect) == quote
    {
      OptionsApply(View(), locked.Some?, delimiter, quote, wantHeaders);
      var next := DialectFor(delimiter, quote, wantHeaders);
      if next.None? { return false; }
      ok := UseOptions(delimiter, quote, wantHeaders, next.value);
    }

    /** The dialect asked for, unless headers may not be turned on or the characters will not do. */
    method DialectFor(delimiter: string, quote: string, wantHeaders: bool) returns (next: Option<Dialect>)
      ensures next.Some? <==> !(wantHeaders && locked.Some?) && WithDialect(delimiter, quote).Ok?
      ensures next.Some? ==> WithDialect(delimiter, quote) == Ok(next.value)
    {
      if wantHeaders && locked.Some? { return None; }
      var r := WithDialect(delimiter, quote);
      next := if r.Ok? then Some(r.value) else None;
    }

    method UseOptions(delimiter: string, quote: string, wantHeaders: bool, next: Dialect) returns (ok: bool)
      requires Valid() && ValidDialect(next) && DelimiterOf(next) == delimiter && QuoteOf(next) == quote
      modifies this`rows, this`columns, this`headers, this`hasHeaders, this`outputDialect, this`modified
      ensures Valid()
      ensures Became(SwitchHeaders(old(View()), wantHeaders), ok,
                     !(delimiter == DelimiterOf(old(outputDialect)) && quote == QuoteOf(old(outputDialect))
                       && wantHeaders == old(hasHeaders)))
      ensures ok ==> DelimiterOf(outputDialect) == delimiter && QuoteOf(outputDialect) == quote
    {
      if delimiter == DelimiterOf(outputDialect) && quote == QuoteOf(outputDialect) && wantHeaders == hasHeaders {
        return true;
      }
      ok := SwitchTo(wantHeaders);
      if ok { WriteWith(next); }
    }

    method WriteWith(next: Dialect)
      requires Valid() && ValidDialect(next)
      modifies this`outputDialect, this`modified
      ensures Valid() && View() == old(View())
      ensures outputDialect == next && modified
    {
      outputDialect := next;
      modified := true;
    }

    method SwitchTo(wantHeaders: bool) returns (ok: bool)
      requires Valid()
      modifies this`rows, this`columns, this`headers, this`hasHeaders
      ensures Valid()
      ensures ok <==> SwitchHeaders(old(View()), wantHeaders).Some?
      ensures ok ==> Some(View()) == SwitchHeaders(old(View()), wantHeaders)
      ensures ok && Unique(old(headers)) ==> Unique(headers)
      ensures !ok ==> unchanged(this)
    {
      if wantHeaders == hasHeaders { return true; }
      if !wantHeaders {
        HeadersOff();
        return true;
      }
      if rows == [] { return false; }
      ValidIsReady();
      var names := RowValuesForColumns(rows[0], columns);
      var usable := UsableNames(names);
      if usable { HeadersOn(names); }
      return usable;
    }

    // ----- Reading -----

    method ReadSourceRows(offset: nat, limit: nat) returns (page: seq<seq<string>>)
      requires PartIndexed()
      ensures |index| <= |Sources()| && page == PageOf(Sources()[..|index|], offset, limit)
      ensures Indexed() ==> page == PageOf(Sources(), offset, limit)
    {
      PartCount(disk, format, index, fileSize, hasBom);
      if offset >= |index| || limit == 0 { return []; }
      var count := if limit < |index| - offset then limit else |index| - offset;
      page := ReadSlice(offset, count);
    }

    method ReadSlice(offset: nat, count: nat) returns (page: seq<seq<string>>)
      requires PartIndexed() && 0 < count && offset + count <= |index|
      ensures |index| <= |Sources()| && page == PageOf(Sources()[..|index|], offset, count)
    {
      PartCount(disk, format, index, fileSize, hasBom);
      SourceSlice(disk, format, index, fileSize, hasBom, offset, count);
      var buffer := disk[index[offset]..SliceEnd(index, fileSize, offset + count)];
      page := ParsePage(format.dialect, buffer, count);
    }

    method ReadSourceRow(sourceRow: nat) returns (values: seq<string>)
      requires PartIndexed() && sourceRow < |index|
      ensures sourceRow < |Sources()| && values == Sources()[sourceRow]
    {
      var page := ReadSourceRows(sourceRow, 1);
      values := page[0];
    }

    method RowValuesForColumns(row: LogicalRow, wanted: seq<Column>) returns (values: seq<string>)
      requires PartIndexed() && (row.sourceRow.Some? ==> row.sourceRow.value < |index|)
      ensures values == RowValues(row, wanted, Sources())
    {
      var sourceValues: seq<string> := [];
      if row.sourceRow.Some? {
        sourceValues := ReadSourceRow(row.sourceRow.value);
      }
      values := [];
      var i := 0;
      while i < |wanted|
        invariant 0 <= i <= |wanted| && values == RowValues(row, wanted, Sources())[..i]
      {
        var c := wanted[i];
        var value := c.defaultValue;
        if c.sourceIndex.Some? && c.sourceIndex.value < |sourceValues| {
          value := sourceValues[c.sourceIndex.value];
        }
        if c.name in row.cells {
          value := row.cells[c.name];
        }
        values := values + [value];
        i := i + 1;
      }
    }

    /** A page, however it is read, shows the rows of the view; a row cut straight from the file may run past the
        last column. */
    method ReadRows(offset: nat, limit: nat) returns (page: seq<seq<string>>)
      requires Valid()
      ensures offset >= |rows| ==> page == []
      ensures offset < |rows| ==> |page| == if limit < |rows| - offset then limit else |rows| - offset
      ensures forall i :: 0 <= i < |page| ==>
        |columns| <= |page[i]| && page[i][..|columns|] == View().rows[offset + i]
    {
      if offset >= RowCount() || limit == 0 {
        return [];
      }
      var count := if limit < RowCount() - offset then limit else RowCount() - offset;
      var first := DirectPage(offset, count);
      if first.Some? {
        page := ReadDirectPage(offset, first.value, count);
        return;
      }
      page := AssemblePage(offset, count);
    }

    method AssemblePage(offset: nat, count: nat) returns (page: seq<seq<string>>)
      requires Valid() && offset + count <= |rows|
      ensures |page| == count
      ensures forall k :: 0 <= k < count ==>
        |columns| <= |page[k]| && page[k][..|columns|] == View().rows[offset + k]
    {
      page := [];
      ValidIsReady();
      var i := 0;
      while i < count
        invariant 0 <= i <= count && |page| == i
        invariant forall k :: 0 <= k < i ==> page[k] == RowValues(rows[offset + k], columns, Sources())
      {
        var values := RowValuesForColumns(rows[offset + i], columns);
        page := page + [values];
        i := i + 1;
      }
      ShownRows(rows, columns, Sources(), offset, page);
    }

    /** Whether rows can be cut straight from the file: every column shows its own field, and the rows are
        unedited, consecutive records. */
    method DirectPage(offset: nat, count: nat) returns (first: Option<nat>)
      requires Valid() && 0 < count && offset + count <= |rows|
      ensures first.Some? ==> Consecutive(rows[offset..offset + count], first.value)
      ensures first.Some? ==> forall k :: 0 <= k < |columns| ==> columns[k].sourceIndex == Some(k)
    {
      var direct := |columns| == |headers|;
      var c := 0;
      while direct && c < |columns|
        invariant 0 <= c <= |columns|
        invariant direct ==> forall k :: 0 <= k < c ==> columns[k].sourceIndex == Some(k)
      {
        direct := columns[c].sourceIndex == Some(c);
        c := c + 1;
      }
      first := rows[offset].sourceRow;
      direct := direct && first.Some?;
      var i := 0;
      while direct && i < count
        invariant 0 <= i <= count
        invariant direct ==> first.Some? && Consecutive(rows[offset..offset + i], first.value)
      {
        var row := rows[offset + i];
        assert rows[offset..offset + i + 1] == rows[offset..offset + i] + [row];
        direct := row.sourceRow.Some? && row.cells == map[] && row.sourceRow.value == first.value + i;
        i := i + 1;
      }
      if !direct { first := None; }
    }

    method ReadDirectPage(offset: nat, first: nat, count: nat) returns (page: seq<seq<string>>)
      requires Valid() && 0 < count && offset + count <= |rows|
      requires forall k :: 0 <= k < |columns| ==> columns[k].sourceIndex == Some(k)
      requires Consecutive(rows[offset..offset + count], first)
      ensures |page| == count
      ensures forall k :: 0 <= k < count ==>
        |columns| <= |page[k]| && page[k][..|columns|] == View().rows[offset + k]
    {
      ConsecutiveRows(rows, columns, |index|, offset, count, first);
      ValidIsReady();
      SourceCount(disk, format, index, fileSize, hasBom);
      page := ReadSourceRows(first, count);
      page := ResizeRows(page, |columns|);
      DirectRows(columns, Sources(), rows, offset, count, first, page);
    }

    // ----- Loading -----

    /** Loads the file as the chosen input format says; headers are given up when a record is wider than they
        are, so that no value is lost. */
    method Reload() returns (ok: bool)
      requires ValidDialect(format.dialect) && IsTerminator(newline)
      modifies this
      ensures disk == old(disk) && format.dialect == old(format.dialect)
      ensures LoadedAs(LoadedTable(disk, format.dialect, old(format.header), |old(columns)|), ok)
      ensures ok && IsEmptyFile(disk) ==> newline == old(newline)
      ensures ok ==> FirstTerminator(format.dialect, disk, newline)
      decreases format.header, 2
    {
      fileSize := |disk|;
      var bomOnly := fileSize == 3 && BOM <= disk;
      if (fileSize == 0 || bomOnly) && !format.header && columns != [] {
        EmptyScan(format.dialect, disk);
        ShowEmptyFile(bomOnly);
        return true;
      }
      ok := LoadRecords();
    }

    method LoadRecords() returns (ok: bool)
      requires ValidDialect(format.dialect) && IsTerminator(newline) && fileSize == |disk|
      requires IsEmptyFile(disk) ==> format.header || columns == []
      modifies this
      ensures disk == old(disk) && format.dialect == old(format.dialect)
      ensures LoadedAs(LoadedTable(disk, format.dialect, old(format.header), |old(columns)|), ok)
      ensures ok ==> !IsEmptyFile(disk)
      ensures ok ==> FirstTerminator(format.dialect, disk, newline)
      decreases format.header, 1
    {
      var width, firstWidth := IndexFile();
      WidthsTell(disk, format, |columns|, width, firstWidth);
      if hasHeaders && width > firstWidth {
        ok := ReadAsData();
      } else {
        ok := ShowRecords(width, firstWidth);
      }
    }

    /** Reads a file again whose first record cannot be a header, as it is too short for the others. */
    method ReadAsData() returns (ok: bool)
      requires ValidDialect(format.dialect) && IsTerminator(newline) && format.header
      requires Ragged(AllFields(format.dialect, disk)) && !IsEmptyFile(disk)
      modifies this
      ensures disk == old(disk) && format.dialect == old(format.dialect)
      ensures LoadedAs(LoadedTable(disk, format.dialect, true, |old(columns)|), ok)
      ensures ok ==> FirstTerminator(format.dialect, disk, newline)
      decreases format.header, 0
    {
      RaggedLoads(disk, format.dialect, |columns|, |columns|);
      format := format.(header := false);
      ok := Reload();
    }

    /** The state right after loading: no edits, and the view is `table`. */
    ghost predicate Shows(table: Option<Table>)
      reads this
    {
      && Valid() && !modified && outputDialect == format.dialect && format.header == hasHeaders
      && Some(View()) == table
      && (locked.Some? <==> Ragged(AllFields(format.dialect, disk)))
    }

    /** Loading succeeds where there is a table, and then shows it. */
    ghost predicate LoadedAs(table: Option<Table>, ok: bool)
      reads this
    {
      (ok <==> table.Some?) && (ok ==> Shows(table))
    }

    /** What is known once the file has been read: nothing but the columns is left to choose. */
    ghost predicate Read(width: nat, firstWidth: nat)
      reads this
    {
      var records := RecordsOf(disk, format);
      && ValidDialect(format.dialect) && IsTerminator(newline) && outputDialect == format.dialect
      && hasHeaders == format.header && fileSize == |disk| && hasBom == (BOM <= disk)
      && headers == (if hasHeaders && records != [] then records[0].fields else [])
      && Offsets(records[DataStart(records, hasHeaders)..], index) && rows == UneditedRows(|index|)
      && width == MaxWidth(FieldsOf(records))
      && firstWidth == (if records == [] then 0 else |records[0].fields|)
    }

    method IndexFile() returns (width: nat, firstWidth: nat)
      requires ValidDialect(format.dialect) && fileSize == |disk|
      modifies this`newline, this`hasHeaders, this`outputDialect, this`hasBom, this`headers, this`index, this`rows
      ensures Read(width, firstWidth)
      ensures FirstTerminator(format.dialect, disk, newline)
    {
      ReadForm();
      var records := Scan(format.dialect, disk, BodyStart(disk));
      headers := if hasHeaders && records != [] then records[0].fields else [];
      index, rows, width, firstWidth := IndexRecords(records, hasHeaders);
    }

    method ReadForm()
      requires ValidDialect(format.dialect)
      modifies this`newline, this`hasHeaders, this`outputDialect, this`hasBom
      ensures IsTerminator(newline) && FirstTerminator(format.dialect, disk, newline)
      ensures outputDialect == format.dialect && hasHeaders == format.header && hasBom == (BOM <= disk)
    {
      hasHeaders := format.header;
      outputDialect := format.dialect;
      hasBom := BOM <= disk;
      newline := RecordNewline(disk, format.dialect);
    }

    /** The records have been indexed, and the headers chosen: only the columns are still to be set to show `table`. */
    ghost predicate Labelled(table: Option<Table>)
      reads this
    {
      && Indexed() && rows == UneditedRows(|index|) && IsTerminator(newline)
      && outputDialect == format.dialect && format.header == hasHeaders
      && (!hasHeaders ==> headers == Labels(|headers|))
      && (locked.Some? <==> Ragged(AllFields(format.dialect, disk)))
      && table == if headers == [] then None else Some(Table(hasHeaders, headers, PaddedRows(Sources(), |headers|)))
    }

    /** Shows the records just indexed, under the header or under labels. */
    method ShowRecords(width: nat, firstWidth: nat) returns (ok: bool)
      requires Read(width, firstWidth)
      requires hasHeaders ==> width <= firstWidth
      requires RecordsOf(disk, format) == [] ==> IsEmptyFile(disk) && (format.header || columns == [])
      modifies this`locked, this`headers, this`columns, this`modified
      ensures LoadedAs(LoadedTable(disk, format.dialect, format.header, |old(columns)|), ok)
    {
      LabelRecords(width, firstWidth);
      if headers == [] { return false; }
      InstallColumns(LoadedTable(disk, format.dialect, format.header, |columns|));
      return true;
    }

    method LabelRecords(width: nat, firstWidth: nat)
      requires Read(width, firstWidth)
      requires hasHeaders ==> width <= firstWidth
      requires RecordsOf(disk, format) == [] ==> IsEmptyFile(disk) && (format.header || columns == [])
      modifies this`locked, this`headers
      ensures headers != [] ==> Labelled(LoadedTable(disk, format.dialect, format.header, |columns|))
      ensures headers == [] ==> LoadedTable(disk, format.dialect, format.header, |columns|).None?
    {
      ChooseLabels(width, firstWidth);
      ShownTable(disk, format, |columns|, headers, width, firstWidth);
      if headers != [] { ReadIsIndexed(width, firstWidth); }
    }

    lemma {:induction false} ReadIsIndexed(width: nat, firstWidth: nat)
      requires ValidDialect(format.dialect) && hasHeaders == format.header
      requires fileSize == |disk| && hasBom == (BOM <= disk)
      requires Offsets(RecordsOf(disk, format)[DataStart(RecordsOf(disk, format), hasHeaders)..], index)
      requires RecordsOf(disk, format) == [] ==> !hasHeaders
      ensures Indexed()
    {
    }

    method ChooseLabels(width: nat, firstWidth: nat)
      modifies this`locked, this`headers
      ensures locked.Some? <==> width > firstWidth
      ensures headers == if hasHeaders then old(headers) else Labels(width)
    {
      locked := if width > firstWidth then Some((width, firstWidth)) else None;
      if !hasHeaders { headers := SyntheticHeaders(width); }
    }

    method InstallColumns(ghost table: Option<Table>)
      requires Labelled(table) && headers != []
      modifies this`columns, this`modified
      ensures Shows(table)
    {
      columns := ColumnsFor(headers);
      modified := false;
      SourceCount(disk, format, index, fileSize, hasBom);
      LoadedView(hasHeaders, headers, Sources());
    }

    /** A file without records keeps the known columns. */
    method ShowEmptyFile(bomOnly: bool)
      requires ValidDialect(format.dialect) && IsTerminator(newline) && columns != [] && !format.header
      requires IsEmptyFile(disk) && bomOnly == (disk == BOM) && fileSize == |disk|
      requires Scan(format.dialect, disk, BodyStart(disk)) == []
      modifies this
      ensures disk == old(disk) && format == old(format) && newline == old(newline)
      ensures Shows(LoadedTable(disk, format.dialect, false, |old(columns)|))
    {
      EmptyFileTable(disk, format, |columns|);
      ClearIndex(bomOnly);
      headers := SyntheticHeaders(|columns|);
      InstallColumns(LoadedTable(disk, format.dialect, false, |columns|));
    }

    method ClearIndex(bomOnly: bool)
      modifies this`index, this`rows, this`hasHeaders, this`locked, this`hasBom, this`outputDialect
      ensures index == [] && rows == [] && !hasHeaders && locked == None && hasBom == bomOnly
      ensures outputDialect == format.dialect
    {
      index, rows := [], [];
      hasHeaders, locked, hasBom, outputDialect := false, None, bomOnly, format.dialect;
    }

    // ----- Input options and reset -----

    static method Open(disk: string, format: Format) returns (r: Option<CsvIndexedFile>)
      requires ValidDialect(format.dialect)
      ensures r.Some? <==> disk != "" && LoadedTable(disk, format.dialect, format.header, 0).Some?
      ensures r.Some? ==>
        && fresh(r.value) && r.value.AsLoaded() && r.value.disk == disk && !r.value.modified
        && Some(r.value.View()) == LoadedTable(disk, format.dialect, format.header, 0)
    {
      if disk == "" { return None; }
      var f := new CsvIndexedFile.Blank(disk, format, []);
      var ok := f.Reload();
      if !ok { return None; }
      f.ShowsAsLoaded(format.header, 0);
      return Some(f);
    }

    /** Reads the file again in another dialect, unless there are unsaved changes. */
    method ReadCsvOptions(delimiter: string, quote: string, wantHeaders: bool) returns (ok: bool)
      requires Valid()
      modifies this
      ensures Valid()
      ensures var next := WithDialect(delimiter, quote);
        ok <==> !old(modified) && next.Ok? && LoadedTable(disk, next.value, wantHeaders, |old(columns)|).Some?
      ensures !ok ==> unchanged(this)
      ensures ok ==> !modified && disk == old(disk)
      ensures ok ==> Some(View()) == LoadedTable(disk, WithDialect(delimiter, quote).value, wantHeaders, |old(columns)|)
    {
      if modified { return false; }
      var nextDialect := WithDialect(delimiter, quote);
      if nextDialect.Err? { return false; }
      var next := new CsvIndexedFile.Blank(disk, Format(nextDialect.value, wantHeaders), columns);
      ok := next.Reload();
      if ok { Become(next); }
    }

    method Become(next: CsvIndexedFile)
      requires next.Valid() && next != this
      modifies this
      ensures Valid() && View() == next.View() && disk == next.disk && modified == next.modified
    {
      CopyTable(next);
      CopyForm(next);
      SameFields(next);
    }

    method CopyTable(next: CsvIndexedFile)
      requires next != this
      modifies this`disk, this`headers, this`columns, this`index, this`rows, this`fileSize, this`modified
      ensures SameTable(next) && modified == next.modified
    {
      disk, headers, columns := next.disk, next.headers, next.columns;
      index, rows, fileSize, modified := next.index, next.rows, next.fileSize, next.modified;
    }

    method CopyForm(next: CsvIndexedFile)
      requires next != this
      modifies this`format, this`outputDialect, this`hasHeaders, this`locked, this`hasBom, this`newline
      ensures SameForm(next)
    {
      format, outputDialect, hasHeaders := next.format, next.outputDialect, next.hasHeaders;
      locked, hasBom, newline := next.locked, next.hasBom, next.newline;
    }

    ghost predicate SameTable(next: CsvIndexedFile)
      reads this, next
    {
      && disk == next.disk && headers == next.headers && columns == next.columns && index == next.index
      && rows == next.rows && fileSize == next.fileSize
    }

    ghost predicate SameForm(next: CsvIndexedFile)
      reads this, next
    {
      && format == next.format && hasBom == next.hasBom && locked == next.locked
      && outputDialect == next.outputDialect && hasHeaders == next.hasHeaders && newline == next.newline
    }

    lemma {:induction false} SameFields(next: CsvIndexedFile)
      requires SameTable(next) && SameForm(next) && next.Valid()
      ensures Valid() && View() == next.View()
    {
    }

    /** There is a table to load. */
    ghost predicate Loadable()
      reads this
    {
      && ValidDialect(format.dialect) && IsTerminator(newline)
      && LoadedTable(disk, format.dialect, format.header, |columns|).Some?
    }

    lemma {:induction false} ValidLoadable()
      requires Valid()
      ensures Loadable()
    {
      ValidLoads(disk, format, index, fileSize, hasBom, |columns|);
    }

    /** The view shows the file as loading it again would. */
    ghost predicate AsLoaded()
      reads this
    {
      Valid() && Some(View()) == LoadedTable(disk, format.dialect, format.header, |columns|)
    }

    lemma {:induction false} ShowsAsLoaded(header: bool, known: nat)
      requires Shows(LoadedTable(disk, format.dialect, header, known))
      ensures AsLoaded()
    {
      LoadedAgain(disk, format.dialect, header, known);
    }

    /** Forgets the edits by loading the file again. A file without records has no columns of its own: the view then
        keeps as many as it has, whatever the edits made of them. */
    method Reset() returns (ok: bool)
      requires Valid() || Loadable()
      modifies this
      ensures ok && Valid() && !modified && disk == old(disk)
      ensures Some(View()) == LoadedTable(disk, old(format.dialect), old(format.header), |old(columns)|)
      ensures AsLoaded()
    {
      if Valid() { ValidLoadable(); }
      ok := Reload();
      ShowsAsLoaded(old(format.header), |old(columns)|);
    }

    // ----- Saving -----

    method ValidateColumnOrder(order: seq<string>) returns (fits: bool)
      ensures fits <==> OrderFits(headers, order)
    {
      if order == [] { return true; }
      if |order| != |headers| {
        assert |multiset(order)| == |order| && |multiset(headers)| == |headers|;
        return false;
      }
      var counts := CountNames(headers);
      var i := 0;
      while i < |order|
        invariant 0 <= i <= |order|
        invariant forall name :: CountOf(counts, name) + multiset(order[..i])[name] == multiset(headers)[name]
      {
        assert order[..i + 1] == order[..i] + [order[i]];
        assert multiset(order[..i + 1]) <= multiset(order) by {
          assert order == order[..i + 1] + order[i + 1..];
        }
        if order[i] !in counts || counts[order[i]] == 0 {
          assert multiset(order[..i + 1])[order[i]] > multiset(headers)[order[i]];
          return false;
        }
        counts := counts[order[i] := counts[order[i]] - 1];
        i := i + 1;
      }
      assert order[..i] == order;
      assert multiset(order) <= multiset(headers);
      SubsetOfSameSize(multiset(order), multiset(headers));
      assert forall name :: name in counts ==> counts[name] == CountOf(counts, name);
      var missing := exists name | name in counts :: counts[name] != 0;
      return !missing;
    }

    method OrderedColumns(order: seq<string>) returns (ordered: seq<Column>)
      requires OrderFits(Names(columns), order) && (order != [] ==> headers == Names(columns))
      ensures ordered == ColumnsInOrder(columns, order)
    {
      if order == [] { return columns; }
      OrderNames(headers, order);
      ordered := [];
      var i := 0;
      while i < |order|
        invariant 0 <= i <= |order| && |ordered| == i
        invariant forall k :: 0 <= k < i ==> ordered[k] == columns[IndexOf(headers, order[k])]
      {
        var k := ColumnIndex(order[i]);
        ordered := ordered + [columns[k.value]];
        i := i + 1;
      }
    }

    /** Everything the file will hold, or None when some value needs quoting and there is none. */
    method Compose(ordered: seq<Column>) returns (output: Option<string>)
      requires Ready() && ordered != []
      ensures var t := TargetOf(hasHeaders, ordered, rows, Sources());
        output == if AllWritable(outputDialect, WrittenRows(t))
                  then Some(SavedText(outputDialect, hasBom, newline, t)) else None
    {
      var prefix := if hasBom then BOM else "";
      ghost var head := if hasHeaders then [Names(ordered)] else [];
      WrittenIs(outputDialect, hasBom, newline, hasHeaders, ordered, rows, Sources());
      var start := ComposeHeader(prefix, ordered);
      if start.None? {
        WrittenNever(outputDialect, prefix, head, AllValues(rows, ordered, Sources()), newline);
        return None;
      }
      output := ComposeRows(start.value, ordered, prefix, head);
    }

    /** The header row, in a view that has one. */
    method ComposeHeader(prefix: string, ordered: seq<Column>) returns (start: Option<string>)
      requires ordered != []
      ensures start == Written(outputDialect, prefix, if hasHeaders then [Names(ordered)] else [], newline)
    {
      WrittenNone(outputDialect, prefix, newline);
      start := Some(prefix);
      if hasHeaders {
        var next := WriteRow(prefix, Names(ordered), outputDialect, newline);
        WrittenNext(outputDialect, prefix, [], prefix, Names(ordered), newline);
        assert [] + [Names(ordered)] == [Names(ordered)];
        start := if next.Ok? then Some(next.value) else None;
      }
    }

    method ComposeRow(text: string, i: nat, ordered: seq<Column>, ghost prefix: string, ghost before: seq<seq<string>>)
      returns (next: Option<string>)
      requires PartIndexed() && RowsOk(rows, columns, |index|) && i < |rows|
      requires Written(outputDialect, prefix, before, newline) == Some(text)
      ensures next == Written(outputDialect, prefix, before + [RowValues(rows[i], ordered, Sources())], newline)
    {
      var values := RowValuesForColumns(rows[i], ordered);
      var row := WriteRow(text, values, outputDialect, newline);
      WrittenNext(outputDialect, prefix, before, text, values, newline);
      next := if row.Ok? then Some(row.value) else None;
    }

    method ComposeRows(start: string, ordered: seq<Column>, ghost prefix: string, ghost head: seq<seq<string>>)
      returns (output: Option<string>)
      requires PartIndexed() && RowsOk(rows, columns, |index|)
      requires Written(outputDialect, prefix, head, newline) == Some(start)
      ensures output == Written(outputDialect, prefix, head + AllValues(rows, ordered, Sources()), newline)
    {
      ghost var shown := AllValues(rows, ordered, Sources());
      output := Some(start);
      var i := 0;
      SplitAt(head, shown, 0);
      while i < |rows| && output.Some?
        invariant 0 <= i <= |rows|
        invariant output == Written(outputDialect, prefix, head + shown[..i], newline)
      {
        SplitAt(head, shown, i);
        output := ComposeRow(output.value, i, ordered, prefix, head + shown[..i]);
        i := i + 1;
      }
      SplitAt(head, shown, i);
      if output.None? {
        WrittenNever(outputDialect, prefix, head + shown[..i], shown[i..], newline);
      }
    }

    /** Whether order and values allow saving. */
    ghost predicate CanSave(order: seq<string>)
      requires Ready()
      reads this
    {
      OrderFits(Names(columns), order) && AllWritable(outputDialect, WrittenRows(Reordered(View(), order)))
    }

    /** Writes the view over the file and loads it again. Unless the new file seems to begin with a byte order
        mark, it then shows the saved table: same header mode, same cells, columns in the requested order, which keeps
        them all precisely when columns of one name hold the same cells. A failure before the file is replaced changes
        nothing. After a failure to load it again the file is the saved one, and resetting the view shows the saved
        table under the same condition. Where loading broke off among the records, what can be saved next is the
        records read by then, through the columns as they were. */
    method Save(order: seq<string>, fault: SaveFault) returns (ok: bool)
      requires Ready() && (order != [] ==> headers == Names(columns))
      modifies this
      ensures ok <==>
        old(CanSave(order)) && Survives(fault, SavedText(old(outputDialect), old(hasBom), old(newline),
                                                         Reordered(old(View()), order)))
      ensures !old(CanSave(order)) || !(fault == NoFault || fault.ReloadFailed?) ==> unchanged(this)
      ensures old(CanSave(order)) ==>
        (KeepsColumns(old(View()), order) <==> order == [] || AllLikeFirst(old(View())))
      ensures ok ==>
        var t := Reordered(old(View()), order);
        && AsLoaded() && disk == SavedText(old(outputDialect), old(hasBom), old(newline), t)
        && (View() == t <==> !SeemsMarked(old(outputDialect), old(hasBom), t))
        && newline == old(newline) && hasHeaders == format.header
        && !modified && outputDialect == old(outputDialect)
      ensures old(CanSave(order)) && fault.ReloadFailed? && !ok ==>
        var t := Reordered(old(View()), order);
        && disk == SavedText(old(outputDialect), old(hasBom), old(newline), t) && Loadable()
        && (LoadedTable(disk, format.dialect, format.header, |columns|) == Some(t)
            <==> !SeemsMarked(old(outputDialect), old(hasBom), t))
      ensures old(CanSave(order)) && fault.ReloadFailed? && fault.at.ReadFailed? && !ok ==>
        var t := Reordered(old(View()), order);
        && Ready() && columns == old(columns) && hasHeaders == old(hasHeaders)
        && outputDialect == old(outputDialect) && newline == old(newline)
        && rows == UneditedRows(Fewer(fault.at.count, |t.rows|))
        && (!SeemsMarked(old(outputDialect), old(hasBom), t) ==> Sources() == t.rows && hasBom == old(hasBom))
    {
      if OrderFits(Names(columns), order) { ReorderedConserves(View(), order); }
      var text := SaveText(order, fault);
      if text.None? { return false; }
      ok := Replace(text.value, Reordered(View(), order), fault);
    }

    /** What is to be written over the file, unless the save fails before that. */
    method SaveText(order: seq<string>, fault: SaveFault) returns (text: Option<string>)
      requires Ready() && (order != [] ==> headers == Names(columns))
      ensures text.Some? <==> CanSave(order) && (fault == NoFault || fault.ReloadFailed?)
      ensures text.Some? ==> text.value == SavedText(outputDialect, hasBom, newline, Reordered(View(), order))
    {
      var fits := ValidateColumnOrder(order);
      if !fits { return None; }
      var ordered := OrderedColumns(order);
      TargetReordered(hasHeaders, columns, rows, Sources(), order);
      if fault == ChangedExternally { return None; }
      text := Compose(ordered);
      if fault == WriteFailed || fault == RenameFailed { return None; }
    }

    method Replace(text: string, ghost t: Table, fault: SaveFault) returns (ok: bool)
      requires Ready() && t.hasHeaders == hasHeaders && |t.names| == |columns|
      requires Savable(outputDialect, t) && text == SavedText(outputDialect, hasBom, newline, t)
      requires fault == NoFault || fault.ReloadFailed?
      modifies this
      ensures ok <==> Survives(fault, text)
      ensures disk == text
      ensures ok ==> AsLoaded() && !modified && outputDialect == old(outputDialect)
      ensures ok ==> (View() == t <==> !SeemsMarked(old(outputDialect), old(hasBom), t))
      ensures ok ==> newline == old(newline) && hasHeaders == format.header
      ensures !ok ==> Loadable()
      ensures !ok ==> (LoadedTable(disk, format.dialect, format.header, |columns|) == Some(t)
                       <==> !SeemsMarked(old(outputDialect), old(hasBom), t))
      ensures !ok && fault.at.ReadFailed? ==>
        && Ready() && columns == old(columns) && hasHeaders == old(hasHeaders)
        && outputDialect == old(outputDialect) && newline == old(newline)
        && rows == UneditedRows(Fewer(fault.at.count, |t.rows|))
        && (!SeemsMarked(old(outputDialect), old(hasBom), t) ==> Sources() == t.rows && hasBom == old(hasBom))
    {
      PutFile(text, t);
      if !Survives(fault, text) {
        BreakOff(fault.at);
        return false;
      }
      ok := Reload();
      ShowsAsLoaded(old(hasHeaders), |old(columns)|);
    }

    /** The file is replaced; it still has to be loaded. */
    method PutFile(text: string, ghost t: Table)
      requires Ready() && t.hasHeaders == hasHeaders && |t.names| == |columns|
      requires Savable(outputDialect, t) && text == SavedText(outputDialect, hasBom, newline, t)
      modifies this`disk, this`format
      ensures disk == text && format == Format(outputDialect, hasHeaders) && Loadable()
      ensures LoadedTable(disk, format.dialect, format.header, |columns|) == Some(t)
              <==> !SeemsMarked(outputDialect, hasBom, t)
      ensures KeepsTerminator()
      ensures |Sources()| == |t.rows| && Skip(format) + |t.rows| == |RecordsOf(disk, format)|
      ensures !SeemsMarked(outputDialect, hasBom, t) ==> Sources() == t.rows && hasBom == (BOM <= disk)
    {
      SaveLoads(outputDialect, hasBom, newline, t);
      SavedLoads(outputDialect, hasBom, newline, t);
      SavedNewline(outputDialect, hasBom, newline, t);
      SavedSources(outputDialect, hasBom, newline, t);
      disk := text;
      format := Format(outputDialect, hasHeaders);
    }

    /** Reading the terminator of the file gives the one there is. */
    ghost predicate KeepsTerminator()
      reads this
    {
      || IsEmptyFile(disk)
      || exists p :: FirstBreak(format.dialect, disk, BodyStart(disk), p) && TerminatorAt(disk, p) == newline
    }

    /** Loading that breaks off leaves some fields as they were and others as they are for the new file. */
    method BreakOff(at: ReloadFault)
      requires Loadable() && KeepsTerminator() && Skip(format) <= |RecordsOf(disk, format)|
      requires ColumnsOk(format.header, Names(columns), columns) && (at.ReadFailed? ==> !IsEmptyFile(disk))
      modifies this`fileSize, this`newline, this`hasHeaders, this`outputDialect, this`hasBom, this`headers, this`index,
               this`rows
      ensures IsTerminator(newline)
      ensures at.ReadFailed? ==>
        && Ready() && hasHeaders == format.header && outputDialect == format.dialect && newline == old(newline)
        && rows == UneditedRows(Fewer(at.count, |Sources()|)) && hasBom == (BOM <= disk)
    {
      if at == StatFailed { return; }
      fileSize := |disk|;
      if at == OpenFailed { return; }
      ReadSome(at.count);
    }

    /** Indexes no more than some records of a file. */
    method ReadSome(count: nat)
      requires ValidDialect(format.dialect) && fileSize == |disk| && IsTerminator(newline)
      requires KeepsTerminator() && !IsEmptyFile(disk) && Skip(format) <= |RecordsOf(disk, format)|
      requires ColumnsOk(format.header, Names(columns), columns)
      modifies this`newline, this`hasHeaders, this`outputDialect, this`hasBom, this`headers, this`index, this`rows
      ensures Ready() && hasHeaders == format.header && outputDialect == format.dialect && newline == old(newline)
      ensures rows == UneditedRows(Fewer(count, |Sources()|)) && hasBom == (BOM <= disk)
    {
      var width, firstWidth := IndexFile();
      SameTerminator(format.dialect, disk, old(newline), newline);
      FirstPart(disk, format, index, Fewer(count, |index|));
      index, rows := index[..Fewer(count, |index|)], rows[..Fewer(count, |index|)];
    }

    // ----- Runs -----

    method Perform(e: Edit) returns (ok: bool)
      requires Valid()
      modifies this
      ensures Valid() && Edited(e, ok)
    {
      match e {
        case EditCell(row, column, value) => ok := EditCell(row, column, value);
        case DeleteRow(row) => ok := DeleteRow(row);
        case InsertRow(row, values) => ok := InsertRow(row, values);
        case SwapRows(first, second) => ok := SwapRows(first, second);
        case InsertColumn(at, name, value) => ok := InsertColumn(at, name, value);
        case RenameColumn(column, name) => ok := RenameColumn(column, name);
        case DeleteColumn(column) => ok := DeleteColumn(column);
        case SetOptions(delimiter, quote, hasHeaders) => ok := SetCsvOptions(delimiter, quote, hasHeaders);
      }
    }
  }

  /** How often each name occurs. */
  method CountNames(names: seq<string>) returns (counts: map<string, nat>)
    ensures forall name :: CountOf(counts, name) == multiset(names)[name]
  {
    counts := map[];
    var i := 0;
    while i < |names|
      invariant 0 <= i <= |names|
      invariant forall name :: CountOf(counts, name) == multiset(names[..i])[name]
    {
      assert names[..i + 1] == names[..i] + [names[i]];
      counts := counts[names[i] := CountOf(counts, names[i]) + 1];
      i := i + 1;
    }
    assert names[..i] == names;
  }

  function CountOf(counts: map<string, nat>, name: string): nat {
    if name in counts then counts[name] else 0
  }

  lemma {:induction false} SubsetOfSameSize(a: multiset<string>, b: multiset<string>)
    requires a <= b && |a| == |b|
    ensures a == b
  {
    assert b == a + (b - a);
  }

  ghost function ColumnsInOrder(columns: seq<Column>, order: seq<string>): (ordered: seq<Column>)
    requires OrderFits(Names(columns), order)
    ensures |ordered| == |columns|
  {
    OrderNames(Names(columns), order);
    if order == [] then columns
    else seq(|order|, k requires 0 <= k < |order| => columns[IndexOf(Names(columns), order[k])])
  }

  /** The table a save writes: the given columns, labelled afresh without headers. */
  ghost function TargetOf(hasHeaders: bool, ordered: seq<Column>, rows: seq<LogicalRow>,
                          sources: seq<seq<string>>): Table {
    Table(hasHeaders, if hasHeaders then Names(ordered) else Labels(|ordered|), AllValues(rows, ordered, sources))
  }

  lemma {:induction false} TargetReordered(hasHeaders: bool, columns: seq<Column>, rows: seq<LogicalRow>,
                                           sources: seq<seq<string>>, order: seq<string>)
    requires OrderFits(Names(columns), order) && (!hasHeaders ==> Names(columns) == Labels(|columns|))
    ensures TargetOf(hasHeaders, ColumnsInOrder(columns, order), rows, sources)
         == Reordered(ViewOf(hasHeaders, columns, rows, sources), order)
  {
    OrderNames(Names(columns), order);
    var t := ViewOf(hasHeaders, columns, rows, sources);
    var ordered := ColumnsInOrder(columns, order);
    if order != [] {
      assert Names(ordered) == order;
      forall i | 0 <= i < |rows|
        ensures RowValues(rows[i], ordered, sources) == Permuted(t.rows[i], t.names, order)
      {
      }
    }
  }

  /** The text of some rows after a prefix, unless one of them cannot be written. */
  ghost function Written(d: Dialect, prefix: string, rows: seq<seq<string>>, newline: string): Option<string> {
    if forall k :: 0 <= k < |rows| ==> Writable(d, rows[k]) then Some(prefix + RowsText(d, rows, newline)) else None
  }

  lemma {:induction false} WrittenNone(d: Dialect, prefix: string, newline: string)
    ensures Written(d, prefix, [], newline) == Some(prefix)
  {
    assert prefix + RowsText(d, [], newline) == prefix;
  }

  lemma {:induction false} WrittenNext(d: Dialect, prefix: string, rows: seq<seq<string>>, text: string,
                                       row: seq<string>, newline: string)
    requires Written(d, prefix, rows, newline) == Some(text)
    ensures Written(d, prefix, rows + [row], newline)
         == if Writable(d, row) then Some(text + RowText(d, row, newline)) else None
  {
    var more := rows + [row];
    assert more[..|rows|] == rows && more[|rows|] == row;
    if Writable(d, row) {
      assert prefix + RowsText(d, more, newline) == prefix + RowsText(d, rows, newline) + RowText(d, row, newline);
    } else {
      assert !Writable(d, more[|rows|]);
    }
  }

  lemma {:induction false} WrittenNever(d: Dialect, prefix: string, rows: seq<seq<string>>, more: seq<seq<string>>,
                                        newline: string)
    requires Written(d, prefix, rows, newline) == None
    ensures Written(d, prefix, rows + more, newline) == None
  {
    var k :| 0 <= k < |rows| && !Writable(d, rows[k]);
    assert (rows + more)[k] == rows[k];
  }

  lemma {:induction false} SplitAt(head: seq<seq<string>>, rows: seq<seq<string>>, i: nat)
    requires i <= |rows|
    ensures head + rows[..0] == head && head + rows[..|rows|] == head + rows
    ensures head + rows[..i] + rows[i..] == head + rows
    ensures i < |rows| ==> head + rows[..i + 1] == head + rows[..i] + [rows[i]]
  {
  }

  lemma {:induction false} WrittenWide(hasHeaders: bool, ordered: seq<Column>, rows: seq<LogicalRow>,
                                       sources: seq<seq<string>>)
    requires ordered != []
    ensures var written := WrittenRows(TargetOf(hasHeaders, ordered, rows, sources));
      forall k :: 0 <= k < |written| ==> written[k] != []
  {
    var written := WrittenRows(TargetOf(hasHeaders, ordered, rows, sources));
    forall k | 0 <= k < |written| ensures |written[k]| == |ordered| {
      if hasHeaders && k > 0 {
        assert written[k] == AllValues(rows, ordered, sources)[k - 1];
      }
    }
  }

  lemma {:induction false} WrittenIs(d: Dialect, bom: bool, newline: string, hasHeaders: bool, ordered: seq<Column>,
                                     rows: seq<LogicalRow>, sources: seq<seq<string>>)
    requires ordered != []
    ensures var t, head := TargetOf(hasHeaders, ordered, rows, sources), if hasHeaders then [Names(ordered)] else [];
      Written(d, if bom then BOM else "", head + AllValues(rows, ordered, sources), newline)
      == if AllWritable(d, WrittenRows(t)) then Some(SavedText(d, bom, newline, t)) else None
  {
    WrittenWide(hasHeaders, ordered, rows, sources);
    assert [] + AllValues(rows, ordered, sources) == AllValues(rows, ordered, sources);
  }

  lemma {:induction false} SavedNewline(d: Dialect, bom: bool, newline: string, t: Table)
    requires ValidDialect(d) && IsTerminator(newline) && Savable(d, t)
    ensures var text := SavedText(d, bom, newline, t);
      IsEmptyFile(text) || exists p :: FirstBreak(d, text, BodyStart(text), p) && TerminatorAt(text, p) == newline
  {
    if WrittenRows(t) != [] {
      var p := SavedTerminator(d, bom, newline, t);
    }
  }

  /** The data records of a saved file are the rows of the table, or as many of them where it seems to be marked. */
  lemma {:induction false} SavedSources(d: Dialect, bom: bool, newline: string, t: Table)
    requires ValidDialect(d) && IsTerminator(newline) && Savable(d, t)
    ensures var text, format := SavedText(d, bom, newline, t), Format(d, t.hasHeaders);
      && |SourcesOf(text, format)| == |t.rows| && Skip(format) + |t.rows| == |RecordsOf(text, format)|
      && (!SeemsMarked(d, bom, t) ==> SourcesOf(text, format) == t.rows && bom == (BOM <= text))
  {
    if SeemsMarked(d, bom, t) {
      MarkedFields(d, newline, t);
      assert SavedText(d, bom, newline, t) == RowsText(d, WrittenRows(t), newline);
    } else {
      UnmarkedFields(d, bom, newline, t);
    }
    assert WrittenRows(t)[Skip(Format(d, t.hasHeaders))..] == t.rows;
  }

  /** Loading a file that shows a table once more shows it again. */
  lemma {:induction false} LoadedAgain(disk: string, d: Dialect, header: bool, known: nat)
    requires LoadedTable(disk, d, header, known).Some?
    ensures var t := LoadedTable(disk, d, header, known).value;
            LoadedTable(disk, d, t.hasHeaders, |t.names|) == Some(t)
  {
  }

  /** The number of columns that were known matters precisely for a file without records. */
  lemma {:induction false} KnownMatters(disk: string, d: Dialect, header: bool, known: nat, other: nat)
    requires LoadedTable(disk, d, header, known).Some? && LoadedTable(disk, d, header, other).Some?
    ensures LoadedTable(disk, d, header, known) == LoadedTable(disk, d, header, other)
            <==> AllFields(d, disk) != [] || known == other
  {
    EmptyScan(d, disk);
  }

  /** A file that could be indexed can be loaded again. */
  lemma {:induction false} ValidLoads(disk: string, format: Format, index: seq<nat>, fileSize: nat, hasBom: bool,
                                      known: nat)
    requires IndexOk(disk, format, index, fileSize, hasBom) && known > 0
    ensures LoadedTable(disk, format.dialect, format.header, known).Some?
  {
    EmptyScan(format.dialect, disk);
  }

  /** The columns of a file that was just loaded. */
  method ColumnsFor(headers: seq<string>) returns (columns: seq<Column>)
    ensures columns == LoadedColumns(headers)
  {
    columns := [];
    var i := 0;
    while i < |headers|
      invariant 0 <= i <= |headers| && columns == LoadedColumns(headers[..i])
    {
      columns := columns + [Column(headers[i], Some(i), "")];
      assert headers[..i + 1] == headers[..i] + [headers[i]];
      i := i + 1;
    }
    assert headers[..i] == headers;
  }

  function LoadedColumns(headers: seq<string>): (columns: seq<Column>)
    ensures |columns| == |headers| && Names(columns) == headers
  {
    seq(|headers|, i requires 0 <= i < |headers| => Column(headers[i], Some(i), ""))
  }

  function UneditedRows(count: nat): (rows: seq<LogicalRow>)
    ensures |rows| == count
  {
    seq(count, i requires 0 <= i => LogicalRow(Some(i), map[]))
  }

  /** The table of a file, by what its records are. */
  lemma {:induction false} LoadedShape(disk: string, format: Format, known: nat)
    ensures var rows, d := AllFields(format.dialect, disk), format.dialect;
            if rows == [] then
              IsEmptyFile(disk) && (format.header || known == 0 ==> LoadedTable(disk, d, format.header, known).None?)
            else
              var headers := if format.header then rows[0] else Labels(MaxWidth(rows));
              && |headers| > 0
              && (!(format.header && Ragged(rows)) ==>
                    LoadedTable(disk, d, format.header, known)
                    == Some(Table(format.header, headers, PaddedRows(SourcesOf(disk, format), |headers|))))
  {
    EmptyScan(format.dialect, disk);
    RowsNotEmpty(format.dialect, disk);
  }

  /** What the widths of the records tell about the file. */
  lemma {:induction false} WidthsTell(disk: string, format: Format, known: nat, width: nat, firstWidth: nat)
    requires var records := RecordsOf(disk, format);
      && width == MaxWidth(FieldsOf(records)) && firstWidth == (if records == [] then 0 else |records[0].fields|)
    ensures RecordsOf(disk, format) == [] <==> IsEmptyFile(disk)
    ensures width > firstWidth <==> Ragged(AllFields(format.dialect, disk))
    ensures width > firstWidth ==> !IsEmptyFile(disk)
    ensures IsEmptyFile(disk) && (format.header || known == 0) ==>
              LoadedTable(disk, format.dialect, format.header, known) == None
  {
    EmptyScan(format.dialect, disk);
  }

  /** The table of a file without records: the known columns, under labels. */
  lemma {:induction false} EmptyFileTable(disk: string, format: Format, known: nat)
    requires ValidDialect(format.dialect) && IsEmptyFile(disk) && RecordsOf(disk, format) == []
    requires !format.header && known > 0
    ensures IndexOk(disk, format, [], |disk|, disk == BOM) && !Ragged(AllFields(format.dialect, disk))
    ensures LoadedTable(disk, format.dialect, false, known)
         == Some(Table(false, Labels(known), PaddedRows(SourcesOf(disk, format), known)))
  {
    assert SourcesOf(disk, format) == [] && AllFields(format.dialect, disk) == [];
    assert PaddedRows([], known) == [];
  }

  /** The table under the header or the labels that were chosen; without any there is none. */
  lemma {:induction false} ShownTable(disk: string, format: Format, known: nat, headers: seq<string>, width: nat,
                                      firstWidth: nat)
    requires var records := RecordsOf(disk, format);
      && width == MaxWidth(FieldsOf(records)) && firstWidth == (if records == [] then 0 else |records[0].fields|)
      && headers == (if !format.header then Labels(width) else if records == [] then [] else records[0].fields)
      && (records == [] ==> IsEmptyFile(disk) && (format.header || known == 0))
    requires format.header ==> width <= firstWidth
    ensures LoadedTable(disk, format.dialect, format.header, known) ==
      if headers == [] then None
      else Some(Table(format.header, headers, PaddedRows(SourcesOf(disk, format), |headers|)))
    ensures Ragged(AllFields(format.dialect, disk)) <==> width > firstWidth
  {
    LoadedShape(disk, format, known);
  }

  /** An overlay without edits shows the file, with short records padded. */
  lemma {:induction false} LoadedView(hasHeaders: bool, headers: seq<string>, sources: seq<seq<string>>)
    ensures ViewOf(hasHeaders, LoadedColumns(headers), UneditedRows(|sources|), sources)
         == Table(hasHeaders, headers, PaddedRows(sources, |headers|))
    ensures RowsOk(UneditedRows(|sources|), LoadedColumns(headers), |sources|) && DefaultsEmpty(LoadedColumns(headers))
  {
    forall i | 0 <= i < |sources|
      ensures RowValues(UneditedRows(|sources|)[i], LoadedColumns(headers), sources) == Padded(sources[i], |headers|)
    {
    }
  }

  function DataStart(records: seq<Record>, header: bool): (skip: nat)
    ensures skip <= |records|
  {
    if header && records != [] then 1 else 0
  }

  /** Indexes every data record and measures the widest and the first one. */
  method IndexRecords(records: seq<Record>, header: bool)
    returns (index: seq<nat>, rows: seq<LogicalRow>, width: nat, firstWidth: nat)
    ensures Offsets(records[DataStart(records, header)..], index)
    ensures rows == UneditedRows(|index|)
    ensures firstWidth == if records == [] then 0 else |records[0].fields|
    ensures width == MaxWidth(FieldsOf(records))
  {
    var skip := DataStart(records, header);
    var data := records[skip..];
    ghost var fields := FieldsOf(data);
    index, rows := [], [];
    width := if skip == 1 then |records[0].fields| else 0;
    firstWidth := width;
    var firstRecord := true;
    ghost var start := width;
    var i := 0;
    while i < |data|
      invariant 0 <= i <= |data| && Offsets(data[..i], index) && rows == UneditedRows(i)
      invariant firstRecord <==> i == 0
      invariant firstWidth == if skip == 1 || i > 0 then |records[0].fields| else 0
      invariant width == Wider(start, MaxWidth(fields[..i]))
    {
      var row := data[i];
      WidthNext(start, fields, i, width);
      OffsetsNext(data, index, i);
      if !header && firstRecord { firstWidth := |row.fields|; }
      firstRecord := false;
      width := Wider(width, |row.fields|);
      index := index + [row.offset];
      rows := rows + [LogicalRow(Some(i), map[])];
      i := i + 1;
    }
    assert data[..i] == data && fields[..i] == fields;
    WidthOfAll(records, skip);
  }

  /** The first record, taken as a header, counts for the width as well. */
  lemma {:induction false} WidthOfAll(records: seq<Record>, skip: nat)
    requires skip <= 1 && skip <= |records|
    ensures MaxWidth(FieldsOf(records))
         == Wider(if skip == 1 then |records[0].fields| else 0, MaxWidth(FieldsOf(records[skip..])))
  {
    if skip == 1 {
      MaxWidthFirst(FieldsOf(records));
      assert FieldsOf(records)[1..] == FieldsOf(records[1..]);
    } else {
      assert records[0..] == records;
    }
  }

  lemma {:induction false} OffsetsNext(records: seq<Record>, index: seq<nat>, i: nat)
    requires i < |records| && Offsets(records[..i], index)
    ensures Offsets(records[..i + 1], index + [records[i].offset])
    ensures UneditedRows(i + 1) == UneditedRows(i) + [LogicalRow(Some(i), map[])]
  {
  }

  lemma {:induction false} WidthNext(start: nat, fields: seq<seq<string>>, i: nat, width: nat)
    requires i < |fields| && width == Wider(start, MaxWidth(fields[..i]))
    ensures Wider(width, |fields[i]|) == Wider(start, MaxWidth(fields[..i + 1]))
  {
    MaxWidthNext(fields, i);
  }

  ghost predicate Offsets(records: seq<Record>, index: seq<nat>) {
    |index| == |records| && forall k :: 0 <= k < |index| ==> index[k] == records[k].offset
  }

  lemma {:induction false} MaxWidthNext(rows: seq<seq<string>>, i: nat)
    requires i < |rows|
    ensures MaxWidth(rows[..i + 1]) == Wider(MaxWidth(rows[..i]), |rows[i]|)
  {
    assert rows[..i + 1][..i] == rows[..i];
  }

  method NamedCells(names: seq<string>, values: seq<string>) returns (cells: map<string, string>)
    requires |values| == |names|
    ensures cells == CellsFor(names, values, |names|)
  {
    cells := map[];
    var i := 0;
    while i < |names|
      invariant 0 <= i <= |names| && cells == CellsFor(names, values, i)
    {
      cells := cells[names[i] := values[i]];
      i := i + 1;
    }
  }

  method ResizeRows(rows: seq<seq<string>>, width: nat) returns (page: seq<seq<string>>)
    ensures |page| == |rows| && forall k :: 0 <= k < |rows| ==> page[k] == Resized(rows[k], width)
  {
    page := rows;
    var i := 0;
    while i < |page|
      invariant 0 <= i <= |page| == |rows|
      invariant forall k :: 0 <= k < i ==> page[k] == Resized(rows[k], width)
      invariant forall k :: i <= k < |page| ==> page[k] == rows[k]
    {
      if |page[i]| < width { page := page[i := page[i] + seq(width - |page[i]|, _ => "")]; }
      i := i + 1;
    }
  }

  /** The rows of `all` from `offset` on, at most `limit` of them. */
  function PageOf(all: seq<seq<string>>, offset: nat, limit: nat): (page: seq<seq<string>>)
    ensures |page| == if offset >= |all| then 0 else if limit < |all| - offset then limit else |all| - offset
    ensures forall k :: 0 <= k < |page| ==> page[k] == all[offset + k]
  {
    if offset >= |all| then [] else all[offset..offset + if limit < |all| - offset then limit else |all| - offset]
  }

  /** The first `count` records of a buffer. */
  method ParsePage(d: Dialect, buffer: string, count: nat) returns (page: seq<seq<string>>)
    requires 0 < count <= |FieldsOf(Scan(d, buffer, 0))|
    ensures page == FieldsOf(Scan(d, buffer, 0))[..count]
  {
    var pageRows := FieldsOf(Scan(d, buffer, 0));
    page := [];
    var i := 0;
    while i < |pageRows|
      invariant 0 <= i < |pageRows| && i < count && page == pageRows[..i]
    {
      page := page + [pageRows[i]];
      i := i + 1;
      if |page| == count { break; }
    }
  }

  lemma {:induction false} SourceCount(disk: string, format: Format, index: seq<nat>, fileSize: nat, hasBom: bool)
    requires IndexOk(disk, format, index, fileSize, hasBom)
    ensures |SourcesOf(disk, format)| == |index|
  {
  }

  lemma {:induction false} PartCount(disk: string, format: Format, index: seq<nat>, fileSize: nat, hasBom: bool)
    requires PartOk(disk, format, index, fileSize, hasBom)
    ensures |index| <= |SourcesOf(disk, format)|
    ensures IndexOk(disk, format, index, fileSize, hasBom) ==>
              SourcesOf(disk, format)[..|index|] == SourcesOf(disk, format)
  {
  }

  lemma {:induction false} IndexIsPart(disk: string, format: Format, index: seq<nat>, fileSize: nat, hasBom: bool)
    requires IndexOk(disk, format, index, fileSize, hasBom)
    ensures PartOk(disk, format, index, fileSize, hasBom)
  {
    var records, skip := RecordsOf(disk, format), Skip(format);
    assert records[skip..skip + |index|] == records[skip..];
  }

  /** The beginning of an index, over rows without edits. */
  lemma {:induction false} FirstPart(disk: string, format: Format, index: seq<nat>, n: nat)
    requires ValidDialect(format.dialect) && Skip(format) <= |RecordsOf(disk, format)| && n <= |index|
    requires Offsets(RecordsOf(disk, format)[Skip(format)..], index)
    ensures PartOk(disk, format, index[..n], |disk|, BOM <= disk) && |SourcesOf(disk, format)| == |index|
    ensures UneditedRows(|index|)[..n] == UneditedRows(n)
    ensures forall columns :: RowsOk(UneditedRows(n), columns, n)
  {
  }

  lemma {:induction false} SameTerminator(d: Dialect, disk: string, before: string, after: string)
    requires FirstTerminator(d, disk, after)
    requires exists p :: FirstBreak(d, disk, BodyStart(disk), p) && TerminatorAt(disk, p) == before
    ensures after == before
  {
  }

  /** Where the bytes of some records end. */
  function SliceEnd(index: seq<nat>, fileSize: nat, after: nat): nat {
    if after < |index| then index[after] else fileSize
  }

  /** The record a slice of the file ends before: the next one that is indexed, or none. */
  function SliceUpTo(records: seq<Record>, skip: nat, index: seq<nat>, after: nat): nat {
    if after < |index| then skip + after else |records|
  }

  lemma {:induction false} SliceEnds(records: seq<Record>, skip: nat, index: seq<nat>, size: nat, offset: nat,
                                     count: nat)
    requires skip + |index| <= |records| && Offsets(records[skip..skip + |index|], index)
    requires offset < |index| && offset + count <= |index|
    ensures var to := SliceUpTo(records, skip, index, offset + count);
            && skip + offset + count <= to <= |records|
            && index[offset] == records[skip + offset].offset
            && SliceEnd(index, size, offset + count) == OffsetOrEnd(records, to, size)
  {
  }

  lemma {:induction false} FieldsOfSlice(records: seq<Record>, skip: nat, offset: nat, count: nat, to: nat, n: nat)
    requires skip + offset + count <= to <= |records| && 0 < count && offset + count <= n && skip + n <= |records|
    ensures FieldsOf(records[skip + offset..to])[..count] == PageOf(FieldsOf(records)[skip..][..n], offset, count)
  {
  }

  lemma {:induction false} SliceFields(d: Dialect, disk: string, skip: nat, offset: nat, count: nat, to: nat, n: nat,
                                       lo: nat, hi: nat)
    requires var records, from := Scan(d, disk, BodyStart(disk)), skip + offset;
      && from + count <= to <= |records| && 0 < count && offset + count <= n && skip + n <= |records|
      && lo == records[from].offset && hi == OffsetOrEnd(records, to, |disk|)
    ensures lo <= hi <= |disk| && count <= |FieldsOf(Scan(d, disk[lo..hi], 0))|
    ensures FieldsOf(Scan(d, disk[lo..hi], 0))[..count]
         == PageOf(FieldsOf(Scan(d, disk, BodyStart(disk)))[skip..][..n], offset, count)
  {
    var records, from := Scan(d, disk, BodyStart(disk)), skip + offset;
    SliceRecords(d, disk, BodyStart(disk), from, to);
    FieldsOfSlice(records, skip, offset, count, to, n);
  }

  /** The bytes from one indexed offset on begin with exactly the data records from there on, and between two of them
      there are no others. */
  lemma {:induction false} SourceSlice(disk: string, format: Format, index: seq<nat>, fileSize: nat, hasBom: bool,
                                       offset: nat, count: nat)
    requires PartOk(disk, format, index, fileSize, hasBom) && offset + count <= |index| && 0 < count
    ensures index[offset] <= SliceEnd(index, fileSize, offset + count) <= |disk|
    ensures |index| <= |SourcesOf(disk, format)|
    ensures var hi := SliceEnd(index, fileSize, offset + count);
            var fields := FieldsOf(Scan(format.dialect, disk[index[offset]..hi], 0));
            count <= |fields| && fields[..count] == PageOf(SourcesOf(disk, format)[..|index|], offset, count)
  {
    var records, skip := RecordsOf(disk, format), Skip(format);
    var end := SliceEnd(index, fileSize, offset + count);
    SliceEnds(records, skip, index, fileSize, offset, count);
    PartCount(disk, format, index, fileSize, hasBom);
    SliceFields(format.dialect, disk, skip, offset, count, SliceUpTo(records, skip, index, offset + count), |index|,
                index[offset], end);
  }

  /** Unedited rows of consecutive records. */
  ghost predicate Consecutive(rows: seq<LogicalRow>, first: nat) {
    forall k :: 0 <= k < |rows| ==> rows[k] == LogicalRow(Some(first + k), map[])
  }

  /** A row made at least `width` wide. */
  function Resized(row: seq<string>, width: nat): (r: seq<string>)
    ensures |r| >= width && forall i :: 0 <= i < width ==> r[i] == if i < |row| then row[i] else ""
  {
    if |row| < width then row + seq(width - |row|, _ => "") else row
  }

  /** Where every column shows its own source column, an unedited row shows its record, made wide enough. */
  lemma {:induction false} DirectRow(columns: seq<Column>, sources: seq<seq<string>>, n: nat)
    requires n < |sources| && DefaultsEmpty(columns)
    requires forall k :: 0 <= k < |columns| ==> columns[k].sourceIndex == Some(k)
    ensures Resized(sources[n], |columns|)[..|columns|] == RowValues(LogicalRow(Some(n), map[]), columns, sources)
  {
  }

  lemma {:induction false} ConsecutiveRows(rows: seq<LogicalRow>, columns: seq<Column>, records: nat, offset: nat,
                                           count: nat, first: nat)
    requires RowsOk(rows, columns, records) && 0 < count && offset + count <= |rows|
    requires Consecutive(rows[offset..offset + count], first)
    ensures first + count <= records
  {
    var shown := rows[offset..offset + count];
    assert shown[count - 1] == rows[offset + count - 1];
  }

  /** A page cut as one slice shows each row's values, up to the columns there are. */
  lemma {:induction false} DirectRows(columns: seq<Column>, sources: seq<seq<string>>, rows: seq<LogicalRow>,
                                      offset: nat, count: nat, first: nat, page: seq<seq<string>>)
    requires DefaultsEmpty(columns) && forall k :: 0 <= k < |columns| ==> columns[k].sourceIndex == Some(k)
    requires offset + count <= |rows| && first + count <= |sources| && |page| == count
    requires Consecutive(rows[offset..offset + count], first)
    requires forall k :: 0 <= k < count ==> page[k] == Resized(sources[first + k], |columns|)
    ensures forall k :: 0 <= k < count ==>
              |columns| <= |page[k]| && page[k][..|columns|] == AllValues(rows, columns, sources)[offset + k]
  {
    forall k | 0 <= k < count
      ensures |columns| <= |page[k]| && page[k][..|columns|] == AllValues(rows, columns, sources)[offset + k]
    {
      ConsecutiveRow(rows, offset, count, first, k);
      DirectRow(columns, sources, first + k);
      ShownRow(rows, columns, sources, offset + k);
    }
  }

  lemma {:induction false} ConsecutiveRow(rows: seq<LogicalRow>, offset: nat, count: nat, first: nat, k: nat)
    requires offset + count <= |rows| && k < count && Consecutive(rows[offset..offset + count], first)
    ensures rows[offset + k] == LogicalRow(Some(first + k), map[])
  {
    assert rows[offset..offset + count][k] == rows[offset + k];
  }

  lemma {:induction false} ShownRow(rows: seq<LogicalRow>, columns: seq<Column>, sources: seq<seq<string>>, i: nat)
    requires i < |rows|
    ensures AllValues(rows, columns, sources)[i] == RowValues(rows[i], columns, sources)
  {
  }

  /** The values of consecutive rows are rows of the view. */
  lemma {:induction false} ShownRows(rows: seq<LogicalRow>, columns: seq<Column>, sources: seq<seq<string>>,
                                     offset: nat, page: seq<seq<string>>)
    requires offset + |page| <= |rows|
    requires forall k :: 0 <= k < |page| ==> page[k] == RowValues(rows[offset + k], columns, sources)
    ensures forall k :: 0 <= k < |page| ==>
              |columns| <= |page[k]| && page[k][..|columns|] == AllValues(rows, columns, sources)[offset + k]
  {
  }

  /** Whether a row can serve as column names. */
  method UsableNames(names: seq<string>) returns (usable: bool)
    ensures usable <==> Unique(names) && "" !in names
  {
    var seen: set<string> := {};
    var i := 0;
    while i < |names|
      invariant 0 <= i <= |names| && seen == set k | 0 <= k < i :: names[k]
      invariant "" !in names[..i] && Unique(names[..i])
    {
      if names[i] == "" || names[i] in seen {
        return false;
      }
      seen := seen + {names[i]};
      i := i + 1;
    }
    assert names[..|names|] == names;
    return true;
  }

  lemma {:induction false} FirstIndex(names: seq<string>, name: string, i: nat)
    requires i < |names| && names[i] == name && name !in names[..i]
    ensures IndexOf(names, name) == i
  {
    if i > 0 {
      assert names[0] in names[..i];
      assert names[1..][..i - 1] == names[1..i];
      assert forall n :: n in names[1..i] ==> n in names[..i];
      FirstIndex(names[1..], name, i - 1);
    }
  }
}

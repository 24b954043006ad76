/** Every edit of the overlay is the plain edit of the table seen through it. */
module OverlayEdits {
  import opened Outcomes
  import opened Overlay
  import opened PlainTable
  import opened SyntheticLabels

  /** The table seen through an overlay. */
  ghost function ViewOf(hasHeaders: bool, columns: seq<Column>, rows: seq<LogicalRow>,
                        sources: seq<seq<string>>): (t: Table)
    ensures t.Rectangular()
  {
    Table(hasHeaders, Names(columns), AllValues(rows, columns, sources))
  }

  ghost predicate RowsOk(rows: seq<LogicalRow>, columns: seq<Column>, records: nat) {
    && CellsLive(rows, columns)
    && (forall i :: 0 <= i < |rows| && rows[i].sourceRow.Some? ==> rows[i].sourceRow.value < records)
  }

  /** A column that comes from the file has no other default than the empty value of a short record. */
  ghost predicate DefaultsEmpty(columns: seq<Column>) {
    forall i :: 0 <= i < |columns| && columns[i].sourceIndex.Some? ==> columns[i].defaultValue == ""
  }

  ghost predicate ColumnsOk(hasHeaders: bool, headers: seq<string>, columns: seq<Column>) {
    && headers == Names(columns) && columns != []
    && DefaultsEmpty(columns)
    && (!hasHeaders ==> headers == Labels(|columns|))
  }

  lemma {:induction false} EditCellView(hasHeaders: bool, columns: seq<Column>, rows: seq<LogicalRow>,
                                        sources: seq<seq<string>>, records: nat, locked: bool, row: nat,
                                        column: string, value: string)
    requires RowsOk(rows, columns, records) && row < |rows| && column in Names(columns)
    ensures var after := rows[row := rows[row].(cells := rows[row].cells[column := value])];
            && RowsOk(after, columns, records)
            && (Unique(Names(columns)) ==> (
                  Some(ViewOf(hasHeaders, columns, after, sources))
                  == Apply(ViewOf(hasHeaders, columns, rows, sources), locked, EditCell(row, column, value))))
  {
    var after := rows[row := rows[row].(cells := rows[row].cells[column := value])];
    var k := IndexOf(Names(columns), column);
    assert forall i :: 0 <= i < |rows| ==> RowLive(rows[i], columns);
    if Unique(Names(columns)) {
      EditCellValues(rows[row], columns, sources, k, value);
      var values := AllValues(rows, columns, sources);
      assert AllValues(after, columns, sources) == values[row := values[row][k := value]];
    }
  }

  lemma {:induction false} DeleteRowView(hasHeaders: bool, columns: seq<Column>, rows: seq<LogicalRow>,
                                         sources: seq<seq<string>>, records: nat, locked: bool, row: nat)
    requires RowsOk(rows, columns, records) && row < |rows|
    ensures RowsOk(RemoveAt(rows, row), columns, records)
    ensures Some(ViewOf(hasHeaders, columns, RemoveAt(rows, row), sources))
         == Apply(ViewOf(hasHeaders, columns, rows, sources), locked, DeleteRow(row))
  {
    RemoveAtElements(rows, row);
    RemoveRowValues(rows, columns, sources, row);
    assert forall i :: 0 <= i < |rows| ==> RowLive(rows[i], columns);
  }

  lemma {:induction false} InsertRowView(hasHeaders: bool, columns: seq<Column>, rows: seq<LogicalRow>,
                                         sources: seq<seq<string>>, records: nat, locked: bool, row: nat,
                                         values: seq<string>)
    requires RowsOk(rows, columns, records) && row <= |rows| && |values| == |columns|
    ensures var inserted := LogicalRow(None, CellsFor(Names(columns), values, |values|));
            && RowsOk(InsertAt(rows, row, inserted), columns, records)
            && (Unique(Names(columns)) ==> (
                  Some(ViewOf(hasHeaders, columns, InsertAt(rows, row, inserted), sources))
                  == Apply(ViewOf(hasHeaders, columns, rows, sources), locked, InsertRow(row, values))))
  {
    var inserted := LogicalRow(None, CellsFor(Names(columns), values, |values|));
    InsertRowOk(columns, rows, records, row, values);
    if Unique(Names(columns)) {
      InsertRowValues(columns, values, sources);
      AllValuesInsert(columns, rows, sources, row, inserted);
    }
  }

  lemma {:induction false} InsertRowOk(columns: seq<Column>, rows: seq<LogicalRow>, records: nat, row: nat,
                                       values: seq<string>)
    requires RowsOk(rows, columns, records) && row <= |rows| && |values| == |columns|
    ensures RowsOk(InsertAt(rows, row, LogicalRow(None, CellsFor(Names(columns), values, |values|))), columns, records)
  {
    var inserted := LogicalRow(None, CellsFor(Names(columns), values, |values|));
    CellsForLookup(Names(columns), values, |values|);
    InsertAtElements(rows, row, inserted);
    assert RowLive(inserted, columns);
    assert forall i :: 0 <= i < |rows| ==> RowLive(rows[i], columns);
  }

  lemma {:induction false} AllValuesInsert(columns: seq<Column>, rows: seq<LogicalRow>, sources: seq<seq<string>>,
                                           at: nat, row: LogicalRow)
    requires at <= |rows|
    ensures AllValues(InsertAt(rows, at, row), columns, sources)
         == InsertAt(AllValues(rows, columns, sources), at, RowValues(row, columns, sources))
  {
    InsertAtElements(rows, at, row);
    InsertAtElements(AllValues(rows, columns, sources), at, RowValues(row, columns, sources));
  }

  lemma {:induction false} InsertAtElements<T>(s: seq<T>, at: nat, x: T)
    requires at <= |s|
    ensures forall i :: 0 <= i <= |s| ==>
      InsertAt(s, at, x)[i] == (if i < at then s[i] else if i == at then x else s[i - 1])
  {
    var after := InsertAt(s, at, x);
    forall i | 0 <= i <= |s| ensures after[i] == (if i < at then s[i] else if i == at then x else s[i - 1]) {
      if i > at { assert after[i] == s[at..][i - at - 1]; }
    }
  }

  lemma {:induction false} SwapRowsView(hasHeaders: bool, columns: seq<Column>, rows: seq<LogicalRow>,
                                        sources: seq<seq<string>>, records: nat, locked: bool, first: nat, second: nat)
    requires RowsOk(rows, columns, records) && first < |rows| && second < |rows|
    ensures var after := rows[first := rows[second]][second := rows[first]];
            && RowsOk(after, columns, records)
            && Some(ViewOf(hasHeaders, columns, after, sources))
               == Apply(ViewOf(hasHeaders, columns, rows, sources), locked, SwapRows(first, second))
  {
    var after := rows[first := rows[second]][second := rows[first]];
    var values := AllValues(rows, columns, sources);
    assert forall i :: 0 <= i < |rows| ==> RowLive(rows[i], columns);
    assert AllValues(after, columns, sources) == values[first := values[second]][second := values[first]];
  }

  /** A headerless view labels its columns afresh. */
  lemma {:induction false} RelabelledView(columns: seq<Column>, rows: seq<LogicalRow>, sources: seq<seq<string>>,
                                          records: nat)
    requires RowsOk(rows, columns, records)
    ensures var labels := Labels(|columns|);
            && Unique(labels)
            && (DefaultsEmpty(columns) ==> DefaultsEmpty(RelabelColumns(columns, labels)))
            && RowsOk(RelabelRows(rows, columns, labels), RelabelColumns(columns, labels), records)
            && ViewOf(false, RelabelColumns(columns, labels), RelabelRows(rows, columns, labels), sources)
               == Table(false, labels, AllValues(rows, columns, sources))
  {
    LabelsUnique(|columns|);
    RelabelValues(rows, columns, Labels(|columns|), sources);
  }

  lemma {:induction false} InsertColumnView(hasHeaders: bool, columns: seq<Column>, rows: seq<LogicalRow>,
                                            sources: seq<seq<string>>, records: nat, locked: bool, at: nat,
                                            key: string, name: string, value: string)
    requires RowsOk(rows, columns, records) && at <= |columns| && key !in Names(columns)
    requires hasHeaders ==> key == name && name != ""
    ensures var wider := InsertAt(columns, at, Column(key, None, value));
            var after := Apply(ViewOf(hasHeaders, columns, rows, sources), locked, InsertColumn(at, name, value));
            && RowsOk(rows, wider, records) && (DefaultsEmpty(columns) ==> DefaultsEmpty(wider))
            && after == Some(Table(hasHeaders, if hasHeaders then Names(wider) else Labels(|wider|),
                                   AllValues(rows, wider, sources)))
  {
    var c := Column(key, None, value);
    NamesInserted(columns, at, c);
    InsertColumnRows(rows, columns, sources, at, c);
    InsertAtElements(columns, at, c);
  }

  lemma {:induction false} RenameColumnView(columns: seq<Column>, rows: seq<LogicalRow>, moved: seq<LogicalRow>,
                         sources: seq<seq<string>>, records: nat, locked: bool, column: string, name: string)
    requires RowsOk(rows, columns, records) && column in Names(columns) && name !in Names(columns) && name != ""
    requires |moved| == |rows| && forall i :: 0 <= i < |rows| ==> moved[i] == MovedCell(rows[i], column, name)
    ensures var k := IndexOf(Names(columns), column);
            var renamed := columns[k := columns[k].(name := name)];
            && RowsOk(moved, renamed, records) && (DefaultsEmpty(columns) ==> DefaultsEmpty(renamed))
            && (Unique(Names(columns)) ==> (
                  Some(ViewOf(true, renamed, moved, sources))
                  == Apply(ViewOf(true, columns, rows, sources), locked, RenameColumn(column, name))))
            && (Unique(Names(columns)) ==> Unique(Names(renamed)))
  {
    RenameColumnRows(rows, moved, columns, sources, IndexOf(Names(columns), column), name);
    if Unique(Names(columns)) { RenamedUnique(columns, IndexOf(Names(columns), column), name); }
  }

  lemma {:induction false} RenamedUnique(columns: seq<Column>, k: nat, name: string)
    requires k < |columns| && name !in Names(columns) && Unique(Names(columns))
    ensures Unique(Names(columns[k := columns[k].(name := name)]))
  {
    var renamed := columns[k := columns[k].(name := name)];
    forall i, j | 0 <= i < j < |renamed| ensures Names(renamed)[i] != Names(renamed)[j] {
      assert Names(columns)[i] == columns[i].name && Names(columns)[j] == columns[j].name;
    }
  }

  lemma {:induction false} DeleteColumnView(hasHeaders: bool, columns: seq<Column>, rows: seq<LogicalRow>,
                                            erased: seq<LogicalRow>, sources: seq<seq<string>>, records: nat,
                                            locked: bool, column: string)
    requires RowsOk(rows, columns, records) && column in Names(columns) && |columns| > 1
    requires |erased| == |rows|
    requires forall i :: 0 <= i < |rows| ==> erased[i] == rows[i].(cells := rows[i].cells - {column})
    ensures var narrower := RemoveAt(columns, IndexOf(Names(columns), column));
            var after := Apply(ViewOf(hasHeaders, columns, rows, sources), locked, DeleteColumn(column));
            && RowsOk(erased, narrower, records) && (DefaultsEmpty(columns) ==> DefaultsEmpty(narrower))
            && (Unique(Names(columns)) ==>
                  Unique(Names(narrower)) &&
                  after == Some(Table(hasHeaders, if hasHeaders then Names(narrower) else Labels(|narrower|),
                                      AllValues(erased, narrower, sources))))
  {
    DeleteColumnRows(rows, erased, columns, sources, IndexOf(Names(columns), column));
    RemoveAtElements(columns, IndexOf(Names(columns), column));
    if Unique(Names(columns)) {
      RemoveAtUnique(Names(columns), IndexOf(Names(columns), column));
    }
  }

  lemma {:induction false} HeadersOffView(columns: seq<Column>, rows: seq<LogicalRow>, sources: seq<seq<string>>,
                                          records: nat)
    requires RowsOk(rows, columns, records)
    ensures var first := LogicalRow(None, CellsFor(Names(columns), Names(columns), |columns|));
            && RowsOk([first] + rows, columns, records)
            && SwitchHeaders(ViewOf(true, columns, rows, sources), false)
               == Some(Table(false, Labels(|columns|), AllValues([first] + rows, columns, sources)))
  {
    var first := LogicalRow(None, CellsFor(Names(columns), Names(columns), |columns|));
    InsertRowOk(columns, rows, records, 0, Names(columns));
    InsertFirst(rows, first);
    HeaderRowView(columns, rows, sources, first);
  }

  lemma {:induction false} HeaderRowView(columns: seq<Column>, rows: seq<LogicalRow>, sources: seq<seq<string>>,
                                         first: LogicalRow)
    requires first == LogicalRow(None, CellsFor(Names(columns), Names(columns), |columns|))
    ensures AllValues([first] + rows, columns, sources) == [Names(columns)] + AllValues(rows, columns, sources)
  {
    HeaderRowValues(columns, sources);
    AllValuesInsert(columns, rows, sources, 0, first);
    InsertFirst(rows, first);
    InsertFirst(AllValues(rows, columns, sources), Names(columns));
  }

  lemma {:induction false} InsertFirst<T>(s: seq<T>, x: T)
    ensures InsertAt(s, 0, x) == [x] + s
  {
  }

  lemma {:induction false} HeadersOnView(columns: seq<Column>, rows: seq<LogicalRow>, sources: seq<seq<string>>,
                                         records: nat, names: seq<string>)
    requires RowsOk(rows, columns, records) && rows != [] && names == RowValues(rows[0], columns, sources)
    requires Unique(names) && "" !in names
    ensures RowsOk(RelabelRows(rows[1..], columns, names), RelabelColumns(columns, names), records)
    ensures DefaultsEmpty(columns) ==> DefaultsEmpty(RelabelColumns(columns, names))
    ensures SwitchHeaders(ViewOf(false, columns, rows, sources), true)
         == Some(ViewOf(true, RelabelColumns(columns, names), RelabelRows(rows[1..], columns, names), sources))
  {
    assert AllValues(rows[1..], columns, sources) == AllValues(rows, columns, sources)[1..];
    RelabelValues(rows[1..], columns, names, sources);
  }
}

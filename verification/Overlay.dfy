/** The overlay: columns that may come from the file, rows that may come from the file, and sparse cells
    keyed by column name that win over both. */
module Overlay {
  import opened Outcomes
  import opened PlainTable
  import opened SyntheticLabels

  datatype Column = Column(name: string, sourceIndex: Option<nat>, defaultValue: string)

  datatype LogicalRow = LogicalRow(sourceRow: Option<nat>, cells: map<string, string>)

  function Names(columns: seq<Column>): (names: seq<string>)
    ensures |names| == |columns|
  {
    seq(|columns|, i requires 0 <= i < |columns| => columns[i].name)
  }

  function Source(row: LogicalRow, sources: seq<seq<string>>): seq<string> {
    if row.sourceRow.Some? && row.sourceRow.value < |sources| then sources[row.sourceRow.value] else []
  }

  /** An edited cell wins over the file, and the file over the default. */
  function CellValue(row: LogicalRow, c: Column, source: seq<string>): string {
    if c.name in row.cells then row.cells[c.name]
    else if c.sourceIndex.Some? && c.sourceIndex.value < |source| then source[c.sourceIndex.value]
    else c.defaultValue
  }

  function RowValues(row: LogicalRow, columns: seq<Column>, sources: seq<seq<string>>): (r: seq<string>)
    ensures |r| == |columns|
  {
    seq(|columns|, i requires 0 <= i < |columns| => CellValue(row, columns[i], Source(row, sources)))
  }

  function AllValues(rows: seq<LogicalRow>, columns: seq<Column>, sources: seq<seq<string>>): (r: seq<seq<string>>)
    ensures |r| == |rows|
  {
    seq(|rows|, i requires 0 <= i < |rows| => RowValues(rows[i], columns, sources))
  }

  ghost predicate RowLive(row: LogicalRow, columns: seq<Column>) {
    forall name :: name in row.cells ==> name in Names(columns)
  }

  /** Every edited cell belongs to a column that still exists. */
  ghost predicate CellsLive(rows: seq<LogicalRow>, columns: seq<Column>) {
    forall i :: 0 <= i < |rows| ==> RowLive(rows[i], columns)
  }

  // ----- One row under each edit -----

  lemma {:induction false} EditCellValues(row: LogicalRow, columns: seq<Column>, sources: seq<seq<string>>, k: nat,
                                          value: string)
    requires k < |columns| && Unique(Names(columns))
    ensures RowValues(row.(cells := row.cells[columns[k].name := value]), columns, sources)
         == RowValues(row, columns, sources)[k := value]
  {
    forall i | 0 <= i < |columns| && i != k ensures columns[i].name != columns[k].name {
      assert Names(columns)[i] != Names(columns)[k];
    }
    EditCellExactly(row, columns, sources, k, value);
  }

  /** The cells of a row that is given a value for every column. */
  function CellsFor(names: seq<string>, values: seq<string>, n: nat): map<string, string>
    requires n <= |names| && n <= |values|
  {
    if n == 0 then map[] else CellsFor(names, values, n - 1)[names[n - 1] := values[n - 1]]
  }

  lemma {:induction false} CellsForLookup(names: seq<string>, values: seq<string>, n: nat)
    requires n <= |names| && n <= |values|
    ensures CellsFor(names, values, n).Keys == set i | 0 <= i < n :: names[i]
    ensures Unique(names) ==> forall i :: 0 <= i < n ==> (
      names[i] in CellsFor(names, values, n) && CellsFor(names, values, n)[names[i]] == values[i])
  {
    if n > 0 {
      CellsForLookup(names, values, n - 1);
    }
  }

  lemma {:induction false} InsertRowValues(columns: seq<Column>, values: seq<string>, sources: seq<seq<string>>)
    requires |values| == |columns| && Unique(Names(columns))
    ensures RowValues(LogicalRow(None, CellsFor(Names(columns), values, |values|)), columns, sources) == values
  {
    CellsForLookup(Names(columns), values, |values|);
    assert forall i :: 0 <= i < |columns| ==> Names(columns)[i] == columns[i].name;
  }

  /** The row that names become when headers are turned off, whether or not they are unique. */
  lemma {:induction false} NamesAsCells(names: seq<string>, n: nat)
    requires n <= |names|
    ensures forall name :: name in names[..n] ==> (
      name in CellsFor(names, names, n) && CellsFor(names, names, n)[name] == name)
  {
    if n > 0 {
      NamesAsCells(names, n - 1);
      assert names[..n] == names[..n - 1] + [names[n - 1]];
    }
  }

  lemma {:induction false} HeaderRowValues(columns: seq<Column>, sources: seq<seq<string>>)
    ensures RowValues(LogicalRow(None, CellsFor(Names(columns), Names(columns), |columns|)), columns, sources)
         == Names(columns)
  {
    NamesAsCells(Names(columns), |columns|);
    forall i | 0 <= i < |columns| ensures columns[i].name in Names(columns)[..|columns|] {
      assert Names(columns)[..|columns|][i] == columns[i].name;
    }
  }

  lemma {:induction false} InsertColumnValues(row: LogicalRow, columns: seq<Column>, sources: seq<seq<string>>,
                                              at: nat, c: Column)
    requires at <= |columns| && c.name !in row.cells && c.sourceIndex == None
    ensures RowValues(row, InsertAt(columns, at, c), sources)
         == InsertAt(RowValues(row, columns, sources), at, c.defaultValue)
  {
    var values, wider := RowValues(row, columns, sources), InsertAt(columns, at, c);
    forall i | 0 <= i < |wider| ensures RowValues(row, wider, sources)[i] == InsertAt(values, at, c.defaultValue)[i] {
      if i != at {
        assert wider[i] == columns[if i < at then i else i - 1];
      }
    }
  }

  lemma {:induction false} NamesInserted(columns: seq<Column>, at: nat, c: Column)
    requires at <= |columns|
    ensures Names(InsertAt(columns, at, c)) == InsertAt(Names(columns), at, c.name)
  {
  }

  /** A new column shows its default in every row, whatever edits went before. */
  lemma {:induction false} InsertColumnRows(rows: seq<LogicalRow>, columns: seq<Column>, sources: seq<seq<string>>,
                                            at: nat, c: Column)
    requires at <= |columns| && c.name !in Names(columns) && c.sourceIndex == None && CellsLive(rows, columns)
    ensures AllValues(rows, InsertAt(columns, at, c), sources)
         == InsertInRows(AllValues(rows, columns, sources), at, c.defaultValue)
    ensures CellsLive(rows, InsertAt(columns, at, c))
  {
    NamesInserted(columns, at, c);
    NamesKept(Names(columns), at, c.name);
    forall i | 0 <= i < |rows|
      ensures RowValues(rows[i], InsertAt(columns, at, c), sources)
           == InsertAt(RowValues(rows[i], columns, sources), at, c.defaultValue)
    {
      assert RowLive(rows[i], columns);
      InsertColumnValues(rows[i], columns, sources, at, c);
    }
  }

  lemma {:induction false} NamesKept(names: seq<string>, at: nat, name: string)
    requires at <= |names|
    ensures forall other :: other in InsertAt(names, at, name) <==> other == name || other in names
  {
    assert names == names[..at] + names[at..];
  }

  lemma {:induction false} NamesLeft(names: seq<string>, at: nat)
    requires at < |names|
    ensures forall other :: other in names && other != names[at] ==> other in RemoveAt(names, at)
  {
    assert names == names[..at] + [names[at]] + names[at + 1..];
  }

  lemma {:induction false} RemoveColumnValues(row: LogicalRow, columns: seq<Column>, sources: seq<seq<string>>, k: nat)
    requires k < |columns| && Unique(Names(columns))
    ensures RowValues(row.(cells := row.cells - {columns[k].name}), RemoveAt(columns, k), sources)
         == RemoveAt(RowValues(row, columns, sources), k)
  {
    var narrower := RemoveAt(columns, k);
    var erased := row.(cells := row.cells - {columns[k].name});
    var values := RowValues(row, columns, sources);
    forall i | 0 <= i < |narrower| ensures RowValues(erased, narrower, sources)[i] == RemoveAt(values, k)[i] {
      var j := if i < k then i else i + 1;
      assert narrower[i] == columns[j];
      assert Names(columns)[j] != Names(columns)[k];
    }
  }

  /** Deleting a column erases its edits in every row. */
  lemma {:induction false} DeleteColumnRows(rows: seq<LogicalRow>, erased: seq<LogicalRow>, columns: seq<Column>,
                         sources: seq<seq<string>>, k: nat)
    requires k < |columns| && CellsLive(rows, columns) && |erased| == |rows|
    requires forall i :: 0 <= i < |rows| ==> erased[i] == rows[i].(cells := rows[i].cells - {columns[k].name})
    ensures Unique(Names(columns)) ==> (
      AllValues(erased, RemoveAt(columns, k), sources)
      == RemoveFromRows(AllValues(rows, columns, sources), k))
    ensures CellsLive(erased, RemoveAt(columns, k))
    ensures Names(RemoveAt(columns, k)) == RemoveAt(Names(columns), k)
  {
    assert Names(RemoveAt(columns, k)) == RemoveAt(Names(columns), k);
    NamesLeft(Names(columns), k);
    forall i | 0 <= i < |rows| ensures RowLive(erased[i], RemoveAt(columns, k)) {
      assert RowLive(rows[i], columns);
    }
    if Unique(Names(columns)) {
      forall i | 0 <= i < |rows|
        ensures RowValues(erased[i], RemoveAt(columns, k), sources) == RemoveAt(RowValues(rows[i], columns, sources), k)
      {
        RemoveColumnValues(rows[i], columns, sources, k);
      }
    }
  }

  /** A row after its cell for `column`, if any, moved under `name`. */
  function MovedCell(row: LogicalRow, column: string, name: string): LogicalRow {
    if column in row.cells then row.(cells := row.cells[name := row.cells[column]] - {column}) else row
  }

  lemma {:induction false} RenameColumnValues(row: LogicalRow, columns: seq<Column>, sources: seq<seq<string>>, k: nat,
                                              name: string)
    requires k < |columns| && Unique(Names(columns)) && name !in Names(columns) && name !in row.cells
    ensures RowValues(MovedCell(row, columns[k].name, name), columns[k := columns[k].(name := name)], sources)
         == RowValues(row, columns, sources)
  {
    forall i | 0 <= i < |columns| && i != k ensures columns[i].name != columns[k].name && columns[i].name != name {
      assert Names(columns)[i] != Names(columns)[k] && Names(columns)[i] in Names(columns);
    }
  }

  lemma {:induction false} RenameColumnRows(rows: seq<LogicalRow>, moved: seq<LogicalRow>, columns: seq<Column>,
                         sources: seq<seq<string>>, k: nat, name: string)
    requires k < |columns| && CellsLive(rows, columns) && name !in Names(columns) && |moved| == |rows|
    requires forall i :: 0 <= i < |rows| ==> moved[i] == MovedCell(rows[i], columns[k].name, name)
    ensures var renamed := columns[k := columns[k].(name := name)];
            && (Unique(Names(columns)) ==> AllValues(moved, renamed, sources) == AllValues(rows, columns, sources))
            && CellsLive(moved, renamed)
            && Names(renamed) == Names(columns)[k := name]
  {
    var names, renamed := Names(columns), columns[k := columns[k].(name := name)];
    assert Names(renamed) == names[k := name];
    assert names == names[..k] + [names[k]] + names[k + 1..];
    assert names[k := name] == names[..k] + [name] + names[k + 1..];
    forall i | 0 <= i < |rows|
      ensures RowLive(moved[i], renamed)
      ensures Unique(names) ==> RowValues(moved[i], renamed, sources) == RowValues(rows[i], columns, sources)
    {
      assert RowLive(rows[i], columns);
      if Unique(names) {
        RenameColumnValues(rows[i], columns, sources, k, name);
      }
    }
  }

  lemma {:induction false} RemoveAtElements<T>(s: seq<T>, at: nat)
    requires at < |s|
    ensures forall i :: 0 <= i < |s| - 1 ==> RemoveAt(s, at)[i] == s[if i < at then i else i + 1]
  {
  }

  lemma {:induction false} RemoveRowValues(rows: seq<LogicalRow>, columns: seq<Column>, sources: seq<seq<string>>,
                                           at: nat)
    requires at < |rows|
    ensures AllValues(RemoveAt(rows, at), columns, sources) == RemoveAt(AllValues(rows, columns, sources), at)
  {
    RemoveAtElements(rows, at);
    RemoveAtElements(AllValues(rows, columns, sources), at);
  }

  // ----- Relabelling -----

  /** The cells of the first `n` columns, under new names. */
  function RelabelCells(cells: map<string, string>, columns: seq<Column>, names: seq<string>, n: nat)
    : map<string, string>
    requires n <= |columns| && n <= |names|
  {
    if n == 0 then map[]
    else
      var before := RelabelCells(cells, columns, names, n - 1);
      if columns[n - 1].name in cells then before[names[n - 1] := cells[columns[n - 1].name]] else before
  }

  function RelabelRow(row: LogicalRow, columns: seq<Column>, names: seq<string>): LogicalRow
    requires |names| == |columns|
  {
    row.(cells := RelabelCells(row.cells, columns, names, |columns|))
  }

  function RelabelRows(rows: seq<LogicalRow>, columns: seq<Column>, names: seq<string>): (r: seq<LogicalRow>)
    requires |names| == |columns|
    ensures |r| == |rows|
  {
    seq(|rows|, i requires 0 <= i < |rows| => RelabelRow(rows[i], columns, names))
  }

  function RelabelColumns(columns: seq<Column>, names: seq<string>): (r: seq<Column>)
    requires |names| == |columns|
    ensures |r| == |columns| && Names(r) == names
  {
    seq(|columns|, i requires 0 <= i < |columns| => columns[i].(name := names[i]))
  }

  lemma {:induction false} RelabelLookup(cells: map<string, string>, columns: seq<Column>, names: seq<string>, n: nat)
    requires n <= |columns| == |names| && Unique(names)
    ensures RelabelCells(cells, columns, names, n).Keys <= set i | 0 <= i < n :: names[i]
    ensures forall i :: 0 <= i < n ==>
      && (names[i] in RelabelCells(cells, columns, names, n) <==> columns[i].name in cells)
      && (columns[i].name in cells ==> RelabelCells(cells, columns, names, n)[names[i]] == cells[columns[i].name])
  {
    if n > 0 {
      RelabelLookup(cells, columns, names, n - 1);
    }
  }

  /** Giving every column a new, unique name changes no value, even if the old names were not unique. */
  lemma {:induction false} RelabelValues(rows: seq<LogicalRow>, columns: seq<Column>, names: seq<string>,
                                         sources: seq<seq<string>>)
    requires |names| == |columns| && Unique(names)
    ensures AllValues(RelabelRows(rows, columns, names), RelabelColumns(columns, names), sources)
         == AllValues(rows, columns, sources)
    ensures CellsLive(RelabelRows(rows, columns, names), RelabelColumns(columns, names))
  {
    forall i | 0 <= i < |rows|
      ensures RowValues(RelabelRow(rows[i], columns, names), RelabelColumns(columns, names), sources)
           == RowValues(rows[i], columns, sources)
      ensures RowLive(RelabelRow(rows[i], columns, names), RelabelColumns(columns, names))
    {
      RelabelLookup(rows[i].cells, columns, names, |columns|);
    }
    assert Names(RelabelColumns(columns, names)) == names;
  }

  // ----- What happens without unique names -----

  /** Columns of one name share their edited cells, so editing column `k` changes that one cell and no other
      exactly when every other column of its name already shows the new value. */
  lemma {:induction false} EditCellExactly(row: LogicalRow, columns: seq<Column>, sources: seq<seq<string>>, k: nat,
                                           value: string)
    requires k < |columns|
    ensures RowValues(row.(cells := row.cells[columns[k].name := value]), columns, sources)
         == RowValues(row, columns, sources)[k := value]
       <==> forall i :: 0 <= i < |columns| && i != k && columns[i].name == columns[k].name
              ==> CellValue(row, columns[i], Source(row, sources)) == value
  {
    var edited := row.(cells := row.cells[columns[k].name := value]);
    var after, before := RowValues(edited, columns, sources), RowValues(row, columns, sources);
    forall i | 0 <= i < |columns| && i != k && columns[i].name == columns[k].name
      ensures after[i] == value && before[k := value][i] == CellValue(row, columns[i], Source(row, sources))
    {
    }
  }

  /** A file whose two columns have one name: an edit of the first shows in the second. */
  lemma {:induction false} SameNameSharesEdits()
    ensures var columns := [Column("a", Some(0), ""), Column("a", Some(1), "")];
            RowValues(LogicalRow(Some(0), map["a" := "z"]), columns, [["x", "y"]]) == ["z", "z"]
  {
  }
}

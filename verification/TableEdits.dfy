/** What each plain edit does, cell by cell, and which edits undo each other. */
module TableEdits {
  import opened Outcomes
  import opened PlainTable
  import opened SyntheticLabels

  /** The column a name stands for: the first one that has it. */
  ghost predicate Stands(names: seq<string>, column: string, k: nat) {
    k < |names| && names[k] == column && forall j :: 0 <= j < k ==> names[j] != column
  }

  lemma {:induction false} StandsFor(names: seq<string>, column: string)
    requires column in names
    ensures Stands(names, column, IndexOf(names, column))
    ensures forall k: nat :: Stands(names, column, k) ==> k == IndexOf(names, column)
  {
    var i := IndexOf(names, column);
    assert forall j :: 0 <= j < i ==> names[..i][j] == names[j];
  }

  /** A headerless table has the labels of its columns for names. */
  ghost predicate Named(t: Table) {
    !t.hasHeaders ==> t.names == Labels(|t.names|)
  }

  // ----- Rows -----

  /** Edits of whole rows leave the header alone. */
  ghost predicate SameHeader(t: Table, u: Table) {
    u.hasHeaders == t.hasHeaders && u.names == t.names
  }

  lemma {:induction false} CellEdited(t: Table, locked: bool, row: nat, column: string, value: string)
    requires t.Rectangular()
    ensures var r := Apply(t, locked, EditCell(row, column, value));
            && (r.Some? <==> row < |t.rows| && column in t.names)
            && (r.Some? ==> SameHeader(t, r.value) && |r.value.rows| == |t.rows|)
            && (r.Some? ==> forall i, j :: 0 <= i < |t.rows| && 0 <= j < |t.names| ==>
                  r.value.rows[i][j] == if i == row && Stands(t.names, column, j) then value else t.rows[i][j])
  {
    if column in t.names { StandsFor(t.names, column); }
  }

  lemma {:induction false} RowDeleted(t: Table, locked: bool, row: nat)
    requires t.Rectangular()
    ensures var r := Apply(t, locked, DeleteRow(row));
            && (r.Some? <==> row < |t.rows|)
            && (r.Some? ==> SameHeader(t, r.value) && |r.value.rows| == |t.rows| - 1)
            && (r.Some? ==> forall i :: 0 <= i < |t.rows| - 1 ==>
                  r.value.rows[i] == if i < row then t.rows[i] else t.rows[i + 1])
  {
  }

  lemma {:induction false} RowInserted(t: Table, locked: bool, row: nat, values: seq<string>)
    requires t.Rectangular()
    ensures var r := Apply(t, locked, InsertRow(row, values));
            && (r.Some? <==> row <= |t.rows| && |values| == |t.names|)
            && (r.Some? ==> SameHeader(t, r.value) && |r.value.rows| == |t.rows| + 1)
            && (r.Some? ==> forall i :: 0 <= i < |t.rows| + 1 ==>
                  r.value.rows[i] == if i < row then t.rows[i] else if i == row then values else t.rows[i - 1])
  {
  }

  lemma {:induction false} RowsSwapped(t: Table, locked: bool, first: nat, second: nat)
    requires t.Rectangular()
    ensures var r := Apply(t, locked, SwapRows(first, second));
            && (r.Some? <==> first < |t.rows| && second < |t.rows|)
            && (r.Some? ==> SameHeader(t, r.value) && |r.value.rows| == |t.rows|)
            && (r.Some? ==> forall i :: 0 <= i < |t.rows| ==>
                  r.value.rows[i] == t.rows[if i == first then second else if i == second then first else i])
  {
  }

  // ----- Columns -----

  lemma {:induction false} ColumnInserted(t: Table, locked: bool, at: nat, name: string, value: string)
    requires t.Rectangular()
    ensures var r := Apply(t, locked, InsertColumn(at, name, value));
            && (r.Some? <==> at <= |t.names| && (t.hasHeaders ==> name != "" && name !in t.names))
            && (r.Some? ==> r.value.hasHeaders == t.hasHeaders && |r.value.rows| == |t.rows| && Wider(t, r.value, at))
            && (r.Some? && t.hasHeaders ==> r.value.names[at] == name)
            && (r.Some? && !t.hasHeaders ==> r.value.names == Labels(|t.names| + 1))
            && (r.Some? ==> forall i :: 0 <= i < |t.rows| ==> r.value.rows[i][at] == value)
  {
  }

  /** The columns of one table are those of another but for the one at `at`. */
  ghost predicate Wider(t: Table, u: Table, at: nat) {
    && at <= |t.names| && |u.names| == |t.names| + 1 && |u.rows| == |t.rows|
    && (forall i :: 0 <= i < |t.rows| ==> |u.rows[i]| == |t.rows[i]| + 1 == |u.names|)
    && (t.hasHeaders ==> forall j :: 0 <= j < |t.names| ==> u.names[if j < at then j else j + 1] == t.names[j])
    && (forall i, j :: 0 <= i < |t.rows| && 0 <= j < |t.names| ==>
          u.rows[i][if j < at then j else j + 1] == t.rows[i][j])
  }

  lemma {:induction false} DeletedAt(t: Table, locked: bool, column: string, k: nat)
    requires t.Rectangular() && Stands(t.names, column, k) && |t.names| > 1
    ensures Apply(t, locked, DeleteColumn(column))
         == Some(Table(t.hasHeaders, Renamed(t, RemoveAt(t.names, k)), RemoveFromRows(t.rows, k)))
  {
    StandsFor(t.names, column);
  }

  lemma {:induction false} RemovedNarrower(t: Table, k: nat)
    requires t.Rectangular() && k < |t.names|
    ensures Narrower(t, Table(t.hasHeaders, Renamed(t, RemoveAt(t.names, k)), RemoveFromRows(t.rows, k)), k)
  {
  }

  lemma {:induction false} ColumnDeleted(t: Table, locked: bool, column: string, k: nat)
    requires t.Rectangular() && (Stands(t.names, column, k) || column !in t.names)
    ensures var r := Apply(t, locked, DeleteColumn(column));
            && (r.Some? <==> |t.names| > 1 && column in t.names)
            && (r.Some? ==> r.value.hasHeaders == t.hasHeaders && Narrower(t, r.value, k))
            && (r.Some? && !t.hasHeaders ==> r.value.names == Labels(|t.names| - 1))
  {
    if column in t.names && |t.names| > 1 {
      StandsFor(t.names, column);
      DeletedAt(t, locked, column, k);
      RemovedNarrower(t, k);
    }
  }

  ghost predicate Narrower(t: Table, u: Table, at: nat) {
    && at < |t.names| && |u.names| == |t.names| - 1 && |u.rows| == |t.rows|
    && (forall i :: 0 <= i < |t.rows| ==> |u.rows[i]| == |t.rows[i]| - 1 == |u.names|)
    && (t.hasHeaders ==> forall j :: 0 <= j < |u.names| ==> u.names[j] == t.names[if j < at then j else j + 1])
    && (forall i, j :: 0 <= i < |t.rows| && 0 <= j < |u.names| ==>
          u.rows[i][j] == t.rows[i][if j < at then j else j + 1])
  }

  lemma {:induction false} ColumnRenamed(t: Table, locked: bool, column: string, name: string)
    requires t.Rectangular()
    ensures var r := Apply(t, locked, RenameColumn(column, name));
            && (r.Some? <==> t.hasHeaders && name != "" && column in t.names && (name == column || name !in t.names))
            && (r.Some? ==> r.value.hasHeaders && r.value.rows == t.rows && |r.value.names| == |t.names|)
            && (r.Some? ==> forall j :: 0 <= j < |t.names| ==>
                  r.value.names[j] == if Stands(t.names, column, j) then name else t.names[j])
  {
    if column in t.names { StandsFor(t.names, column); }
  }

  /** Turning headers off puts the names above the rows; turning them on takes them from there. */
  lemma {:induction false} HeadersSwitched(t: Table, on: bool)
    ensures var r := SwitchHeaders(t, on);
            && (on == t.hasHeaders ==> r == Some(t))
            && (t.hasHeaders && !on ==>
                  && r.Some? && !r.value.hasHeaders && r.value.names == Labels(|t.names|)
                  && |r.value.rows| == |t.rows| + 1 && r.value.rows[0] == t.names
                  && forall i :: 0 <= i < |t.rows| ==> r.value.rows[i + 1] == t.rows[i])
            && (!t.hasHeaders && on ==>
                  && (r.Some? <==> t.rows != [] && Unique(t.rows[0]) && "" !in t.rows[0])
                  && (r.Some? ==> r.value.hasHeaders && r.value.names == t.rows[0] && |r.value.rows| == |t.rows| - 1)
                  && (r.Some? ==> forall i :: 0 <= i < |t.rows| - 1 ==> r.value.rows[i] == t.rows[i + 1]))
  {
  }

  // ----- Undoing -----

  /** Two edits, the second on what the first gives. */
  ghost function Both(t: Table, locked: bool, first: Edit, second: Edit): Option<Table>
    requires t.Rectangular()
  {
    var r := Apply(t, locked, first);
    if r.None? then None else (ApplyRectangular(t, locked, first); Apply(r.value, locked, second))
  }

  lemma {:induction false} InsertedRowDeleted(t: Table, locked: bool, row: nat, values: seq<string>)
    requires t.Rectangular() && row <= |t.rows| && |values| == |t.names|
    ensures Both(t, locked, InsertRow(row, values), DeleteRow(row)) == Some(t)
  {
    assert RemoveAt(InsertAt(t.rows, row, values), row) == t.rows;
  }

  lemma {:induction false} DeletedRowInserted(t: Table, locked: bool, row: nat)
    requires t.Rectangular() && row < |t.rows|
    ensures Both(t, locked, DeleteRow(row), InsertRow(row, t.rows[row])) == Some(t)
  {
    assert InsertAt(RemoveAt(t.rows, row), row, t.rows[row]) == t.rows;
  }

  lemma {:induction false} SwappedTwice(t: Table, locked: bool, first: nat, second: nat)
    requires t.Rectangular() && first < |t.rows| && second < |t.rows|
    ensures Both(t, locked, SwapRows(first, second), SwapRows(second, first)) == Some(t)
  {
    var once := t.rows[first := t.rows[second]][second := t.rows[first]];
    assert once[second := once[first]][first := once[second]] == t.rows;
  }

  lemma {:induction false} CellEditedBack(t: Table, locked: bool, row: nat, column: string, k: nat, value: string)
    requires t.Rectangular() && row < |t.rows| && Stands(t.names, column, k)
    ensures Both(t, locked, EditCell(row, column, value), EditCell(row, column, t.rows[row][k])) == Some(t)
  {
    StandsFor(t.names, column);
    var once := t.rows[row][k := value];
    assert once[k := t.rows[row][k]] == t.rows[row];
    assert t.rows[row := once][row := t.rows[row]] == t.rows;
  }

  lemma {:induction false} ColumnRenamedBack(t: Table, locked: bool, column: string, name: string)
    requires t.Rectangular() && t.hasHeaders && column in t.names && column != "" && name != "" && name !in t.names
    ensures Both(t, locked, RenameColumn(column, name), RenameColumn(name, column)) == Some(t)
            <==> forall i, j :: 0 <= i < j < |t.names| && t.names[i] == column ==> t.names[j] != column
  {
    StandsFor(t.names, column);
    var k := IndexOf(t.names, column);
    var names := t.names[k := name];
    assert name in names by { assert names[k] == name; }
    StandsFor(names, name);
    assert Stands(names, name, k);
    assert names[k := column] == t.names;
    if exists i, j :: 0 <= i < j < |t.names| && t.names[i] == column && t.names[j] == column {
      var i, j :| 0 <= i < j < |t.names| && t.names[i] == column && t.names[j] == column;
      assert names[j] == column by { assert k <= i; }
    } else {
      assert column !in names;
    }
  }

  lemma {:induction false} InsertedAway(row: seq<string>, at: nat, value: string)
    requires at <= |row|
    ensures RemoveAt(InsertAt(row, at, value), at) == row && InsertAt(row, at, value)[at] == value
  {
  }

  lemma {:induction false} RemoveInserted(rows: seq<seq<string>>, at: nat, value: string)
    requires forall i :: 0 <= i < |rows| ==> at <= |rows[i]|
    ensures RemoveFromRows(InsertInRows(rows, at, value), at) == rows
  {
    forall i | 0 <= i < |rows| ensures RemoveFromRows(InsertInRows(rows, at, value), at)[i] == rows[i] {
      InsertedAway(rows[i], at, value);
    }
  }

  /** The inserted column stands for its name or its label. */
  lemma {:induction false} InsertedStands(t: Table, at: nat, name: string)
    requires at <= |t.names| && (t.hasHeaders ==> name !in t.names)
    ensures Stands(Renamed(t, InsertAt(t.names, at, name)), if t.hasHeaders then name else Label(at + 1), at)
  {
    var names := Renamed(t, InsertAt(t.names, at, name));
    if t.hasHeaders {
      assert forall j :: 0 <= j < at ==> names[j] == t.names[j];
    } else {
      LabelsUnique(|t.names| + 1);
    }
  }

  /** The table with one column more. */
  ghost function WithColumn(t: Table, at: nat, name: string, value: string): Table
    requires t.Rectangular() && at <= |t.names|
  {
    Table(t.hasHeaders, Renamed(t, InsertAt(t.names, at, name)), InsertInRows(t.rows, at, value))
  }

  lemma {:induction false} WithoutColumn(t: Table, at: nat, name: string, value: string)
    requires t.Rectangular() && Named(t) && at <= |t.names|
    ensures var u := WithColumn(t, at, name, value);
            && u.Rectangular() && |u.names| == |t.names| + 1
            && Table(u.hasHeaders, Renamed(u, RemoveAt(u.names, at)), RemoveFromRows(u.rows, at)) == t
  {
    InsertedAway(t.names, at, name);
    RemoveInserted(t.rows, at, value);
    InsertRectangular(t, at, name, value);
  }

  /** A column that was inserted is deleted again, in a headerless table under the label it then has. */
  lemma {:induction false} InsertedColumnDeleted(t: Table, locked: bool, at: nat, name: string, value: string)
    requires t.Rectangular() && Named(t) && t.names != [] && at <= |t.names|
    requires t.hasHeaders ==> name != "" && name !in t.names
    ensures Both(t, locked, InsertColumn(at, name, value),
                 DeleteColumn(if t.hasHeaders then name else Label(at + 1))) == Some(t)
  {
    var u := WithColumn(t, at, name, value);
    assert Apply(t, locked, InsertColumn(at, name, value)) == Some(u);
    InsertedStands(t, at, name);
    WithoutColumn(t, at, name, value);
    DeletedAt(u, locked, if t.hasHeaders then name else Label(at + 1), at);
  }

  // ----- Columns in another order -----

  /** In an order of all columns each shows its own cells, if no name is there twice. */
  lemma {:induction false} OrderShown(t: Table, order: seq<string>, j: nat, k: nat)
    requires t.Rectangular() && OrderFits(t.names, order) && j < |order| && Stands(t.names, order[j], k)
    ensures var r := Reordered(t, order);
            && r.hasHeaders == t.hasHeaders && |order| == |t.names| == |r.names| && |r.rows| == |t.rows|
            && r.names[j] == (if t.hasHeaders then order[j] else Label(j + 1))
            && forall i :: 0 <= i < |t.rows| ==> |r.rows[i]| == |t.names| && r.rows[i][j] == t.rows[i][k]
  {
    OrderNames(t.names, order);
    StandsFor(t.names, order[j]);
  }
}

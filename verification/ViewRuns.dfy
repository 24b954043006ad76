/** Runs of the editable view: edits in any number, and what resetting and saving make of them. */
module ViewRuns {
  import opened Characters
  import opened CsvFile
  import opened CsvGrammar
  import opened CsvWriter
  import opened IndexedCsv
  import opened Outcomes
  import opened Overlay
  import opened OverlayEdits
  import opened PlainTable
  import opened SyntheticLabels

  /** One edit, carried out or refused, makes the view what it makes the plain table. */
  method Follow(f: CsvIndexedFile, e: Edit)
    requires f.Valid()
    modifies f
    ensures f.Valid() && f.SameFile()
    ensures Unique(old(f.headers)) ==>
              Unique(f.headers) && f.View() == Carried(old(f.View()), f.locked.Some?, e)
  {
    var ok := f.Perform(e);
  }

  /** Whatever edits are made, in whatever order and with whatever refusals in between, the view is the plain table that
      the same edits make. */
  method Replay(f: CsvIndexedFile, edits: seq<Edit>)
    requires f.Valid()
    modifies f
    ensures f.Valid() && f.SameFile()
    ensures Unique(old(f.headers)) ==>
              Unique(f.headers) && f.View() == ApplyAll(old(f.View()), f.locked.Some?, edits)
    decreases |edits|
  {
    if edits != [] {
      Replay(f, edits[..|edits| - 1]);
      Follow(f, edits[|edits| - 1]);
    }
  }

  /** Resetting after any edits shows what was loaded precisely when the file has a record or the edits, `width` columns
      in the end, left as many columns as there were. */
  method ReplayAndReset(f: CsvIndexedFile, edits: seq<Edit>) returns (width: nat)
    requires f.AsLoaded()
    modifies f
    ensures f.AsLoaded() && !f.modified && f.disk == old(f.disk)
    ensures Unique(old(f.headers)) ==> width == |ApplyAll(old(f.View()), old(f.locked.Some?), edits).names|
    ensures f.View() == old(f.View())
            <==> AllFields(old(f.format.dialect), f.disk) != [] || width == |old(f.columns)|
  {
    Replay(f, edits);
    width := |f.columns|;
    f.ValidLoadable();
    KnownMatters(f.disk, f.format.dialect, f.format.header, width, |old(f.columns)|);
    var ok := f.Reset();
  }

  /** The headerless table without rows. */
  function NoRows(width: nat): Table {
    Table(false, Labels(width), [])
  }

  lemma {:induction false} ViewNames(f: CsvIndexedFile)
    requires f.Valid()
    ensures f.View().names == f.headers && f.View().hasHeaders == f.hasHeaders && |f.View().rows| == |f.rows|
    ensures |f.headers| == |f.columns| && (!f.hasHeaders ==> f.headers == Labels(|f.columns|) && Unique(f.headers))
  {
    LabelsUnique(|f.columns|);
  }

  lemma {:induction false} OnlyRowDeleted(t: Table, locked: bool)
    requires t.Rectangular() && |t.rows| == 1
    ensures Apply(t, locked, DeleteRow(0)) == Some(t.(rows := []))
  {
    assert RemoveAt(t.rows, 0) == [];
  }

  lemma {:induction false} ColumnInserted(width: nat, locked: bool)
    ensures Apply(NoRows(width), locked, InsertColumn(0, "x", "v")) == Some(NoRows(width + 1))
  {
    assert InsertInRows([], 0, "v") == [];
  }

  /** What writing such a table makes of it. */
  lemma {:induction false} NoRowsWritten(d: Dialect, bom: bool, newline: string, width: nat)
    ensures NoRows(width).Rectangular() && Reordered(NoRows(width), []) == NoRows(width)
    ensures WrittenRows(NoRows(width)) == [] && AllWritable(d, []) && !SeemsMarked(d, bom, NoRows(width))
    ensures IsEmptyFile(SavedText(d, bom, newline, NoRows(width)))
  {
    assert (if bom then BOM else "") + "" == if bom then BOM else "";
  }

  method DeleteOnlyRow(f: CsvIndexedFile)
    requires f.Valid() && !f.hasHeaders && |f.rows| == 1
    modifies f
    ensures f.Valid() && f.View() == NoRows(|old(f.columns)|)
  {
    ViewNames(f);
    OnlyRowDeleted(f.View(), f.locked.Some?);
    var deleted := f.DeleteRow(0);
  }

  method SaveNoRows(f: CsvIndexedFile, ghost width: nat) returns (saved: bool)
    requires f.Valid() && f.View() == NoRows(width)
    modifies f
    ensures saved && f.AsLoaded() && f.View() == NoRows(width) && IsEmptyFile(f.disk) && !f.format.header
  {
    ViewNames(f);
    NoRowsWritten(f.outputDialect, f.hasBom, f.newline, width);
    f.ValidIsReady();
    saved := f.Save([], NoFault);
    ViewNames(f);
  }

  method InsertInNoRows(f: CsvIndexedFile, ghost width: nat) returns (inserted: bool)
    requires f.Valid() && f.View() == NoRows(width)
    modifies f
    ensures inserted && f.Valid() && f.SameFile() && f.View() == NoRows(width + 1) && |f.columns| == width + 1
  {
    ViewNames(f);
    ColumnInserted(width, f.locked.Some?);
    inserted := f.InsertColumn(0, "x", "v");
    ViewNames(f);
  }

  /** Emptying a headerless file leaves its columns known; one inserted afterwards is not forgotten by a reset. */
  method ResetKeepsColumn(f: CsvIndexedFile) returns (saved: bool, inserted: bool)
    requires f.Valid() && !f.hasHeaders && |f.rows| == 1
    modifies f
    ensures saved && inserted && !f.modified && IsEmptyFile(f.disk)
    ensures f.View() == NoRows(|old(f.columns)| + 1)
  {
    ghost var width := |f.columns|;
    DeleteOnlyRow(f);
    saved := SaveNoRows(f, width);
    inserted := InsertInNoRows(f, width);
    var ok := f.Reset();
  }

  // ----- Saving again after loading broke off -----

  /** The rows of a file as columns of an earlier one read them. */
  ghost function Reread(hasHeaders: bool, columns: seq<Column>, fields: seq<seq<string>>, count: nat): Table {
    ViewOf(hasHeaders, columns, UneditedRows(count), fields)
  }

  /** Every column reads its own cell back: none was inserted, deleted or moved so as to change a cell. */
  ghost predicate ReadsBack(columns: seq<Column>, t: Table)
    requires t.Rectangular() && |t.names| == |columns|
  {
    forall i, k :: 0 <= i < |t.rows| && 0 <= k < |columns| ==>
      CellValue(LogicalRow(Some(i), map[]), columns[k], t.rows[i]) == t.rows[i][k]
  }

  lemma {:induction false} OwnFieldsReadBack(columns: seq<Column>, t: Table)
    requires t.Rectangular() && |t.names| == |columns|
    requires forall k :: 0 <= k < |columns| ==> columns[k].sourceIndex == Some(k)
    ensures ReadsBack(columns, t)
  {
  }

  lemma {:induction false} RereadRow(columns: seq<Column>, t: Table, i: nat)
    requires t.Rectangular() && |t.names| == |columns| && i < |t.rows|
    ensures RowValues(LogicalRow(Some(i), map[]), columns, t.rows) == t.rows[i] <==>
            forall k :: 0 <= k < |columns| ==>
              CellValue(LogicalRow(Some(i), map[]), columns[k], t.rows[i]) == t.rows[i][k]
  {
    var values := RowValues(LogicalRow(Some(i), map[]), columns, t.rows);
    if values == t.rows[i] {
      forall k | 0 <= k < |columns|
        ensures CellValue(LogicalRow(Some(i), map[]), columns[k], t.rows[i]) == t.rows[i][k]
      {
        assert values[k] == t.rows[i][k];
      }
    }
  }

  /** The table is read again precisely when all its rows are and every column reads its own cells back. */
  lemma {:induction false} RereadSame(columns: seq<Column>, t: Table, count: nat)
    requires t.Rectangular() && t.names == Names(columns) && count <= |t.rows|
    ensures Reread(t.hasHeaders, columns, t.rows, count) == t <==> count == |t.rows| && ReadsBack(columns, t)
  {
    var shown := AllValues(UneditedRows(count), columns, t.rows);
    forall i | 0 <= i < count
      ensures shown[i] == t.rows[i] <==>
              forall k :: 0 <= k < |columns| ==>
                CellValue(LogicalRow(Some(i), map[]), columns[k], t.rows[i]) == t.rows[i][k]
    {
      RereadRow(columns, t, i);
    }
    if Reread(t.hasHeaders, columns, t.rows, count) == t {
      forall i, k | 0 <= i < |t.rows| && 0 <= k < |columns|
        ensures CellValue(LogicalRow(Some(i), map[]), columns[k], t.rows[i]) == t.rows[i][k]
      {
        assert shown[i] == t.rows[i];
      }
    }
  }

  /** After a save whose loading broke off among the records, another save passes its check. It writes the records that
      had been read by then, through the columns of before: the same table precisely when those were all of them and
      every column reads its own cells back. */
  method SaveTwice(f: CsvIndexedFile, count: nat) returns (second: bool)
    requires f.Ready() && f.CanSave([])
    requires !IsEmptyFile(SavedText(f.outputDialect, f.hasBom, f.newline, f.View()))
    requires !SeemsMarked(f.outputDialect, f.hasBom, f.View())
    modifies f
    ensures var t := old(f.View());
            var again := Reread(t.hasHeaders, old(f.columns), t.rows, Fewer(count, |t.rows|));
            && (second <==> AllWritable(old(f.outputDialect), WrittenRows(again)))
            && (second ==> f.disk == SavedText(old(f.outputDialect), old(f.hasBom), old(f.newline), again))
            && |again.rows| == Fewer(count, |t.rows|)
            && (again == t <==> count >= |t.rows| && ReadsBack(old(f.columns), t))
  {
    ghost var t := f.View();
    RereadSame(f.columns, t, Fewer(count, |t.rows|));
    var first := f.Save([], ReloadFailed(ReadFailed(count)));
    second := f.Save([], NoFault);
  }

  /** A column inserted in front shows its own cell in place of the next one's. */
  lemma {:induction false} RereadMixesUp(columns: seq<Column>, t: Table)
    requires columns == [Column("x", None, "v"), Column("a", Some(0), "")]
    requires t == Table(true, ["x", "a"], [["v", "1"]])
    ensures t == ViewOf(true, columns, UneditedRows(1), [["1"]])
    ensures Reread(true, columns, t.rows, 1) == Table(true, ["x", "a"], [["v", "v"]])
  {
    assert Names(columns) == ["x", "a"];
    assert RowValues(LogicalRow(Some(0), map[]), columns, [["1"]]) == ["v", "1"];
    assert RowValues(LogicalRow(Some(0), map[]), columns, t.rows) == ["v", "v"];
  }
}

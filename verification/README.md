# csvzall in Dafny

csvzall is a command-line tool and viewer for CSV files. It edits files through an overlay, loads them into PostgreSQL
and SQLite, extracts tables from JSON, reads ZIP archives and dates, renders calendars and merges files in place. This
project models its stateful and its parsing cores and proves what they promise for every input, every run of edits and
every interleaving of threads or failures. `dafny verify dfyconfig.toml` checks everything.

## The parts

**The editable view** (`CsvGrammar`, `CsvSyntax`, `CsvWriter`, `CsvQuoting`, `SyntheticLabels`, `PlainTable`,
`TableEdits`, `ColumnOrder`, `Overlay`, `OverlayEdits`, `CsvFile`, `IndexedCsv`, `ViewRuns`). A file is kept as an index
of record offsets under an overlay of logical rows, sparse edits and column descriptors. `PlainTable` says what each
edit does to an ordinary table of strings, and `TableEdits` says it cell by cell; `IndexedCsv` is the class with the
source's fields and methods, and every method is proved to do to the visible table what the plain edit does.
`CsvGrammar` is the record grammar of section 2 of RFC 4180 for a chosen delimiter and quote, as a machine that reads
one character at a time. It stands in for the foreign CSV parser, and `CsvSyntax` describes apart from it what it reads
in any text. `CsvWriter` is the dialect writer, `CsvQuoting` says when it has to quote, and `CsvFile` ties the two
together: when a saved file shows the saved table again. `ViewRuns` makes runs of edits, saves and resets.

**The COPY pipelines** (`CopyQueue`, `ParallelCopy`, `CommitFates`, `CopyOutcomes`, `PipelineCopy`). Threads, a bounded
queue, a mutex with a condition variable and a commit barrier, as atomic steps over program counters. Sleeping and
waking are explicit, so a missed notification would be a deadlock. Reading, connecting, loading, flushing and committing
may fail at any time. `CommitFates` says how each worker ends, and `CopyOutcomes` how the copy does.

**JSON** (`JsonGrammar`, `JsonReader`, `JsonStandard`, `JsonParser`, `JsonStrings`, `JsonNumbers`, `JsonPrinter`,
`JsonPath`, `PathSpellings`, `JsonPlaces`). A syntax tree keeps every choice the language of the parser leaves to the
writer. Reading is proved to be the exact inverse of writing a tree out, and the imperative parser to be that reading;
`JsonStandard` says which texts of RFC 8259 are taken. `JsonPrinter` prints values on its own terms, with strings
spelled by code point (`JsonStrings`) and numbers told by an automaton (`JsonNumbers`), and parsing undoes it. JSONPath
texts get the same treatment; evaluation, level by level, is proved against a depth-first meaning, and that against the
places in the document that fit the steps (`JsonPlaces`).

**ZIP** (`ZipDirectory`, `ZipArchive`, `ZipReading`, `ZipRefusals`). The reader, archives as APPNOTE.TXT lays them out,
what reading gives for each name, and what is refused.

**Dates and calendars** (`Decimals`, `CivilCalendar`, `FlexibleDate`, `DateSpellings`, `MarkdownCalendar`,
`CalendarPlaces`). The Gregorian calendar as a bijection between dates and day numbers, with its weekdays; the date
parsers with the inference of a column's month and day order, and what each spelling of a date is read as; and the
Markdown calendar, with the place of each day in its text.

**SQL** (`SqlStrip`, `SqlTokens`, `SqlLoad`). The stripper and tokeniser behind the integer-division warning, and the
staging-table load.

**Merging** (`KeyedMerge`, `StoreUpdate`). The keyed merge, and the in-place update through a temporary sibling.

`Outcomes` holds `Option` and `Result`, and `Characters` the character classes. A `char` stands for one byte.

## What the proofs found

- `save` and reload do not always show the same table. Without a byte order mark of its own, a file whose first value
  begins with the bytes EF BB BF and needs no quotes reads back without them. `CsvFile.SaveLoads` proves that this is
  the only case, and `CsvFile.MarkLostOnSave` exhibits one.
- The writer quotes a value with the quoting character anywhere in it, as section 2 of RFC 4180 asks, and an empty value
  alone in its row, although the reader would take both back without quotes (`CsvQuoting.NeedsQuoteIs`). Without a
  quoting character a table of one column with an empty cell can therefore not be saved, and all else is refused
  precisely when it would not be read back (`CsvQuoting.WritableIs`).
- With two columns of one name, an edit to one of them shows in the other (`Overlay.SameNameSharesEdits`).
  `Overlay.EditCellExactly` says that an edit is exact precisely when every other column of that name already shows
  the new value, so always when there is none. The edits themselves keep unique names unique.
- A save with a requested column order can lose data. Names are looked up, so with two columns of one name the first is
  written in both places although the order is accepted: `ColumnOrder.OrderLosesColumn`. An order keeps a column
  precisely when it holds what the first column of its name holds (`ColumnOrder.ReorderedKeepsColumns`), and the columns
  as many as they are precisely when this holds of all of them (`ColumnOrder.ReorderedConserves`), so always when names
  are unique.
- `reset` does not always show what was loaded. A headerless file without records keeps the number of columns the edits
  left: `ViewRuns.ResetKeepsColumn` empties a file, inserts a column and still has it after a reset.
  `ViewRuns.ReplayAndReset` proves that nothing else can make a difference.
- `save` can fail after it has replaced the file, when the new file cannot be loaded. The edits are on disk then, and
  `IndexedCsv.CsvIndexedFile.Save` says what a reset shows. Without one, where loading broke off among the records,
  the next save passes its check and writes just the records read by then, through the columns of before:
  `ViewRuns.SaveTwice` says precisely when that is the same table, and `ViewRuns.RereadMixesUp` gives cells that
  change.
- The end record of an archive is found precisely when it does not hold its signature again, early enough for another
  end record to fit (`ZipArchive.EndFound`). A comment can hide it (`ZipArchive.CommentHidesEnd`, with an archive in
  `ZipArchive.HiddenEnd`), even one without the signature (`ZipArchive.LengthHidesEnd`); without a comment it is always
  found (`ZipArchive.NoCommentFound`).
- Printing a JSONPath and parsing it is the identity precisely when every index is below 2^64
  (`JsonPath.PrintedPathRoundTrip`), because the index wraps around.
- The order of month and day matters for a date precisely when it is ambiguous (`FlexibleDate.OrderMatters`).
- A worker's own commit can fail after the barrier has decided to commit, so that a copy can fail with part of its rows
  in the table: `CommitFates.HalfCommitted` is such a run. A worker has committed at the end precisely when the barrier
  decided so and its own commit did not fail (`CommitFates.FinishedFates`), and the copy returns normally precisely when
  the barrier decided so and no worker's commit failed (`CommitFates.ReturnsPrecisely`).
- An exception of the CSV reader during a load into a new database leaves that file behind without the table, because
  the cleanup only runs for SQLite errors (`SqlLoad.ThrowLeavesFile`). `SqlLoad.NewDatabase` says precisely when the
  file is there after a run.
- The parser refuses an escaped high surrogate that no low one follows, which section 7 of RFC 8259 generates. Texts
  that hold one are the only texts of the standard it refuses (`JsonStandard.StandardTextRead`, with an example in
  `JsonStandard.LoneSurrogates`); a low surrogate on its own is taken. Beyond the standard it takes vertical tab and
  form feed as whitespace.

## Model

| member | source | states |
|---|---|---|
| CsvGrammar.ScanIndexed | src/viewer_core/indexed_csv.cpp:728-735 | The offsets indexed for a file increase, and each is a point where exactly the records before it have been read |
| CsvGrammar.RecordsNotEmpty | src/viewer_core/indexed_csv.cpp:728-735 | No record read from any text is without fields |
| CsvGrammar.SliceRecords | src/viewer_core/indexed_csv.cpp:405-451 | Parsing the bytes between two indexed offsets afresh gives exactly the records between them |
| CsvSyntax.FileRead | src/viewer_core/indexed_csv.cpp:728-735 | Whatever its fields, quotes and terminators, every file of the syntax is read as the records of its rows, each with the offset where its text begins |
| CsvSyntax.EveryText | src/viewer_core/indexed_csv.cpp:728-735 | Every text is the text of such a file, with at most one record at its end that is not terminated or not closed |
| CsvSyntax.TextRead | src/viewer_core/indexed_csv.cpp:728-735 | So in every text, behind a mark or not, the records read are those of the file it spells |
| CsvWriter.WithDialect | src/viewer_core/indexed_csv.cpp:178-193 | A dialect is accepted precisely for single printable or tab characters that differ, or no quote; it then carries those characters |
| CsvWriter.WriteValue | src/viewer_core/indexed_csv.cpp:148-153 | The written value is the value, quoted with its quotes doubled when it needs quoting |
| CsvWriter.WriteRow | src/viewer_core/indexed_csv.cpp:134-156 | A row is refused precisely when some value needs quoting and there is no quote; otherwise its text is appended |
| CsvWriter.RunRow | src/viewer_core/indexed_csv.cpp:134-156 | Reading a written row at any idle point of the grammar adds exactly that row, at that offset |
| CsvQuoting.NeedsQuoteIs | src/viewer_core/indexed_csv.cpp:141-144 | A value needs quoting precisely when its bare text would not be read back, when it holds the quoting character, or when it is empty and alone in its row |
| CsvQuoting.WritableIs | src/viewer_core/indexed_csv.cpp:145-147 | Without a quoting character a row is refused precisely when its bare text would not be read back as that row, and when it is one empty value |
| CsvWriter.ScanUndoesWrite | src/viewer_core/indexed_csv.cpp:778-782 | Reading any number of written rows gives back exactly those rows, in every valid dialect |
| CsvWriter.RecordNewline | src/viewer_core/indexed_csv.cpp:158-176 | The result is the terminator at the first line break outside quotes, in the sense of the record grammar, and a line feed when there is none |
| CsvWriter.WrittenTerminator | src/viewer_core/indexed_csv.cpp:158-176 | In a file that begins with a written row the first break outside quotes is that row's own terminator |
| SyntheticLabels.SyntheticHeaders | src/viewer_core/indexed_csv.cpp:120-130 | The loops build the bijective base-26 labels |
| SyntheticLabels.PositionOfLabel | src/viewer_core/indexed_csv.cpp:120-130 | The position a label spells is the column it was made for, so labels are injective |
| SyntheticLabels.OnlyLabel | src/viewer_core/indexed_csv.cpp:120-130 | A label is the only word of capitals that spells its column |
| SyntheticLabels.LabelsUnique | src/viewer_core/indexed_csv.cpp:120-130 | No two labels of a header are equal and none is empty |
| SyntheticLabels.FreshKey | src/viewer_core/indexed_csv.cpp:635-637 | The loop ends with the shortest `_new` key that no column has |
| PlainTable.ApplyRectangular | src/viewer_core/indexed_csv.cpp:575-681 | Every edit that is carried out keeps all rows as wide as the header |
| TableEdits.CellEdited | src/viewer_core/indexed_csv.cpp:575-586 | A cell edit is accepted precisely for an existing row and name and changes just the cell of the first column of that name |
| TableEdits.RowDeleted | src/viewer_core/indexed_csv.cpp:588-594 | A deleted row goes and the rows after it move up by one |
| TableEdits.RowInserted | src/viewer_core/indexed_csv.cpp:596-610 | An inserted row stands at its place, the rows before it stay and the others move down by one |
| TableEdits.RowsSwapped | src/viewer_core/indexed_csv.cpp:612-621 | Swapping puts each of two rows in the place of the other and leaves the rest |
| TableEdits.ColumnInserted | src/viewer_core/indexed_csv.cpp:623-643 | An inserted column stands at its place with its value in every row, and the others keep their names and cells |
| TableEdits.ColumnDeleted | src/viewer_core/indexed_csv.cpp:669-681 | A deletion is accepted precisely for a name that is there beside others and removes the first column of that name and no more |
| TableEdits.ColumnRenamed | src/viewer_core/indexed_csv.cpp:645-667 | A renaming is accepted precisely with headers, for a name that is there and a new one that is not empty and free, and changes that name only |
| TableEdits.HeadersSwitched | src/viewer_core/indexed_csv.cpp:360-388 | Headers turned off stand above the rows; turned on they are taken from there, precisely when they are unique and not empty |
| TableEdits.InsertedRowDeleted | src/viewer_core/indexed_csv.cpp:588-610 | Deleting an inserted row gives back the table |
| TableEdits.DeletedRowInserted | src/viewer_core/indexed_csv.cpp:588-610 | Inserting a deleted row again gives back the table |
| TableEdits.SwappedTwice | src/viewer_core/indexed_csv.cpp:612-621 | Swapping twice gives back the table |
| TableEdits.CellEditedBack | src/viewer_core/indexed_csv.cpp:575-586 | Editing a cell and writing its old value again gives back the table |
| TableEdits.ColumnRenamedBack | src/viewer_core/indexed_csv.cpp:645-667 | Renaming a column and back gives the table precisely when no other column has its name |
| TableEdits.InsertedColumnDeleted | src/viewer_core/indexed_csv.cpp:623-681 | Deleting an inserted column gives back the table, in a headerless one under the label the column then has |
| PlainTable.ApplyUnique | src/viewer_core/indexed_csv.cpp:623-681 | Every edit and header switch keeps unique names unique |
| PlainTable.RunKeepsNamesUnique | src/viewer_core/indexed_csv.cpp:575-681 | Every run of edits and header switches, refusals included, keeps unique names unique |
| ColumnOrder.ReorderedKeepsColumns | src/viewer_core/indexed_csv.cpp:534-573 | A requested order keeps a column, name and cells, precisely when it holds what the first column of its name holds |
| ColumnOrder.ReorderedConserves | src/viewer_core/indexed_csv.cpp:534-573 | A requested order shows the same columns, each as often, precisely when columns of one name hold the same cells, and so when names are unique |
| ColumnOrder.OrderLosesColumn | src/viewer_core/indexed_csv.cpp:534-573 | With two columns of one name an accepted order loses the cells of the second |
| TableEdits.OrderShown | src/viewer_core/indexed_csv.cpp:560-573 | In a requested order column `j` has the name, or its label, and the cells of the first column of the `j`-th name |
| PlainTable.SwitchBack | src/viewer_core/indexed_csv.cpp:366-385 | Turning headers off and on again gives back the table |
| Overlay.EditCellExactly | src/viewer_core/indexed_csv.cpp:575-586 | A cell edit changes that cell and no other precisely when every other column of that name already shows the new value |
| Overlay.SameNameSharesEdits | src/viewer_core/indexed_csv.cpp:461-482 | With a duplicate name an edit shows in both columns |
| Overlay.RelabelValues | src/viewer_core/indexed_csv.cpp:346-358 | Giving all columns new unique names leaves every visible cell as it was |
| OverlayEdits.EditCellView | src/viewer_core/indexed_csv.cpp:575-586 | The sparse cell edit refines the plain one |
| OverlayEdits.InsertRowView | src/viewer_core/indexed_csv.cpp:596-610 | A row kept only as edits shows the inserted values |
| OverlayEdits.InsertColumnView | src/viewer_core/indexed_csv.cpp:623-643 | An inserted column shows its default in every row and disturbs no other column |
| OverlayEdits.RenameColumnView | src/viewer_core/indexed_csv.cpp:645-667 | Renaming carries the edits along |
| OverlayEdits.DeleteColumnView | src/viewer_core/indexed_csv.cpp:669-681 | Deleting a column removes it and its edits, so that they cannot come back |
| OverlayEdits.HeadersOffView | src/viewer_core/indexed_csv.cpp:366-371 | Turning headers off shows the names as the first row |
| OverlayEdits.HeadersOnView | src/viewer_core/indexed_csv.cpp:372-383 | Turning headers on takes the first visible row as names |
| CsvFile.EmptyScan | src/viewer_core/indexed_csv.cpp:694-706 | A file has no records precisely when it is empty but for a byte order mark |
| CsvFile.LoadedCells | src/viewer_core/indexed_csv.cpp:728-753 | A loaded table shows each record in a row, its fields in their columns and nothing after them; headers are the first record, taken when asked for unless a record is wider |
| CsvFile.RaggedLoads | src/viewer_core/indexed_csv.cpp:736-747 | With a record wider than the first, loading with headers and without gives the same table |
| CsvFile.SaveLoads | src/viewer_core/indexed_csv.cpp:760-807 | A saved file loads as the saved table precisely unless it seems to begin with a byte order mark |
| CsvFile.SavedLoads | src/viewer_core/indexed_csv.cpp:687-753 | Every saved file loads: saving never makes a file that cannot be opened again |
| CsvFile.SavedTerminator | src/viewer_core/indexed_csv.cpp:778-782 | The first break of any saved file with a record is the terminator it was written with, so reload recovers it |
| CsvFile.MarkLostOnSave | src/viewer_core/indexed_csv.cpp:778-782 | A table whose one value is the three mark bytes is not shown again after a save |
| IndexedCsv.CsvIndexedFile.EditCell | src/viewer_core/indexed_csv.cpp:575-586 | Accepted precisely when row and column exist; the view becomes the plain edit of the view and is marked modified; refused, nothing changes |
| IndexedCsv.CsvIndexedFile.DeleteRow | src/viewer_core/indexed_csv.cpp:588-594 | The same for deleting a row |
| IndexedCsv.CsvIndexedFile.InsertRow | src/viewer_core/indexed_csv.cpp:596-610 | The same for inserting a row of matching width |
| IndexedCsv.CsvIndexedFile.SwapRows | src/viewer_core/indexed_csv.cpp:612-621 | The same for swapping rows; a row with itself changes nothing, the mark included |
| IndexedCsv.CsvIndexedFile.InsertColumn | src/viewer_core/indexed_csv.cpp:623-643 | The same for inserting a column, with labels given afresh in a headerless view |
| IndexedCsv.CsvIndexedFile.RenameColumn | src/viewer_core/indexed_csv.cpp:645-667 | The same for renaming a column, refused for labels, empty and taken names; the name it has changes nothing |
| IndexedCsv.CsvIndexedFile.DeleteColumn | src/viewer_core/indexed_csv.cpp:669-681 | The same for deleting a column, refused for the last one |
| IndexedCsv.CsvIndexedFile.Relabel | src/viewer_core/indexed_csv.cpp:346-358 | The loops rename every column and every edit key at once, with old and new names overlapping in any way |
| IndexedCsv.CsvIndexedFile.SetCsvOptions | src/viewer_core/indexed_csv.cpp:360-388 | Switches headers as the plain table does and the output dialect as asked, and marks the view modified unless all is as it was; refused for ragged files, unusable names and invalid dialects without any change |
| IndexedCsv.CsvIndexedFile.ReadSourceRows | src/viewer_core/indexed_csv.cpp:405-451 | The page cut from the file's bytes is the page of the file's records |
| IndexedCsv.CsvIndexedFile.RowValuesForColumns | src/viewer_core/indexed_csv.cpp:461-482 | Edit before source field before default, for any list of columns |
| IndexedCsv.CsvIndexedFile.ReadRows | src/viewer_core/indexed_csv.cpp:484-516 | Either way of building a page agrees with the view, cell for cell up to the column count, and has the rows asked for |
| IndexedCsv.CsvIndexedFile.DirectPage | src/viewer_core/indexed_csv.cpp:491-502 | A page is cut as one slice only for unedited consecutive records with every column showing its own field |
| IndexedCsv.CsvIndexedFile.Reload | src/viewer_core/indexed_csv.cpp:687-753 | Loading succeeds precisely when the file has a table and then shows it unmodified, with the terminator of its first record |
| IndexedCsv.CsvIndexedFile.Open | src/viewer_core/indexed_csv.cpp:296-316 | Opening succeeds precisely for a non-empty file that loads, and shows its table |
| IndexedCsv.CsvIndexedFile.ReadCsvOptions | src/viewer_core/indexed_csv.cpp:390-403 | Reads the file again in another dialect; refused with unsaved changes, and a failure changes nothing |
| IndexedCsv.CsvIndexedFile.Reset | src/viewer_core/indexed_csv.cpp:755-758 | Loads the file again, also after a save that could not: the view is unmodified and shows the file, or as many columns as it has where a headerless file has no records |
| IndexedCsv.CsvIndexedFile.ValidateColumnOrder | src/viewer_core/indexed_csv.cpp:534-558 | An order is accepted precisely when it is empty or a permutation of the headers, as multisets |
| IndexedCsv.CsvIndexedFile.OrderedColumns | src/viewer_core/indexed_csv.cpp:560-573 | The columns come in the requested order |
| IndexedCsv.CsvIndexedFile.Save | src/viewer_core/indexed_csv.cpp:760-807 | Saves precisely when order, file and values allow it; writes the view in the requested order, which keeps every column precisely when columns of one name hold the same cells; then shows that table precisely unless a mark seems to begin it; a failure before the rename changes neither view nor file; after a failure of the reload the file is the saved one and a reset shows the saved table under the same condition |
| ViewRuns.Replay | src/viewer_core/indexed_csv.cpp:575-681 | For every sequence of edits and header switches the view is the plain table the same edits make |
| ViewRuns.ReplayAndReset | src/viewer_core/indexed_csv.cpp:687-758 | A reset after any edits shows what was loaded precisely when the file has a record or there are as many columns as before |
| ViewRuns.ResetKeepsColumn | src/viewer_core/indexed_csv.cpp:694-758 | In every headerless view of one row, deleting it, saving, inserting a column and resetting leaves one column more |
| ViewRuns.SaveTwice | src/viewer_core/indexed_csv.cpp:687-807 | When loading after a save breaks off among the records, the next save writes the records read by then through the columns of before: the same table precisely when those were all and every column reads its own cells back |
| ViewRuns.OwnFieldsReadBack | src/viewer_core/indexed_csv.cpp:461-482 | Columns that still come from the field they stand at read their own cells back |
| ViewRuns.RereadMixesUp | src/viewer_core/indexed_csv.cpp:461-482 | With an inserted column the records read again have other cells |
| ParallelCopy.InvStep | src/postgres/exporter.cpp:345-459 | Every step of the reader or a worker keeps the invariant: chunks conserved, counts right, flags consistent, no lost wake-up |
| ParallelCopy.RunKeepsInv | src/postgres/exporter.cpp:345-459 | The invariant holds in every reachable state |
| ParallelCopy.QueueBounded | src/postgres/exporter.cpp:339-440 | The queue never holds more than three chunks a worker |
| ParallelCopy.BarrierSeesAll | src/postgres/exporter.cpp:445-454 | A barrier that decides to commit has no error, an empty queue, the input used up and every chunk loaded exactly once |
| ParallelCopy.CommitMeansAll | src/postgres/exporter.cpp:400-414 | A worker that is committing or has committed implies that everything is loaded and every worker has reported |
| ParallelCopy.CommitAfterDecision | src/postgres/exporter.cpp:402-454 | Any commit in any run lies after the one decision of the run, to commit, at which everything was loaded |
| ParallelCopy.DecidedOnce | src/postgres/exporter.cpp:445-454 | No run has two steps that decide |
| ParallelCopy.ReturnMeansCommitted | src/postgres/exporter.cpp:457-469 | On normal return every worker has committed and the row count is that of the input |
| ParallelCopy.NoDeadlock | src/postgres/exporter.cpp:353-459 | In every reachable unfinished state some thread can step |
| ParallelCopy.MovesLeftDecreases | src/postgres/exporter.cpp:353-459 | A measure decreases with every step, waiting and waking included |
| ParallelCopy.RunBounded | src/postgres/exporter.cpp:353-459 | Every run is no longer than that measure |
| ParallelCopy.StuckMeansFinished | src/postgres/exporter.cpp:353-459 | A run that can go no further has ended all its threads |
| CommitFates.FinishedFates | src/postgres/exporter.cpp:400-419 | At the end a worker has committed precisely when the barrier decided to commit and its own commit did not fail in the run; after such a decision it has failed otherwise, and without one none has committed |
| CommitFates.ReturnsPrecisely | src/postgres/exporter.cpp:400-469 | A finished copy has returned normally precisely when the barrier decided to commit and no worker's own commit failed in the run |
| CommitFates.HalfCommitted | src/postgres/exporter.cpp:400-469 | For any two chunks there is a run of two workers that decides to commit, keeps one chunk, loses the other and throws |
| CopyOutcomes.ErrorHasFailure | src/postgres/exporter.cpp:345-459 | In every run no error is recorded and nothing cancelled but for a failing move before |
| CopyOutcomes.ReturnsUnlessFailed | src/postgres/exporter.cpp:345-469 | A finished copy has returned precisely when no move of its run failed, with all workers committed and each chunk loaded once |
| CopyOutcomes.QueueStops | src/postgres/exporter.cpp:364-383 | Once an error is recorded no chunk is queued any more and none is taken |
| CopyOutcomes.ReaderWaits | src/postgres/exporter.cpp:432-440 | The reader waits precisely while nothing is cancelled and three chunks a worker are queued |
| CopyOutcomes.WorkerWaits | src/postgres/exporter.cpp:364-376 | A worker waits for a chunk precisely while the queue is empty and the input neither used up nor cancelled |
| PipelineCopy.InvStep | src/postgres/exporter.cpp:228-300 | Every step of producer or consumer keeps the order of chunks, the flags and the wake-ups |
| PipelineCopy.LoadedIsPrefix | src/postgres/exporter.cpp:228-280 | Loaded, then in hand, then queued chunks are a prefix of the input, with at most three queued |
| PipelineCopy.OutcomeOfRun | src/postgres/exporter.cpp:293-305 | Normal return means the whole input is loaded; a reader failure is rethrown only after all that was queued is loaded |
| PipelineCopy.EndOfRun | src/postgres/exporter.cpp:228-305 | A finished copy has returned precisely when nothing failed, thrown precisely when loading failed, and rethrown precisely when only reading did |
| PipelineCopy.WaitsPrecisely | src/postgres/exporter.cpp:233-275 | The producer waits precisely while three chunks are queued, the consumer while none is and the input may go on |
| PipelineCopy.NoDeadlock | src/postgres/exporter.cpp:228-293 | In every reachable unfinished state one of the two threads can step |
| PipelineCopy.MovesLeftDecreases | src/postgres/exporter.cpp:228-293 | A measure decreases with every step |
| PipelineCopy.StuckMeansFinished | src/postgres/exporter.cpp:228-293 | A run that can go no further has finished |
| JsonGrammar.Utf8RoundTrip | src/pipeline/commands/json_extract.cpp:142-158 | Decoding the bytes gives the code point, and they are well-formed UTF-8 precisely for scalar values |
| JsonReader.PieceRead | src/pipeline/commands/json_extract.cpp:181-240 | Every character, escape and surrogate pair is read as itself |
| JsonStrings.SpelledString | src/pipeline/commands/json_extract.cpp:181-240 | A string stands for exactly the UTF-8 of its characters, each as it is, by its letter, or by hex digits of either case |
| JsonStrings.EscapedCodePoint | src/pipeline/commands/json_extract.cpp:219-234 | An escape, or the pair of escapes of a code point above FFFF, stands for the bytes that decode to that code point and nothing else |
| JsonReader.NumberRead | src/pipeline/commands/json_extract.cpp:242-289 | Every spelling of a number the grammar allows is taken whole, up to what follows it |
| JsonNumbers.NumberMeans | src/pipeline/commands/json_extract.cpp:242-289 | Every number, as an automaton tells them, is a text of its own and stands for itself |
| JsonNumbers.MeantIsNumber | src/pipeline/commands/json_extract.cpp:242-289 | Every text that stands for a number has one of those |
| JsonReader.ValueRead | src/pipeline/commands/json_extract.cpp:104-340 | The text of every syntax tree, before anything that can follow a value, is read back as that tree |
| JsonReader.ValueTaken | src/pipeline/commands/json_extract.cpp:104-340 | What is read from any text spells out exactly the characters taken |
| JsonReader.ReadMeans | src/pipeline/commands/json_extract.cpp:41-51 | A text is readable precisely when the grammar generates it, and it has one value |
| JsonPrinter.PrintedMeans | src/pipeline/commands/json_extract.cpp:41-340 | Parsing undoes printing: the text of any value, however its characters are spelled, stands for that value only |
| JsonPrinter.PrintedWithin | src/pipeline/commands/json_extract.cpp:41-84 | A byte order mark in front and whitespace around a value do not matter |
| JsonStandard.StandardTextRead | src/pipeline/commands/json_extract.cpp:41-340 | A text of RFC 8259 has a value precisely when a low surrogate follows every escaped high one, and then just the value of its tree with each pair as one code point |
| JsonStandard.ValueRefused | src/pipeline/commands/json_extract.cpp:219-234 | One unpaired high surrogate anywhere in a value makes reading it fail |
| JsonStandard.LoneSurrogates | src/pipeline/commands/json_extract.cpp:219-234 | The string of one high surrogate has no value, that of one low surrogate has |
| JsonParser.JsonParser.Parse | src/pipeline/commands/json_extract.cpp:41-51 | The parser ends and returns precisely the value the grammar gives the text, or fails when there is none |
| JsonParser.JsonParser.ParseValue | src/pipeline/commands/json_extract.cpp:104-129 | One value is taken, with the position after it, as reading says |
| JsonParser.JsonParser.ParseHex4 | src/pipeline/commands/json_extract.cpp:160-179 | The loop computes the value of four hex digits and fails on anything else |
| JsonParser.JsonParser.ParseUnicode | src/pipeline/commands/json_extract.cpp:219-234 | A high surrogate needs a low one after it; the pair becomes one code point in UTF-8 |
| JsonParser.JsonParser.ParseString | src/pipeline/commands/json_extract.cpp:181-240 | The loop yields the string the pieces stand for |
| JsonParser.JsonParser.ParseNumber | src/pipeline/commands/json_extract.cpp:242-289 | The text of the number is exactly the characters taken |
| JsonParser.JsonParser.ParseItems | src/pipeline/commands/json_extract.cpp:300-310 | The loop yields the elements in order |
| JsonParser.JsonParser.ParseFields | src/pipeline/commands/json_extract.cpp:322-339 | The loop yields names and values in order, duplicates kept |
| JsonPath.ParseQuotedField | src/pipeline/common/json_path.cpp:17-57 | The loop yields the field the letters and escapes stand for, and fails on anything else |
| JsonPath.ParseJsonPath | src/pipeline/common/json_path.cpp:154-234 | The result is precisely the steps the path's one syntax stands for |
| JsonPath.ReadMeansPath | src/pipeline/common/json_path.cpp:154-234 | A path text is readable precisely when the syntax generates it |
| JsonPath.PrintedPathMeans | src/pipeline/common/json_path.cpp:209-225 | A printed list of steps means those steps with indices modulo 2^64 and nothing else |
| JsonPath.PrintedPathRoundTrip | src/pipeline/common/json_path.cpp:154-234 | Parsing undoes printing precisely when every index fits `size_t` |
| PathSpellings.QuotedNameMeans | src/pipeline/common/json_path.cpp:17-57 | A quoted name means the step of the name its characters make, each as it is or by its letter |
| PathSpellings.OtherEscapesFail | src/pipeline/common/json_path.cpp:34-50 | A backslash before any other character makes the path fail |
| PathSpellings.IndexMeans | src/pipeline/common/json_path.cpp:209-225 | An index means the element of its number, which wraps around at 2^64 |
| JsonPath.FindField | src/pipeline/commands/json_extract.cpp:369-379 | The loop finds the first field with the name, in objects only |
| JsonPath.EvaluateJsonPath | src/pipeline/commands/json_extract.cpp:431-463 | Level by level with an early stop gives what the path selects depth first |
| JsonPath.JoinedSelects | src/pipeline/commands/json_extract.cpp:431-463 | Two paths joined select what the second selects below each result of the first, in order |
| JsonPlaces.PlacesOf | src/pipeline/commands/json_extract.cpp:431-463 | A path selects the values at the places that fit its steps, the first field of a name and the element of an index: all of them, each once, in the order of the document |
| JsonPath.AtMostOne | src/pipeline/commands/json_extract.cpp:431-463 | A path without a wildcard selects at most one value |
| JsonPath.EvaluateRowsPath | src/pipeline/commands/json_extract.cpp:465-484 | Rows are what the path selects with a wildcard at its end; the error cases are exact |
| ZipDirectory.FindEndOfCentralDirectory | src/pipeline/common/gzip_stream.cpp:93-114 | The backward search finds the last place in reach with the signature, precisely |
| ZipRefusals.NoEnd | src/pipeline/common/gzip_stream.cpp:93-114 | Data without an end record in reach is no archive |
| ZipRefusals.EndPlace | src/pipeline/common/gzip_stream.cpp:93-114 | The end record is found precisely at the last signature with room for one, among the last 65557 bytes |
| ZipRefusals.EndDecides | src/pipeline/common/gzip_stream.cpp:121-136 | By the numbers of its end record an archive is refused as split, as ZIP64 or as cut, in this order, or else its directory is read |
| ZipDirectory.ReadCentralDirectory | src/pipeline/common/gzip_stream.cpp:116-173 | The loop reads the file entries in order, or fails as the first bad field says |
| ZipDirectory.SelectEntry | src/pipeline/common/gzip_stream.cpp:175-200 | The first entry of the name, or the only entry when none is named |
| ZipDirectory.SelectedIs | src/pipeline/common/gzip_stream.cpp:175-185 | The first of several entries with one name is the one selected |
| ZipReading.NamedAnswer | src/pipeline/common/gzip_stream.cpp:175-185 | Reading the name of a file gives what the first member of that name holds: stored or inflated, checked, or refused |
| ZipReading.OnlyFileAnswer | src/pipeline/common/gzip_stream.cpp:187-193 | Without a name the only file of an archive answers |
| ZipReading.Refusals | src/pipeline/common/gzip_stream.cpp:175-200 | Without a name an archive of no file and one of several are refused, each in its way, and so is a name that no file has |
| ZipReading.FileName | src/pipeline/common/gzip_stream.cpp:166-168 | A file is what has a name that does not end in a slash |
| ZipReading.OneFileRead | src/pipeline/common/gzip_stream.cpp:257-287 | An archive given byte by byte is read as its one file |
| ZipDirectory.ReadZipEntry | src/pipeline/common/gzip_stream.cpp:257-287 | The content of the selected entry, with each check in its place |
| ZipArchive.HoldsLe32 | src/pipeline/common/gzip_stream.cpp:41-49 | A field written little-endian is read back |
| ZipArchive.EntryReadBack | src/pipeline/common/gzip_stream.cpp:142-165 | A directory entry is read back with all its fields, and the next one is found after its variable parts |
| ZipRefusals.EntryDecides | src/pipeline/common/gzip_stream.cpp:141-165 | By its numbers a directory entry is refused for its signature or as ZIP64, or else read with all of them |
| ZipRefusals.DataDecides | src/pipeline/common/gzip_stream.cpp:202-280 | The data of an entry is refused as encrypted, without a local header, of an unknown method or cut, or else found behind that header |
| ZipArchive.EndFound | src/pipeline/common/gzip_stream.cpp:93-114 | The true end record is found precisely when its own bytes do not hold the signature again with room for an end record |
| ZipArchive.NoCommentFound | src/pipeline/common/gzip_stream.cpp:93-114 | The end record of an archive without a comment is always found |
| ZipArchive.DirectoryReadBack | src/pipeline/common/gzip_stream.cpp:116-173 | For every archive below the ZIP64 limits the directory gives exactly its files, in order, with their places |
| ZipArchive.MemberReadBack | src/pipeline/common/gzip_stream.cpp:202-287 | Reading a member by name gives its stored bytes or what the inflater makes of them, checked against its checksum |
| ZipArchive.StoredReadBack | src/pipeline/common/gzip_stream.cpp:269-272 | A stored member with a right checksum is read back byte for byte |
| ZipArchive.CommentHidesEnd | src/pipeline/common/gzip_stream.cpp:107-111 | A comment that holds the signature 22 bytes or more before its end hides the true end record |
| ZipArchive.LengthHidesEnd | src/pipeline/common/gzip_stream.cpp:107-111 | A comment without the signature hides the end record when its length and its first bytes make one up |
| ZipArchive.HiddenEnd | src/pipeline/common/gzip_stream.cpp:107-111 | An archive that is hidden so |
| CivilCalendar.DayNumberIs | src/pipeline/common/markdown_calendar.cpp:28-35 | Counting months agrees with counting years by the leap-year rule |
| CivilCalendar.CivilIs | src/pipeline/common/markdown_calendar.cpp:66-68 | Dates and day numbers correspond one to one |
| CivilCalendar.Epoch | src/pipeline/common/markdown_calendar.cpp:28-35 | Days are counted from the first of January 1970 |
| CivilCalendar.WeekdayIs | src/pipeline/common/markdown_calendar.cpp:166-171 | The weekday of every date is the one a closed rule on year, month and day gives |
| MarkdownCalendar.EscapeMarkdownTableCell | src/pipeline/common/markdown_calendar.cpp:45-60 | The loop escapes pipes, turns line feeds into tags and drops carriage returns |
| MarkdownCalendar.EscapedSafe | src/pipeline/common/markdown_calendar.cpp:45-60 | Whatever the value, its escaped form ends no cell and no line |
| CalendarPlaces.EscapedByCharacter | src/pipeline/common/markdown_calendar.cpp:45-60 | Escaping works character by character: pipes, line feeds and carriage returns each in their way, and all else stays |
| MarkdownCalendar.CellText | src/pipeline/common/markdown_calendar.cpp:66-74 | The day of the month, and the content of that day when there is any |
| MarkdownCalendar.ReadContent | src/pipeline/common/markdown_calendar.cpp:122-135 | The map holds every row in range under its day; an unreadable date or a second row for one day is an error, precisely |
| MarkdownCalendar.SlotNear | src/pipeline/common/markdown_calendar.cpp:160-185 | Columns are weekdays, and the grid reaches less than a week past the month |
| MarkdownCalendar.SlotFilled | src/pipeline/common/markdown_calendar.cpp:174-180 | A cell is filled precisely when its day is in range and of the block's month, although the code compares month numbers only |
| MarkdownCalendar.DateInOneSlot | src/pipeline/common/markdown_calendar.cpp:137-188 | Every date in range has exactly one filled cell, in its own month and under its weekday |
| CalendarPlaces.SlotPlace | src/pipeline/common/markdown_calendar.cpp:156-185 | In the text of a month the third line names the weekdays, Sunday first, and each slot of a week stands in the cell of its weekday in the line of that week |
| CalendarPlaces.DateShown | src/pipeline/common/markdown_calendar.cpp:137-188 | Every date in range stands in the table of its month under the name of its weekday, as the closed rule tells it |
| CalendarPlaces.DayShown | src/pipeline/common/markdown_calendar.cpp:66-74 | A day shows its number, and after a tag what is written on it, if anything is |
| MarkdownCalendar.WeekHasSevenCells | src/pipeline/common/markdown_calendar.cpp:172-184 | Every line has exactly seven cells for a Markdown reader, whatever the contents |
| MarkdownCalendar.RenderWeeks | src/pipeline/common/markdown_calendar.cpp:160-185 | The week loop ends and writes exactly the weeks the month reaches into |
| MarkdownCalendar.RenderMarkdownCalendar | src/pipeline/common/markdown_calendar.cpp:89-197 | The month loop writes the table of every month from first to last; the failures are exact |
| CalendarPlaces.MonthPlace | src/pipeline/common/markdown_calendar.cpp:143-188 | The calendar shows every month from first to last in order, each once, with an empty line between |
| FlexibleDate.ParsePart | src/pipeline/common/flexible_date.cpp:39-59 | Question marks are unknown, up to nine digits a number, anything else no part |
| Decimals.DecimalPlaces | src/pipeline/common/flexible_date.cpp:49-57 | Digits stand for each times the power of ten of its place |
| FlexibleDate.PartFits | src/pipeline/common/flexible_date.cpp:11-12 | Nine digits fit 32 bits |
| FlexibleDate.Split | src/pipeline/common/flexible_date.cpp:61-83 | The loop splits into one to three parts and refuses a fourth |
| FlexibleDate.PartialExtendsFull | src/pipeline/common/flexible_date.cpp:167-263 | Whenever the full parser succeeds the partial one gives the same day at day precision |
| FlexibleDate.IsoRoundTrip | src/pipeline/common/flexible_date.cpp:197-273 | The ISO text of any parsed date parses to the same first day under either order |
| FlexibleDate.ParsedIsDate | src/pipeline/common/flexible_date.cpp:98-150 | Whatever the partial parser returns is a calendar date of the years 0 to 9999 |
| FlexibleDate.OrderMatters | src/pipeline/common/flexible_date.cpp:112-133 | The two orders differ precisely on ambiguous values, and there they swap month and day |
| DateSpellings.PrintedDateRead | src/pipeline/common/flexible_date.cpp:112-133 | Every date of the years 0 to 9999 is read back from its padded fields and either separator: year first under both orders, month first and day first under the order that says so |
| DateSpellings.YearMonthDay | src/pipeline/common/flexible_date.cpp:112-123 | Three numbers with four digits in front are that year, month and day under either order, where there is such a date |
| DateSpellings.MonthDayYear | src/pipeline/common/flexible_date.cpp:124-133 | Month, day and a year of four digits are read as such under the order of months first, and under both when the day is above 12 |
| DateSpellings.DayMonthYear | src/pipeline/common/flexible_date.cpp:124-133 | Day, month and a year of four digits are read as such under the order of days first, and under both when the day is above 12 |
| DateSpellings.NoDate | src/pipeline/common/flexible_date.cpp:112-133 | Three numbers that make no date in any such way are none |
| DateSpellings.FourFieldsFail | src/pipeline/common/flexible_date.cpp:61-83 | A text of four fields has no parts |
| DateSpellings.DateIsSpelled | src/pipeline/common/flexible_date.cpp:61-133 | Whatever is read as a date is three numbers with separators between and whitespace around, with a year of four digits at an end |
| DateSpellings.YearAndMonth | src/pipeline/common/flexible_date.cpp:203-232 | Year and month in either order are known to the month, a year beside question marks to the year |
| DateSpellings.PartlyKnown | src/pipeline/common/flexible_date.cpp:234-262 | Of three fields with unknown ones the month counts where it is known, and otherwise only the year |
| DateSpellings.NoYear | src/pipeline/common/flexible_date.cpp:197-263 | Without a year of four digits at an end nothing is known |
| DateSpellings.YearAlone | src/pipeline/common/flexible_date.cpp:208-213 | Four digits alone are a year |
| DateSpellings.MonthUnknown | src/pipeline/common/flexible_date.cpp:233-237 | With the year in front an unknown month leaves the year, whatever is said of the day |
| DateSpellings.TimeDropped | src/pipeline/common/flexible_date.cpp:153-165 | A time of day after a text that starts with a year does not matter |
| DateSpellings.IsoShape | src/pipeline/common/flexible_date.cpp:269-273 | The ISO text of a date has its year in four digits, its month and day in two, and dashes between |
| FlexibleDate.ClueDecides | src/pipeline/common/flexible_date.cpp:176-195 | A value with a clue is read as the clue says under both orders |
| DateSpellings.ClueOfFields | src/pipeline/common/flexible_date.cpp:176-195 | Three numbers give the clue that a number above 12 is the day, if only one is, and none with the year in front |
| FlexibleDate.InvalidParsesNever | src/pipeline/common/flexible_date.cpp:176-195 | A value with an invalid clue parses under neither order |
| FlexibleDate.InferDateOrder | src/charts/heatmap.cpp:27-53 | The inference succeeds precisely when no value is invalid and no two clues conflict, and gives the clues' order or month first |
| FlexibleDate.OrderOfValuesIrrelevant | src/charts/heatmap.cpp:27-53 | Success and result depend on which values there are, not on their order |
| FlexibleDate.InferredFitsClues | src/charts/heatmap.cpp:27-53 | The inferred order agrees with every clue in the column |
| DateSpellings.WithoutClues | src/charts/heatmap.cpp:27-53 | A column whose values are empty or tell nothing is read month first |
| SqlStrip.StripSqlStringsAndComments | src/pipeline/commands/sql_query.cpp:35-124 | The loop with its two-character steps is the five-state machine |
| SqlStrip.StrippedKeepsPlaces | src/pipeline/commands/sql_query.cpp:35-124 | The length stays and every character stays in place or turns blank |
| SqlStrip.RegionsStripped | src/pipeline/commands/sql_query.cpp:53-119 | Literals, quoted names and comments turn blank as wholes, whatever they contain, and code is kept |
| SqlStrip.QueryRegions | src/pipeline/commands/sql_query.cpp:35-124 | Every query is a sequence of such regions, followed by at most one literal or comment that is never closed |
| SqlStrip.QueryStripped | src/pipeline/commands/sql_query.cpp:35-124 | In every query code stays, its regions turn blank, and what is never closed turns blank to the end |
| SqlStrip.StrippedOpensNothing | src/pipeline/commands/sql_query.cpp:53-73 | The result has no quote and no comment opener |
| SqlStrip.StripTwice | src/pipeline/commands/sql_query.cpp:35-124 | A second pass changes nothing |
| SqlStrip.TokenizeForDivisionCheck | src/pipeline/commands/sql_query.cpp:134-197 | The nested loops cut the longest identifiers and numbers |
| SqlTokens.FirstTokenIs | src/pipeline/commands/sql_query.cpp:134-197 | The token taken is the one whose text, by a definition of its own for each kind, is the longest the rest begins with |
| SqlTokens.TokensCut | src/pipeline/commands/sql_query.cpp:134-197 | Every text can be cut into longest tokens in one way, and that is what is cut |
| SqlStrip.TokensJoined | src/pipeline/commands/sql_query.cpp:134-197 | The tokens' texts joined are the text without its whitespace |
| SqlStrip.ShouldWarnIntegerDivision | src/pipeline/commands/sql_query.cpp:488-508 | Warns precisely when a slash stands between two likely integers outside literals and comments |
| SqlTokens.QuotientReported | src/pipeline/commands/sql_query.cpp:488-508 | A quotient of names and numbers is reported precisely when neither is a number with a point or an exponent |
| KeyedMerge.ReadExistingKeys | src/pipeline/commands/append.cpp:55-69 | The set of keys, or an error precisely when one repeats |
| KeyedMerge.ValidateIncomingKeys | src/pipeline/commands/append.cpp:71-90 | The number of rows with a known key, or an error precisely when an incoming key repeats |
| KeyedMerge.WriteMerged | src/pipeline/commands/append.cpp:118-151 | The existing rows and then the unknown incoming ones, and their number |
| KeyedMerge.RunMerge | src/pipeline/commands/append.cpp:267-300 | The passes together compute the merge, each error in its turn |
| KeyedMerge.MergeDecides | src/pipeline/commands/append.cpp:237-300 | A merge succeeds precisely when the headers agree, the key column is found and no key is there twice in either file; what is wrong is told in this order |
| KeyedMerge.RunAppend | src/pipeline/commands/append.cpp:92-113 | The rows of both files in order, refused precisely when the headers differ |
| KeyedMerge.AppendIsMerge | src/pipeline/commands/append.cpp:92-151 | Where no key repeats or is shared, appending and merging give the same table |
| KeyedMerge.AddedAndSkipped | src/pipeline/commands/append.cpp:71-151 | Rows added by one pass and skipped by the other are together the incoming rows |
| KeyedMerge.MergeAdds | src/pipeline/commands/append.cpp:118-151 | The existing rows come first and what follows is exactly the incoming rows with new keys |
| KeyedMerge.NewRowsInOrder | src/pipeline/commands/append.cpp:133-147 | The added rows are the incoming rows at the places of the unknown keys, in their order |
| KeyedMerge.MergeKeeps | src/pipeline/commands/append.cpp:275-299 | The merged keys are those of both tables, each once, and every incoming row is counted |
| KeyedMerge.MergeAgain | src/pipeline/commands/append.cpp:237-300 | Merging the same file again adds nothing, skips everything and leaves the table alone |
| StoreUpdate.InvStep | src/pipeline/commands/append.cpp:302-340 | Every effect, failure and foreign write keeps the store whole |
| StoreUpdate.StoreIsWhole | src/pipeline/common/file_replace.cpp:36-52 | At every point of every in-place run the store is the original or the complete combined file |
| StoreUpdate.CreatedIsWhole | src/pipeline/common/file_replace.cpp:54-79 | While a store is created it is missing, complete, or what another process put there |
| StoreUpdate.OthersStay | src/pipeline/common/file_replace.cpp:54-79 | A file another process put there meanwhile is never overwritten |
| StoreUpdate.OutcomeOfRun | src/pipeline/commands/append.cpp:317-340 | Success means the combined file is in place; failure before the move means nothing changed |
| StoreUpdate.UpdateSucceeds | src/pipeline/commands/append.cpp:302-340 | A finished run has succeeded precisely when no step failed, and the store then holds the combined file of what it held at first; without leave to create it a missing store is never made |
| StoreUpdate.NothingLeftBehind | src/pipeline/commands/append.cpp:331-335 | A finished run leaves no temporary file unless removing it failed |
| StoreUpdate.RunEnds | src/pipeline/commands/append.cpp:302-340 | Every run ends, within a number of its own steps that the combined file bounds, whatever other processes do |
| StoreUpdate.NeverStuck | src/pipeline/commands/append.cpp:302-340 | An unfinished run can always take a step of its own, and can go on without failing precisely unless its store is missing or a file is in its way |
| StoreUpdate.MergeTwiceIsOnce | src/pipeline/commands/append.cpp:237-341 | A second merge into the same store writes the same bytes, when the merged file reads back as its table |
| SqlLoad.InvStep | src/pipeline/commands/sql_export.cpp:103-192 | Every statement, failure and cleanup keeps the schema in one of three states: untouched, staged, swapped |
| SqlLoad.TableIsWhole | src/pipeline/commands/sql_export.cpp:103-192 | At every point the named table holds all old or all new rows, other objects are as they were and the file stays |
| SqlLoad.SuccessLoads | src/pipeline/commands/sql_export.cpp:155-192 | Success means all rows are in the named table and nothing else changed |
| SqlLoad.LoadSucceeds | src/pipeline/commands/sql_export.cpp:94-192 | A finished load has succeeded precisely when no statement failed, the reader did not throw and the load is none of those refused |
| SqlLoad.RefusedUntouched | src/pipeline/commands/sql_export.cpp:94-142 | Without leave to replace, and for objects that are no tables, nothing is ever touched |
| SqlLoad.NoStagingLeft | src/pipeline/commands/sql_export.cpp:107-120 | A finished run leaves no staging table unless dropping it failed |
| SqlLoad.NewDatabase | src/pipeline/commands/sql_export.cpp:107-192 | After a run on a new database its file is there precisely when the run succeeded, the reader threw, or removing the file it had created failed; on success it holds just the loaded table, after a throw no table |
| SqlLoad.ThrowLeavesFile | src/pipeline/commands/sql_export.cpp:144-187 | For every load into a new database there is a run in which the reader throws and the file stays, without the table |
| SqlLoad.RunEnds | src/pipeline/commands/sql_export.cpp:103-192 | Every run ends within a number of steps that the rows bound |
| SqlLoad.NeverStuck | src/pipeline/commands/sql_export.cpp:103-192 | Where nothing fails the next statement can always be taken, so the load goes on until it is done |

## Left out

- The CSV parser behind the view is foreign code. It is modelled as the record grammar, with blank lines as records as
  `tests/test_view_dialect.cpp:380` requires. A byte order mark is recognised at the start of a file only; whether the
  parser would also drop one at the start of a page slice is not modelled.
- IndexedCsv.CsvIndexedFile.Save: the temporary file, the modification time and the rename are one outcome, given as a
  parameter, because the view's promise is about what is shown after success and failure. After a reload that failed
  before it had opened the new file, nothing is promised of the view until it is reset.
- IndexedCsv.CsvIndexedFile.Reset: recovering a renamed source is left out, and so is a file that changed or cannot be
  read meanwhile; the bytes of the file are a field that only `Save` changes.
- IndexedCsv.CsvIndexedFile.Open: the dialect is given; guessing it from samples is a heuristic without a crisp
  statement.
- ViewRuns.SaveTwice: is about files without a seeming byte order mark, and about saves without a requested order. The
  second save is taken to find the file unchanged, as its size and time were read before loading broke off.
- ViewRuns.Replay: speaks of the view for unique column names at the start, as the sparse edits are keyed by name.
- Exceptions are `None`, `Err` or `false`; most message texts, and the byte offsets in JSON errors, are left out.
- ParallelCopy.RunBounded: spurious wake-ups are not steps, since each would only repeat a wait. Progress callbacks and
  the skipped-row count, which is always zero on this path, are left out, and thread creation succeeds.
- JsonParser.JsonParser.Parse: recursion depth is unbounded, so stack exhaustion on deeply nested texts is not
  modelled. Bit operations of the UTF-8 writer are written as arithmetic.
- JsonStandard.StandardTextRead: whether the bytes above 7F of a string are well-formed UTF-8 is not asked, as the
  parser does not ask.
- JsonPath.EvaluateJsonPath: returns the values, where the source returns pointers to them; `JsonPlaces` says to which
  places in the document they point. The second evaluator
  (`src/pipeline/common/json_path.cpp:59-149`) takes the same steps over the elements of a foreign library and would
  repeat the proof; its errors are that library's.
- ZipDirectory.ReadZipEntry: the inflater and the checksum are parameters, and messages omit the entry names. Sizes and
  offsets are unbounded integers, as no sum of 32-bit fields overflows `size_t`.
- MarkdownCalendar.RenderMarkdownCalendar: reading a date text is a parameter, which leaves out the leniency of
  `std::stoi`; so is the month header. Column lookup is left out.
- FlexibleDate.ParsePart: trimming and searching, which the source does through library calls, are functions.
  Formatting a day outside the years 0 to 9999 is left out, as no parser returns one.
- KeyedMerge.RunMerge: finding the key column is a parameter, and rows have as many fields as the header; what the
  foreign parser does with others is not modelled.
- StoreUpdate.StoreIsWhole: file-system calls are atomic effects, so durability after a power failure is not modelled;
  the run shares its temporary name with no other; the Windows calls are left out.
- SqlLoad.TableIsWhole: transactions commit or roll back as a whole, nobody else writes, and names are compared as
  strings. Indexes and triggers of a replaced table, which go with it, are not part of the schema here.
- SqlLoad.NewDatabase: an interrupted transaction is rolled back. A new file is loaded with the journal off, where
  SQLite itself does not promise that; what such a rollback may leave in the file is not described.
- Type inference, summaries, filters, charts, colour schemes, the HTTP server, the viewer's JavaScript, command-line
  parsing, logging and progress bars would add plumbing or single-branch members.

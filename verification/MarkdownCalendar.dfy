/** The Markdown calendar: one table a month, a row a week, a cell a day. Days are day numbers; turning a date text
    into a day is the parameter `parse`. */
module MarkdownCalendar {
  import opened Outcomes
  import opened Characters
  import opened Decimals
  import opened CivilCalendar

  /** The dates to show and what to write on them. */
  datatype Calendar = Calendar(start: int, end: int, content: map<int, string>, header: (int, int) -> string)

  // ----- Cells -----

  /** A pipe gets a backslash, a newline becomes a tag, a carriage return is dropped. */
  function EscapedChar(c: char): string {
    match c
    case '|' => "\\|"
    case '\r' => ""
    case '\n' => "<br>"
    case _ => [c]
  }

  function Escaped(value: string): string {
    if value == "" then "" else EscapedChar(value[0]) + Escaped(value[1..])
  }

  method EscapeMarkdownTableCell(value: string) returns (out: string)
    ensures out == Escaped(value)
  {
    out := "";
    for i := 0 to |value|
      invariant out + Escaped(value[i..]) == Escaped(value)
    {
      EscapedStep(out, value[i..]);
      assert value[i..][1..] == value[i + 1..];
      var ch := value[i];
      if ch == '|' {
        out := out + "\\|";
      } else if ch == '\r' {
      } else if ch == '\n' {
        out := out + "<br>";
      } else {
        out := out + [ch];
      }
    }
  }

  lemma {:induction false} EscapedStep(out: string, value: string)
    requires value != ""
    ensures out + Escaped(value) == out + EscapedChar(value[0]) + Escaped(value[1..])
    ensures out + "" == out
  {
  }

  /** Whether a pipe at `i` would end a cell. */
  predicate EndsCell(s: string, i: int) {
    0 <= i < |s| && s[i] == '|' && (i == 0 || s[i - 1] != '\\')
  }

  /** A text that stays inside its cell and its line. */
  predicate CellSafe(s: string) {
    forall i :: 0 <= i < |s| ==> s[i] != '\n' && !EndsCell(s, i)
  }

  lemma {:induction false} EscapedSafe(value: string)
    ensures CellSafe(Escaped(value)) && '\r' !in Escaped(value)
  {
    if value != "" {
      EscapedSafe(value[1..]);
      var t := Escaped(value[1..]);
      assert CellSafe(EscapedChar(value[0]));
      SafeJoin(EscapedChar(value[0]), t);
    }
  }

  lemma {:induction false} SafeJoin(h: string, t: string)
    requires CellSafe(h) && CellSafe(t)
    ensures CellSafe(h + t)
  {
    forall i | 0 <= i < |h + t| ensures (h + t)[i] != '\n' && !EndsCell(h + t, i) {
      if i < |h| {
        assert !EndsCell(h, i);
      } else {
        assert !EndsCell(t, i - |h|);
        assert (h + t)[i] == t[i - |h|];
      }
    }
  }

  function Content(cal: Calendar, n: int): string {
    if n in cal.content then cal.content[n] else ""
  }

  /** The day of the month, and what is written on that day. */
  function DayText(cal: Calendar, n: int): string {
    Decimal(Civil(n).day) + if Content(cal, n) == "" then "" else "<br>" + Escaped(Content(cal, n))
  }

  method CellText(cal: Calendar, n: int) returns (text: string)
    ensures text == DayText(cal, n)
  {
    text := Decimal(Civil(n).day);
    if n !in cal.content || cal.content[n] == "" {
      assert text + "" == text;
      return;
    }
    var written := EscapeMarkdownTableCell(cal.content[n]);
    text := text + "<br>" + written;
    assert text == DayText(cal, n);
  }

  /** The cell for a day in the table of month `k`; the test on the month compares its number only. */
  function Cell(cal: Calendar, k: int, n: int): string {
    if Civil(n).month == k % 12 + 1 && cal.start <= n <= cal.end then DayText(cal, n) else ""
  }

  lemma {:induction false} CellIsSafe(cal: Calendar, k: int, n: int)
    ensures CellSafe(Cell(cal, k, n))
  {
    var d := Decimal(Civil(n).day);
    assert CellSafe(d) by { assert forall i :: 0 <= i < |d| ==> IsDigit(d[i]); }
    EscapedSafe(Content(cal, n));
    SafeJoin("<br>", Escaped(Content(cal, n)));
    SafeJoin(d, "<br>" + Escaped(Content(cal, n)));
    assert d + "" == d;
  }

  // ----- The grid of a month -----

  /** The Sunday on or before the first of the month. */
  function FirstSunday(k: int): int {
    MonthFirst(k) - Weekday(MonthFirst(k))
  }

  /** The weeks the month reaches into. */
  function Weeks(k: int): nat {
    MonthStep(k);
    (MonthFirst(k + 1) - FirstSunday(k) + 6) / 7
  }

  function SlotDay(k: int, row: int, column: int): int {
    FirstSunday(k) + 7 * row + column
  }

  predicate IsSlot(k: int, row: int, column: int) {
    0 <= row < Weeks(k) && 0 <= column < 7
  }

  /** The slots reach at most six days before the month and six days past it. */
  lemma {:induction false} SlotNear(k: int, row: int, column: int)
    requires IsSlot(k, row, column)
    ensures MonthFirst(k) - 6 <= SlotDay(k, row, column) <= MonthFirst(k + 1) + 5
    ensures Weekday(SlotDay(k, row, column)) == column
  {
    var s := FirstSunday(k);
    assert Weekday(s) == 0 by { Quotient(s + 4, 7, (MonthFirst(k) + 4) / 7, 0); }
    WeekdayAfter(s, row, column);
    var last := MonthFirst(k + 1) - s + 6;
    assert 7 * (Weeks(k) - 1) <= last - 7;
  }

  lemma {:induction false} MonthNumber(n: int)
    ensures Civil(n).month == MonthOf(n) % 12 + 1
  {
    Quotient(MonthOf(n), 12, Civil(n).year, Civil(n).month - 1);
  }

  lemma {:induction false} NeighbourNumbers(k: int)
    ensures (k - 1) % 12 != k % 12 && (k + 1) % 12 != k % 12
  {
  }

  /** Near a month, its number alone tells which days are its own. */
  lemma {:induction false} SameNumberSameMonth(k: int, n: int)
    requires MonthFirst(k) - 6 <= n <= MonthFirst(k + 1) + 5
    ensures Civil(n).month == k % 12 + 1 <==> MonthOf(n) == k
  {
    MonthNumber(n);
    NeighbourNumbers(k);
    NearMonths(k, n);
  }

  lemma {:induction false} NearMonths(k: int, n: int)
    requires MonthFirst(k) - 6 <= n <= MonthFirst(k + 1) + 5
    ensures MonthOf(n) == k - 1 || MonthOf(n) == k || MonthOf(n) == k + 1
  {
    MonthStep(k - 1);
    MonthStep(k);
    MonthStep(k + 1);
    if n < MonthFirst(k) {
      MonthIs(n, k - 1);
    } else if n < MonthFirst(k + 1) {
      MonthIs(n, k);
    } else {
      MonthIs(n, k + 1);
    }
  }

  /** A slot is filled exactly when its day is one of the dates and belongs to the month. */
  lemma {:induction false} SlotFilled(cal: Calendar, k: int, row: int, column: int)
    requires IsSlot(k, row, column)
    ensures var n := SlotDay(k, row, column);
            Cell(cal, k, n) != "" <==> cal.start <= n <= cal.end && MonthOf(n) == k
    ensures var n := SlotDay(k, row, column); Cell(cal, k, n) != "" ==> Cell(cal, k, n) == DayText(cal, n)
  {
    SlotNear(k, row, column);
    SameNumberSameMonth(k, SlotDay(k, row, column));
  }

  /** The slot of a date in its own month. */
  lemma {:induction false} OwnSlot(n: int) returns (row: int)
    ensures IsSlot(MonthOf(n), row, Weekday(n)) && SlotDay(MonthOf(n), row, Weekday(n)) == n
  {
    var k := MonthOf(n);
    var s := FirstSunday(k);
    row := (n - s) / 7;
    assert Weekday(s) == 0 by { Quotient(s + 4, 7, (MonthFirst(k) + 4) / 7, 0); }
    WeekdayAfter(s, row, (n - s) % 7);
  }

  lemma {:induction false} NoOtherSlot(cal: Calendar, n: int, row: int, k: int, r: int, c: int)
    requires SlotDay(MonthOf(n), row, Weekday(n)) == n
    requires IsSlot(k, r, c) && SlotDay(k, r, c) == n && Cell(cal, k, n) != ""
    ensures k == MonthOf(n) && r == row && c == Weekday(n)
  {
    SlotFilled(cal, k, r, c);
    SlotNear(k, r, c);
  }

  /** Every date is in one slot, of its own month and under its weekday, and that slot's cell carries its text. */
  lemma {:induction false} DateInOneSlot(cal: Calendar, n: int) returns (row: int)
    requires cal.start <= n <= cal.end
    ensures MonthOf(cal.start) <= MonthOf(n) <= MonthOf(cal.end)
    ensures IsSlot(MonthOf(n), row, Weekday(n)) && SlotDay(MonthOf(n), row, Weekday(n)) == n
    ensures Cell(cal, MonthOf(n), n) == DayText(cal, n)
    ensures forall k, r, c :: IsSlot(k, r, c) && SlotDay(k, r, c) == n && Cell(cal, k, n) != "" ==>
              k == MonthOf(n) && r == row && c == Weekday(n)
  {
    MonthsInOrder(cal.start, n);
    MonthsInOrder(n, cal.end);
    row := OwnSlot(n);
    SlotFilled(cal, MonthOf(n), row, Weekday(n));
    forall k, r, c | IsSlot(k, r, c) && SlotDay(k, r, c) == n && Cell(cal, k, n) != ""
      ensures k == MonthOf(n) && r == row && c == Weekday(n)
    {
      NoOtherSlot(cal, n, row, k, r, c);
    }
  }

  // ----- The text -----

  function LineText(cells: seq<string>): string {
    if cells == [] then "|" else LineText(cells[..|cells| - 1]) + " " + cells[|cells| - 1] + " |"
  }

  function WeekCells(cal: Calendar, k: int, row: int): (cells: seq<string>)
    ensures |cells| == 7
  {
    CellsUpTo(cal, k, row, 7)
  }

  /** The first cells of a week. */
  function CellsUpTo(cal: Calendar, k: int, row: int, count: nat): (cells: seq<string>)
    ensures |cells| == count
  {
    if count == 0 then []
    else CellsUpTo(cal, k, row, count - 1) + [Cell(cal, k, SlotDay(k, row, count - 1))]
  }

  lemma {:induction false} CellsAreSafe(cal: Calendar, k: int, row: int, count: nat)
    ensures forall i :: 0 <= i < count ==> CellSafe(CellsUpTo(cal, k, row, count)[i])
  {
    if count > 0 {
      CellsAreSafe(cal, k, row, count - 1);
      CellIsSafe(cal, k, SlotDay(k, row, count - 1));
    }
  }

  function Lines(lines: seq<string>): string {
    if lines == [] then "" else Lines(lines[..|lines| - 1]) + lines[|lines| - 1] + "\n"
  }

  function WeekLines(cal: Calendar, k: int): seq<string> {
    seq(Weeks(k), row => LineText(WeekCells(cal, k, row)))
  }

  const COLUMNS :=
    "| Sun | Mon | Tue | Wed |" + " Thu | Fri | Sat |\n" + ("| --- | --- | --- | --- |" + " --- | --- | --- |\n")

  function MonthText(cal: Calendar, k: int): string {
    "### " + cal.header(k / 12, k % 12 + 1) + "\n\n" + COLUMNS + Lines(WeekLines(cal, k))
  }

  /** The tables with an empty line between them. */
  function Tables(tables: seq<string>): string {
    if tables == [] then ""
    else Tables(tables[..|tables| - 1]) + (if |tables| == 1 then "" else "\n") + tables[|tables| - 1]
  }

  /** The tables of all months from one to another, in order. */
  function MonthTexts(cal: Calendar, first: int, last: int): (texts: seq<string>)
    ensures |texts| == if last < first then 0 else last - first + 1
    decreases last - first + 1
  {
    if last < first then [] else MonthTexts(cal, first, last - 1) + [MonthText(cal, last)]
  }

  function CalendarText(cal: Calendar): string
    requires cal.start <= cal.end
  {
    MonthsInOrder(cal.start, cal.end);
    Tables(MonthTexts(cal, MonthOf(cal.start), MonthOf(cal.end)))
  }

  /** The separators of a line. */
  function CellEnds(s: string): nat {
    if s == "" then 0
    else CellEnds(s[..|s| - 1]) + if EndsCell(s, |s| - 1) then 1 else 0
  }

  lemma {:induction false} CellEndsAppend(s: string, c: char)
    ensures CellEnds(s + [c]) == CellEnds(s) + if c == '|' && (s == "" || s[|s| - 1] != '\\') then 1 else 0
  {
    assert (s + [c])[..|s|] == s;
  }

  lemma {:induction false} CellEndsJoin(s: string, t: string)
    requires CellSafe(t)
    ensures CellEnds(s + " " + t) == CellEnds(s)
  {
    var r := s + " ";
    if t == "" {
      CellEndsAppend(s, ' ');
      assert r + t == r;
    } else {
      var u, c := t[..|t| - 1], t[|t| - 1];
      assert forall i :: 0 <= i < |u| ==> !EndsCell(t, i) && u[i] == t[i];
      CellEndsJoin(s, u);
      CellEndsAppend(r + u, c);
      assert r + t == r + u + [c];
      assert !EndsCell(t, |t| - 1);
    }
  }

  /** A separator after a space counts even when the cell before it ends in a backslash. */
  lemma {:induction false} CellEndsClose(s: string)
    ensures CellEnds(s + " |") == CellEnds(s) + 1
  {
    CellEndsAppend(s, ' ');
    CellEndsAppend(s + " ", '|');
    assert s + " |" == s + " " + "|";
  }

  /** A line has a separator before its first cell and one after each cell, and no line break. */
  lemma {:induction false} LineHasCells(cells: seq<string>)
    requires forall i :: 0 <= i < |cells| ==> CellSafe(cells[i])
    ensures CellEnds(LineText(cells)) == |cells| + 1 && '\n' !in LineText(cells)
  {
    if cells == [] {
      CellEndsAppend("", '|');
      assert "" + "|" == "|";
    } else {
      LineHasCells(cells[..|cells| - 1]);
      LineGrows(LineText(cells[..|cells| - 1]), cells[|cells| - 1]);
    }
  }

  /** Every line of the calendar keeps its seven cells, whatever is written in them. */
  lemma {:induction false} WeekHasSevenCells(cal: Calendar, k: int, row: int)
    ensures var line := LineText(WeekCells(cal, k, row)); CellEnds(line) == 8 && '\n' !in line
  {
    var cells := WeekCells(cal, k, row);
    CellsAreSafe(cal, k, row, 7);
    LineHasCells(cells);
  }

  lemma {:induction false} LineGrows(s: string, cell: string)
    requires CellSafe(cell) && '\n' !in s
    ensures CellEnds(s + " " + cell + " |") == CellEnds(s) + 1
    ensures '\n' !in s + " " + cell + " |"
  {
    CellEndsJoin(s, cell);
    CellEndsClose(s + " " + cell);
  }

  // ----- Rendering -----

  /** A row of the input: its date text and what to write on that day. */
  datatype Entry = Entry(date: string, content: string)

  predicate DaysRead(parse: string -> Option<int>, rows: seq<Entry>) {
    forall i :: 0 <= i < |rows| ==> parse(rows[i].date).Some?
  }

  function DayOf(parse: string -> Option<int>, row: Entry): int {
    match parse(row.date) case Some(n) => n case None => 0
  }

  /** Two rows in range that fall on one day. */
  predicate DayTwice(parse: string -> Option<int>, start: int, end: int, rows: seq<Entry>) {
    exists i, j :: 0 <= i < j < |rows| && start <= DayOf(parse, rows[i]) <= end
      && DayOf(parse, rows[i]) == DayOf(parse, rows[j])
  }

  /** The content of every row in range, under its day, and nothing else. */
  ghost predicate IsContentOf(parse: string -> Option<int>, start: int, end: int, rows: seq<Entry>,
                              m: map<int, string>) {
    && (forall i :: 0 <= i < |rows| && start <= DayOf(parse, rows[i]) <= end ==>
          DayOf(parse, rows[i]) in m && m[DayOf(parse, rows[i])] == rows[i].content)
    && (forall n :: n in m ==> start <= n <= end && exists i :: 0 <= i < |rows| && DayOf(parse, rows[i]) == n)
  }

  lemma {:induction false} DayTwiceStep(parse: string -> Option<int>, start: int, end: int, rows: seq<Entry>,
                                        row: Entry)
    ensures DayTwice(parse, start, end, rows + [row]) <==>
            || DayTwice(parse, start, end, rows)
            || (start <= DayOf(parse, row) <= end
                && exists i :: 0 <= i < |rows| && DayOf(parse, rows[i]) == DayOf(parse, row))
  {
    var all := rows + [row];
    assert all[|rows|] == row && forall i :: 0 <= i < |rows| ==> all[i] == rows[i];
  }

  lemma {:induction false} ContentStep(parse: string -> Option<int>, start: int, end: int, rows: seq<Entry>,
                                       row: Entry, m: map<int, string>)
    requires IsContentOf(parse, start, end, rows, m)
    requires start <= DayOf(parse, row) <= end ==> DayOf(parse, row) !in m
    ensures IsContentOf(parse, start, end, rows + [row],
                        if start <= DayOf(parse, row) <= end then m[DayOf(parse, row) := row.content] else m)
  {
    var all := rows + [row];
    assert all[|rows|] == row && forall i :: 0 <= i < |rows| ==> all[i] == rows[i];
    var n := DayOf(parse, row);
    var next := if start <= n <= end then m[n := row.content] else m;
    forall k | k in next ensures start <= k <= end && exists i :: 0 <= i < |all| && DayOf(parse, all[i]) == k {
      if k in m {
        var i :| 0 <= i < |rows| && DayOf(parse, rows[i]) == k;
        assert DayOf(parse, all[i]) == k;
      } else {
        assert DayOf(parse, all[|rows|]) == k;
      }
    }
  }

  /** In range, a day is in the map exactly when a row gave it. */
  lemma {:induction false} InContent(parse: string -> Option<int>, start: int, end: int, rows: seq<Entry>,
                                     m: map<int, string>, n: int)
    requires IsContentOf(parse, start, end, rows, m) && start <= n <= end
    ensures n in m <==> exists i :: 0 <= i < |rows| && DayOf(parse, rows[i]) == n
  {
  }

  lemma {:induction false} FailsForAll(parse: string -> Option<int>, start: int, end: int, rows: seq<Entry>, i: nat)
    requires i < |rows|
    requires parse(rows[i].date).None? || DayTwice(parse, start, end, rows[..i + 1])
    ensures !(DaysRead(parse, rows) && !DayTwice(parse, start, end, rows))
  {
    if DayTwice(parse, start, end, rows[..i + 1]) {
      var a, b :| 0 <= a < b < i + 1 && start <= DayOf(parse, rows[..i + 1][a]) <= end
        && DayOf(parse, rows[..i + 1][a]) == DayOf(parse, rows[..i + 1][b]);
      assert rows[..i + 1][a] == rows[a] && rows[..i + 1][b] == rows[b];
    }
  }

  method ReadContent(parse: string -> Option<int>, start: int, end: int, rows: seq<Entry>)
    returns (r: Option<map<int, string>>)
    ensures r.Some? <==> DaysRead(parse, rows) && !DayTwice(parse, start, end, rows)
    ensures r.Some? ==> IsContentOf(parse, start, end, rows, r.value)
  {
    var m := map[];
    for i := 0 to |rows|
      invariant DaysRead(parse, rows[..i]) && !DayTwice(parse, start, end, rows[..i])
      invariant IsContentOf(parse, start, end, rows[..i], m)
    {
      var day := parse(rows[i].date);
      if day.None? {
        FailsForAll(parse, start, end, rows, i);
        return None;
      }
      var n := day.value;
      assert rows[..i + 1] == rows[..i] + [rows[i]];
      DayTwiceStep(parse, start, end, rows[..i], rows[i]);
      if start <= n <= end {
        InContent(parse, start, end, rows[..i], m, n);
        if n in m {
          FailsForAll(parse, start, end, rows, i);
          return None;
        }
      }
      ContentStep(parse, start, end, rows[..i], rows[i], m);
      if start <= n <= end { m := m[n := rows[i].content]; }
    }
    assert rows[..|rows|] == rows;
    r := Some(m);
  }

  method RenderCell(cal: Calendar, k: int, cursor: int) returns (text: string)
    ensures text == Cell(cal, k, cursor)
  {
    text := "";
    if Civil(cursor).month == k % 12 + 1 && cal.start <= cursor <= cal.end {
      text := CellText(cal, cursor);
    }
  }

  method RenderWeek(cal: Calendar, k: int, first: int, ghost row: int) returns (line: string)
    requires first == SlotDay(k, row, 0)
    ensures line == LineText(WeekCells(cal, k, row))
  {
    line := "|";
    var cursor := first;
    for i := 0 to 7
      invariant cursor == SlotDay(k, row, i) && line == LineText(CellsUpTo(cal, k, row, i))
    {
      var text := RenderCell(cal, k, cursor);
      LineAppend(CellsUpTo(cal, k, row, i), text);
      line := line + " " + text + " |";
      cursor := cursor + 1;
    }
  }

  lemma {:induction false} LineAppend(cells: seq<string>, cell: string)
    ensures LineText(cells + [cell]) == LineText(cells) + " " + cell + " |"
  {
    assert (cells + [cell])[..|cells|] == cells;
  }

  /** When a week begins inside the month's weeks. */
  lemma {:induction false} WeekGoesOn(k: int, row: nat)
    ensures Weekday(SlotDay(k, row, 0)) == 0
    ensures SlotDay(k, row, 0) < MonthFirst(k + 1) <==> row < Weeks(k)
  {
    var s := FirstSunday(k);
    assert Weekday(s) == 0 by { Quotient(s + 4, 7, (MonthFirst(k) + 4) / 7, 0); }
    WeekdayAfter(s, row, 0);
    MonthStep(k);
  }

  lemma {:induction false} LinesAppend(lines: seq<string>, line: string)
    ensures Lines(lines + [line]) == Lines(lines) + line + "\n"
  {
    assert (lines + [line])[..|lines|] == lines;
  }

  ghost predicate FirstWeeks(cal: Calendar, k: int, lines: seq<string>) {
    forall row :: 0 <= row < |lines| ==> lines[row] == LineText(WeekCells(cal, k, row))
  }

  lemma {:induction false} OneMoreWeek(cal: Calendar, k: int, lines: seq<string>, line: string)
    requires FirstWeeks(cal, k, lines) && line == LineText(WeekCells(cal, k, |lines|))
    ensures FirstWeeks(cal, k, lines + [line])
  {
  }

  lemma {:induction false} AllWeeks(cal: Calendar, k: int, lines: seq<string>)
    requires FirstWeeks(cal, k, lines) && |lines| == Weeks(k)
    ensures lines == WeekLines(cal, k)
  {
  }

  method AppendWeek(cal: Calendar, k: int, before: string, cursor: int, ghost lines: seq<string>)
    returns (out: string, ghost more: seq<string>)
    requires cursor == SlotDay(k, |lines|, 0) && FirstWeeks(cal, k, lines) && before == Lines(lines)
    ensures |more| == |lines| + 1 && FirstWeeks(cal, k, more) && out == Lines(more)
  {
    var line := RenderWeek(cal, k, cursor, |lines|);
    OneMoreWeek(cal, k, lines, line);
    LinesAppend(lines, line);
    more := lines + [line];
    out := before + line + "\n";
  }

  /** The weeks of a month begin on Sundays, seven days apart. */
  ghost predicate WeekBegins(k: int, row: nat, cursor: int) {
    cursor == SlotDay(k, row, 0) && Weekday(cursor) == 0 && (cursor < MonthFirst(k + 1) <==> row < Weeks(k))
  }

  lemma {:induction false} FirstWeekBegins(k: int)
    ensures WeekBegins(k, 0, MonthFirst(k) - Weekday(MonthFirst(k)))
  {
    WeekGoesOn(k, 0);
  }

  lemma {:induction false} NextWeekBegins(k: int, row: nat, cursor: int)
    requires WeekBegins(k, row, cursor)
    ensures WeekBegins(k, row + 1, cursor + 7)
  {
    WeekGoesOn(k, row + 1);
  }

  method RenderWeeks(cal: Calendar, k: int) returns (out: string)
    ensures out == Lines(WeekLines(cal, k))
  {
    var first, last := MonthFirst(k), MonthFirst(k + 1) - 1;
    var cursor := first - Weekday(first);
    out := "";
    ghost var lines: seq<string> := [];
    FirstWeekBegins(k);
    while cursor <= last || Weekday(cursor) != 0
      invariant |lines| <= Weeks(k) && WeekBegins(k, |lines|, cursor)
      invariant FirstWeeks(cal, k, lines) && out == Lines(lines)
      decreases Weeks(k) - |lines|
    {
      NextWeekBegins(k, |lines|, cursor);
      out, lines := AppendWeek(cal, k, out, cursor, lines);
      cursor := cursor + 7;
    }
    AllWeeks(cal, k, lines);
  }

  method RenderMonth(cal: Calendar, k: int) returns (out: string)
    ensures out == MonthText(cal, k)
  {
    out := "### " + cal.header(k / 12, k % 12 + 1) + "\n\n" + COLUMNS;
    var weeks := RenderWeeks(cal, k);
    out := out + weeks;
  }

  method RenderMonths(cal: Calendar) returns (out: string)
    requires cal.start <= cal.end
    ensures out == CalendarText(cal)
  {
    MonthsInOrder(cal.start, cal.end);
    out := RenderFrom(cal, MonthOf(cal.start), MonthOf(cal.end));
  }

  lemma {:induction false} TablesAppend(tables: seq<string>, table: string)
    ensures Tables(tables + [table]) == Tables(tables) + (if tables == [] then "" else "\n") + table
  {
    assert (tables + [table])[..|tables|] == tables;
  }

  lemma {:induction false} MonthAppends(cal: Calendar, first: int, k: int)
    requires first <= k
    ensures Tables(MonthTexts(cal, first, k))
         == Tables(MonthTexts(cal, first, k - 1)) + (if k == first then "" else "\n") + MonthText(cal, k)
  {
    TablesAppend(MonthTexts(cal, first, k - 1), MonthText(cal, k));
  }

  method RenderFrom(cal: Calendar, first: int, last: int) returns (out: string)
    requires first <= last
    ensures out == Tables(MonthTexts(cal, first, last))
  {
    var current := first;
    out := "";
    var firstMonth := true;
    while current <= last
      invariant first <= current <= last + 1
      invariant firstMonth <==> current == first
      invariant out == Tables(MonthTexts(cal, first, current - 1))
    {
      var month := RenderMonth(cal, current);
      MonthAppends(cal, first, current);
      if firstMonth {
        assert out + "" == out;
      } else {
        out := out + "\n";
      }
      firstMonth := false;
      out := out + month;
      current := current + 1;
    }
  }

  /** The calendar of the dates, or nothing when the end comes first or the rows do not fit. */
  method RenderMarkdownCalendar(start: int, end: int, parse: string -> Option<int>, rows: seq<Entry>,
                                header: (int, int) -> string) returns (out: Option<string>)
    ensures out.Some? <==> start <= end && DaysRead(parse, rows) && !DayTwice(parse, start, end, rows)
    ensures out.Some? ==> exists content ::
              IsContentOf(parse, start, end, rows, content)
              && out.value == CalendarText(Calendar(start, end, content, header))
  {
    if end < start { return None; }
    var content := ReadContent(parse, start, end, rows);
    if content.None? { return None; }
    var text := RenderMonths(Calendar(start, end, content.value, header));
    out := Some(text);
  }
}

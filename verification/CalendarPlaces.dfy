/** Where in the text of a calendar each day stands: in the table of its month, in the line of its week, under the name
    of its weekday. */
module CalendarPlaces {
  import opened CivilCalendar
  import opened Decimals
  import opened MarkdownCalendar

  // ----- Cells in a line -----

  /** The text is what stands between separator `i` of the line, counted from nought, and the next one. */
  ghost predicate CellAt(line: string, i: nat, text: string) {
    exists front, back :: IsCell(line, i, text, front, back)
  }

  predicate IsCell(line: string, i: nat, text: string, front: string, back: string) {
    && line == front + " " + text + " |" + back
    && CellEnds(front) == i + 1 && CellEnds(front + " " + text + " |") == i + 2
    && front != "" && EndsCell(front, |front| - 1)
  }

  lemma {:induction false} LineEndsInPipe(cells: seq<string>)
    requires forall i :: 0 <= i < |cells| ==> CellSafe(cells[i])
    ensures LineText(cells) != "" && EndsCell(LineText(cells), |LineText(cells)| - 1)
  {
    if cells != [] {
      var s := LineText(cells[..|cells| - 1]) + " " + cells[|cells| - 1];
      assert LineText(cells) == s + " |";
    }
  }

  /** A line holds its cells in order. */
  lemma {:induction false} CellsInOrder(cells: seq<string>, i: nat)
    requires i < |cells| && forall j :: 0 <= j < |cells| ==> CellSafe(cells[j])
    ensures CellAt(LineText(cells), i, cells[i])
  {
    var init, last := cells[..|cells| - 1], cells[|cells| - 1];
    if i == |cells| - 1 {
      LineHasCells(init);
      LineEndsInPipe(init);
      LineGrows(LineText(init), last);
      assert LineText(cells) == LineText(init) + " " + last + " |" + "";
      assert IsCell(LineText(cells), i, cells[i], LineText(init), "");
    } else {
      CellsInOrder(init, i);
      var front, back :| IsCell(LineText(init), i, init[i], front, back);
      FurtherBack(front + " " + init[i] + " |", back, " " + last + " |");
      assert LineText(cells) == LineText(init) + (" " + last + " |");
      assert IsCell(LineText(cells), i, cells[i], front, back + (" " + last + " |"));
    }
  }

  lemma {:induction false} FurtherBack(a: string, b: string, c: string)
    ensures (a + b) + c == a + (b + c)
  {
  }

  lemma {:induction false} CellsAre(cal: Calendar, k: int, row: int, count: nat, i: nat)
    requires i < count
    ensures CellsUpTo(cal, k, row, count)[i] == Cell(cal, k, SlotDay(k, row, i))
  {
    if i < count - 1 {
      CellsAre(cal, k, row, count - 1, i);
    }
  }

  /** Cell `i` of a week's line is that of its day. */
  lemma {:induction false} WeekCellAt(cal: Calendar, k: int, row: int, i: nat)
    requires i < 7
    ensures CellAt(LineText(WeekCells(cal, k, row)), i, Cell(cal, k, SlotDay(k, row, i)))
  {
    CellsAre(cal, k, row, 7, i);
    CellsAreSafe(cal, k, row, 7);
    CellsInOrder(WeekCells(cal, k, row), i);
  }

  const WEEKDAYS := ["Sun", "Mon", "Tue", "Wed", "Thu", "Fri", "Sat"]

  const RULES := ["---", "---", "---", "---", "---", "---", "---"]

  // ----- Lines in a text -----

  function LineBreaks(s: string): nat {
    if s == "" then 0 else LineBreaks(s[..|s| - 1]) + if s[|s| - 1] == '\n' then 1 else 0
  }

  /** Line `j` of the text, counted from nought. */
  ghost predicate LineAt(text: string, j: nat, line: string) {
    exists front, back :: IsLine(text, j, line, front, back)
  }

  predicate IsLine(text: string, j: nat, line: string, front: string, back: string) {
    && text == front + line + "\n" + back && '\n' !in line
    && LineBreaks(front) == j && (front == "" || front[|front| - 1] == '\n')
  }

  lemma {:induction false} BreaksJoin(s: string, line: string)
    requires '\n' !in line
    ensures LineBreaks(s + line) == LineBreaks(s)
  {
    if line == "" {
      assert s + line == s;
    } else {
      BreaksJoin(s, line[..|line| - 1]);
      assert (s + line)[..|s + line| - 1] == s + line[..|line| - 1];
    }
  }

  lemma {:induction false} BreakAdds(s: string)
    ensures LineBreaks(s + "\n") == LineBreaks(s) + 1
  {
    assert (s + "\n")[..|s|] == s;
  }

  lemma {:induction false} LinesBreaks(lines: seq<string>)
    requires forall j :: 0 <= j < |lines| ==> '\n' !in lines[j]
    ensures LineBreaks(Lines(lines)) == |lines|
    ensures Lines(lines) == "" || Lines(lines)[|Lines(lines)| - 1] == '\n'
  {
    if lines != [] {
      var init, last := lines[..|lines| - 1], lines[|lines| - 1];
      LinesBreaks(init);
      BreaksJoin(Lines(init), last);
      BreakAdds(Lines(init) + last);
    }
  }

  lemma {:induction false} LinesInOrder(lines: seq<string>, j: nat)
    requires j < |lines| && forall i :: 0 <= i < |lines| ==> '\n' !in lines[i]
    ensures LineAt(Lines(lines), j, lines[j])
  {
    var init, last := lines[..|lines| - 1], lines[|lines| - 1];
    if j == |lines| - 1 {
      LinesBreaks(init);
      assert Lines(lines) == Lines(init) + last + "\n" + "";
      assert IsLine(Lines(lines), j, lines[j], Lines(init), "");
    } else {
      LinesInOrder(init, j);
      var front, back :| IsLine(Lines(init), j, init[j], front, back);
      FurtherBack(front + init[j] + "\n", back, last + "\n");
      assert Lines(lines) == Lines(init) + (last + "\n");
      assert IsLine(Lines(lines), j, lines[j], front, back + (last + "\n"));
    }
  }

  /** The lines of a month: its heading, an empty line, the weekdays, a rule, and the weeks. */
  function MonthLines(cal: Calendar, k: int): seq<string> {
    ["### " + cal.header(k / 12, k % 12 + 1), "", LineText(WEEKDAYS), LineText(RULES)] + WeekLines(cal, k)
  }

  lemma {:induction false} FourCells(a: string, b: string, c: string, d: string)
    ensures LineText([a, b, c, d])
         == "|" + (" " + a + " |") + (" " + b + " |") + (" " + c + " |") + (" " + d + " |")
  {
    LineAppend([], a);
    LineAppend([a], b);
    LineAppend([a, b], c);
    LineAppend([a, b, c], d);
    assert [] + [a] == [a] && [a] + [b] == [a, b] && [a, b] + [c] == [a, b, c] && [a, b, c] + [d] == [a, b, c, d];
    Regroup("|", a);
    Regroup(LineText([a]), b);
    Regroup(LineText([a, b]), c);
    Regroup(LineText([a, b, c]), d);
  }

  lemma {:induction false} Regroup(s: string, cell: string)
    ensures s + " " + cell + " |" == s + (" " + cell + " |")
  {
  }

  lemma {:induction false} ThreeMore(cells: seq<string>, a: string, b: string, c: string)
    ensures LineText(cells + [a, b, c]) == LineText(cells) + ((" " + a + " |") + (" " + b + " |") + (" " + c + " |"))
  {
    LineAppend(cells, a);
    LineAppend(cells + [a], b);
    LineAppend(cells + [a] + [b], c);
    assert cells + [a] + [b] + [c] == cells + [a, b, c];
    Regroup(LineText(cells), a);
    Regroup(LineText(cells + [a]), b);
    Regroup(LineText(cells + [a] + [b]), c);
  }

  lemma {:induction false} WeekdayLine()
    ensures LineText(WEEKDAYS) == "| Sun | Mon | Tue | Wed |" + " Thu | Fri | Sat |"
  {
    FourCells("Sun", "Mon", "Tue", "Wed");
    ThreeMore(["Sun", "Mon", "Tue", "Wed"], "Thu", "Fri", "Sat");
    assert WEEKDAYS == ["Sun", "Mon", "Tue", "Wed"] + ["Thu", "Fri", "Sat"];
    assert "|" + (" " + "Sun" + " |") + (" " + "Mon" + " |") == "| Sun | Mon |";
    assert (" " + "Tue" + " |") + (" " + "Wed" + " |") == " Tue | Wed |";
    assert (" " + "Thu" + " |") + (" " + "Fri" + " |") + (" " + "Sat" + " |") == " Thu | Fri | Sat |";
  }

  lemma {:induction false} RuleLine()
    ensures LineText(RULES) == "| --- | --- | --- | --- |" + " --- | --- | --- |"
  {
    FourCells("---", "---", "---", "---");
    ThreeMore(["---", "---", "---", "---"], "---", "---", "---");
    assert RULES == ["---", "---", "---", "---"] + ["---", "---", "---"];
    assert "|" + (" " + "---" + " |") + (" " + "---" + " |") == "| --- | --- |";
    assert (" " + "---" + " |") + (" " + "---" + " |") == " --- | --- |";
    assert (" " + "---" + " |") + (" " + "---" + " |") + (" " + "---" + " |") == " --- | --- | --- |";
  }

  lemma {:induction false} BrokenLine(a: string, b: string, line: string)
    ensures a + b + line + "\n" == a + (b + line + "\n")
  {
  }

  lemma {:induction false} LinesJoin(a: seq<string>, b: seq<string>)
    ensures Lines(a + b) == Lines(a) + Lines(b)
  {
    if b == [] {
      assert a + b == a && Lines(a) + "" == Lines(a);
    } else {
      var init, last := b[..|b| - 1], b[|b| - 1];
      LinesJoin(a, init);
      LinesAppend(a + init, last);
      assert a + b == a + init + [last];
      BrokenLine(Lines(a), Lines(init), last);
    }
  }

  lemma {:induction false} FourLines(a: string, b: string, c: string, d: string)
    ensures Lines([a, b, c, d]) == a + "\n" + (b + "\n") + (c + "\n") + (d + "\n")
  {
    LinesAppend([], a);
    LinesAppend([a], b);
    LinesAppend([a, b], c);
    LinesAppend([a, b, c], d);
    assert [] + [a] == [a] && [a] + [b] == [a, b] && [a, b] + [c] == [a, b, c] && [a, b, c] + [d] == [a, b, c, d];
    assert "" + a + "\n" == a + "\n";
    Broken(Lines([a]), b);
    Broken(Lines([a, b]), c);
    Broken(Lines([a, b, c]), d);
  }

  lemma {:induction false} Broken(s: string, line: string)
    ensures s + line + "\n" == s + (line + "\n")
  {
  }

  /** The text of a month is made of these lines. */
  lemma {:induction false} MonthIsLines(cal: Calendar, k: int)
    ensures MonthText(cal, k) == Lines(MonthLines(cal, k))
  {
    var heading := "### " + cal.header(k / 12, k % 12 + 1);
    var w, r := LineText(WEEKDAYS), LineText(RULES);
    WeekdayLine();
    RuleLine();
    FourLines(heading, "", w, r);
    LinesJoin([heading, "", w, r], WeekLines(cal, k));
    Headed(heading, w, r);
  }

  lemma {:induction false} Headed(heading: string, w: string, r: string)
    requires w == "| Sun | Mon | Tue | Wed |" + " Thu | Fri | Sat |"
    requires r == "| --- | --- | --- | --- |" + " --- | --- | --- |"
    ensures heading + "\n" + ("" + "\n") + (w + "\n") + (r + "\n") == heading + "\n\n" + COLUMNS
  {
    assert "" + "\n" == "\n";
    assert heading + "\n" + "\n" == heading + "\n\n";
    assert " Thu | Fri | Sat |" + "\n" == " Thu | Fri | Sat |\n";
    assert " --- | --- | --- |" + "\n" == " --- | --- | --- |\n";
    assert w + "\n" == "| Sun | Mon | Tue | Wed |" + " Thu | Fri | Sat |\n";
    assert r + "\n" == "| --- | --- | --- | --- |" + " --- | --- | --- |\n";
    assert COLUMNS == (w + "\n") + (r + "\n");
  }

  predicate HeaderOk(cal: Calendar, k: int) {
    '\n' !in cal.header(k / 12, k % 12 + 1)
  }

  lemma {:induction false} WeekLinesOk(cal: Calendar, k: int)
    ensures forall row :: 0 <= row < Weeks(k) ==> '\n' !in WeekLines(cal, k)[row]
  {
    forall row: nat | row < Weeks(k) ensures '\n' !in WeekLines(cal, k)[row] {
      WeekHasSevenCells(cal, k, row);
    }
  }

  lemma {:induction false} FourAndMore(a: string, b: string, c: string, d: string, more: seq<string>)
    requires '\n' !in a && '\n' !in b && '\n' !in c && '\n' !in d
    requires forall j :: 0 <= j < |more| ==> '\n' !in more[j]
    ensures forall j :: 0 <= j < 4 + |more| ==> '\n' !in ([a, b, c, d] + more)[j]
  {
  }

  lemma {:induction false} MonthLinesOk(cal: Calendar, k: int)
    requires HeaderOk(cal, k)
    ensures |MonthLines(cal, k)| == 4 + Weeks(k)
    ensures forall j :: 0 <= j < |MonthLines(cal, k)| ==> '\n' !in MonthLines(cal, k)[j]
  {
    WeekdayLine();
    RuleLine();
    WeekLinesOk(cal, k);
    FourAndMore("### " + cal.header(k / 12, k % 12 + 1), "", LineText(WEEKDAYS), LineText(RULES), WeekLines(cal, k));
  }

  lemma {:induction false} HeadCellAt(i: nat)
    requires i < 7
    ensures CellAt(LineText(WEEKDAYS), i, WEEKDAYS[i])
  {
    CellsInOrder(WEEKDAYS, i);
  }

  /** In the text of a month the third line names the weekdays in order, Sunday first, and slot `i` of a week stands in
      cell `i` of the week's line. */
  lemma {:induction false} SlotPlace(cal: Calendar, k: int, row: nat, i: nat)
    requires IsSlot(k, row, i) && HeaderOk(cal, k)
    ensures var line := LineText(WeekCells(cal, k, row));
            LineAt(MonthText(cal, k), 4 + row, line) && CellAt(line, i, Cell(cal, k, SlotDay(k, row, i)))
    ensures LineAt(MonthText(cal, k), 2, LineText(WEEKDAYS)) && CellAt(LineText(WEEKDAYS), i, WEEKDAYS[i])
  {
    MonthIsLines(cal, k);
    MonthLinesOk(cal, k);
    LinesInOrder(MonthLines(cal, k), 2);
    LinesInOrder(MonthLines(cal, k), 4 + row);
    WeekCellAt(cal, k, row, i);
    HeadCellAt(i);
  }

  /** Every date to be shown stands in the table of its month, in the column headed by its weekday, which a rule on
      year, month and day tells. */
  lemma {:induction false} DateShown(cal: Calendar, n: int) returns (row: nat)
    requires cal.start <= n <= cal.end && HeaderOk(cal, MonthOf(n))
    ensures var k, w := MonthOf(n), WeekdayRule(Civil(n));
            && 0 <= w < 7 && row < Weeks(k)
            && LineAt(MonthText(cal, k), 4 + row, LineText(WeekCells(cal, k, row)))
            && CellAt(LineText(WeekCells(cal, k, row)), w, DayText(cal, n))
            && LineAt(MonthText(cal, k), 2, LineText(WEEKDAYS)) && CellAt(LineText(WEEKDAYS), w, WEEKDAYS[w])
  {
    row := DateInOneSlot(cal, n);
    WeekdayIs(Civil(n));
    SlotPlace(cal, MonthOf(n), row, Weekday(n));
  }

  // ----- Months in the calendar -----

  lemma {:induction false} InFront(s: seq<string>, x: string, i: nat)
    requires i <= |s|
    ensures (s + [x])[i] == if i < |s| then s[i] else x
  {
  }

  lemma {:induction false} MonthTextsEnd(cal: Calendar, first: int, last: int)
    requires first <= last
    ensures MonthTexts(cal, first, last) == MonthTexts(cal, first, last - 1) + [MonthText(cal, last)]
  {
  }

  lemma {:induction false} MonthTextsAre(cal: Calendar, first: int, last: int, k: int)
    requires first <= k <= last
    ensures MonthTexts(cal, first, last)[k - first] == MonthText(cal, k)
    decreases last - first
  {
    MonthTextsEnd(cal, first, last);
    InFront(MonthTexts(cal, first, last - 1), MonthText(cal, last), k - first);
    if k < last {
      MonthTextsAre(cal, first, last - 1, k);
    }
  }

  /** Each table follows the ones before it, with an empty line in between. */
  lemma {:induction false} TablesInOrder(tables: seq<string>, i: nat) returns (back: string)
    requires i < |tables|
    ensures Tables(tables) == Tables(tables[..i]) + (if i == 0 then "" else "\n") + tables[i] + back
    ensures i == |tables| - 1 ==> back == ""
    ensures i < |tables| - 1 ==> back != "" && back[0] == '\n'
  {
    var init, last := tables[..|tables| - 1], tables[|tables| - 1];
    if i == |tables| - 1 {
      back := "";
      assert Tables(tables) + "" == Tables(tables);
    } else {
      var more := TablesInOrder(init, i);
      assert init[..i] == tables[..i];
      back := more + ("\n" + last);
      FurtherBack(Tables(tables[..i]) + (if i == 0 then "" else "\n") + tables[i], more, "\n" + last);
      assert Tables(init) + "\n" + last == Tables(init) + ("\n" + last);
    }
  }

  /** The calendar shows the months from first to last in order, each once. */
  lemma {:induction false} MonthPlace(cal: Calendar, k: int) returns (front: string, back: string)
    requires cal.start <= cal.end && MonthOf(cal.start) <= k <= MonthOf(cal.end)
    ensures CalendarText(cal) == front + MonthText(cal, k) + back
    ensures if k == MonthOf(cal.start) then front == "" else front != "" && front[|front| - 1] == '\n'
    ensures if k == MonthOf(cal.end) then back == "" else back != "" && back[0] == '\n'
  {
    var first, last := MonthOf(cal.start), MonthOf(cal.end);
    var tables := MonthTexts(cal, first, last);
    MonthTextsAre(cal, first, last, k);
    back := TablesInOrder(tables, k - first);
    front := Tables(tables[..k - first]) + if k == first then "" else "\n";
  }

  // ----- What is written on a day -----

  lemma {:induction false} EscapedJoin(a: string, b: string)
    ensures Escaped(a + b) == Escaped(a) + Escaped(b)
  {
    if a == "" {
      assert a + b == b && Escaped(a) + Escaped(b) == Escaped(b);
    } else {
      EscapedJoin(a[1..], b);
      assert (a + b)[1..] == a[1..] + b;
      FurtherBack(EscapedChar(a[0]), Escaped(a[1..]), Escaped(b));
    }
  }

  /** Escaping works character by character: pipes get a backslash, line feeds become tags, carriage returns go, and all
      else stays. */
  lemma {:induction false} EscapedByCharacter(a: string, b: string, c: char)
    ensures Escaped(a + b) == Escaped(a) + Escaped(b)
    ensures Escaped([c]) == if c == '|' then "\\|" else if c == '\n' then "<br>" else if c == '\r' then "" else [c]
  {
    EscapedJoin(a, b);
    assert [c][1..] == "" && EscapedChar(c) + "" == EscapedChar(c);
  }

  /** A day shows its number, and after a line break what is written on it, if anything is. */
  lemma {:induction false} DayShown(cal: Calendar, n: int)
    ensures (n in cal.content ==> cal.content[n] == "") ==> DayText(cal, n) == Decimal(Civil(n).day)
    ensures n in cal.content && cal.content[n] != "" ==>
              DayText(cal, n) == Decimal(Civil(n).day) + "<br>" + Escaped(cal.content[n])
  {
    assert Decimal(Civil(n).day) + "" == Decimal(Civil(n).day);
    if n in cal.content {
      FurtherBack(Decimal(Civil(n).day), "<br>", Escaped(cal.content[n]));
    }
  }
}

/** What each spelling of a date is read as: fields of digits or question marks, either separator, whitespace around. */
module DateSpellings {
  import opened Outcomes
  import opened Characters
  import opened Decimals
  import opened CivilCalendar
  import opened FlexibleDate

  // ----- Fields and separators -----

  /** One to nine digits that stand for the number. */
  predicate Spells(text: string, n: nat) {
    AllDigits(text) && 1 <= |text| <= 9 && DecimalValue(text) == n
  }

  predicate Marks(text: string) {
    text != "" && forall i :: 0 <= i < |text| ==> text[i] == '?'
  }

  predicate Separator(c: char) {
    c == '-' || c == '/'
  }

  predicate Blank(w: string) {
    forall i :: 0 <= i < |w| ==> w[i] == ' ' || w[i] == '\t' || w[i] == '\r' || w[i] == '\n'
  }

  /** Three fields with two separators. */
  function Fields(a: string, s: char, b: string, t: char, c: string): string {
    a + ([s] + (b + ([t] + c)))
  }

  lemma {:induction false} SpelledPart(text: string, n: nat)
    requires Spells(text, n)
    ensures PartOf(text) == Some(Part(text, false, n))
  {
    DigitsAreAPart(text);
  }

  lemma {:induction false} MarkedPart(text: string)
    requires Marks(text)
    ensures PartOf(text) == Some(Part(text, true, 0))
  {
  }

  lemma {:induction false} PartHasNoSeparator(a: string)
    requires PartOf(a).Some?
    ensures FirstSeparator(a) == |a| && a != ""
    ensures !IsTrimmed(a[0]) && !IsTrimmed(a[|a| - 1])
  {
    forall i | 0 <= i < |a| ensures !IsSeparator(a[i]) && !IsTrimmed(a[i]) {
      assert a[i] == '?' || IsDigit(a[i]);
    }
    FirstSeparatorIs(a, |a|);
  }

  lemma {:induction false} SeparatorAfter(a: string, s: char, rest: string)
    requires PartOf(a).Some? && Separator(s)
    ensures var text := a + ([s] + rest);
            FirstSeparator(text) == |a| && |a| < |text| && text[..|a|] == a && text[|a| + 1..] == rest
  {
    var text := a + ([s] + rest);
    PartHasNoSeparator(a);
    assert text[|a|] == s && forall i :: 0 <= i < |a| ==> text[i] == a[i];
    FirstSeparatorIs(text, |a|);
  }

  lemma {:induction false} PartInFront(a: string, s: char, rest: string, room: nat)
    requires PartOf(a).Some? && Separator(s) && room > 0
    ensures Parts(a + ([s] + rest), room) ==
      match Parts(rest, room - 1)
      case None => None
      case Some(more) => Some([PartOf(a).value] + more)
  {
    SeparatorAfter(a, s, rest);
  }

  lemma {:induction false} PartAlone(a: string, room: nat)
    requires PartOf(a).Some? && room > 0
    ensures Parts(a, room) == Some([PartOf(a).value])
  {
    PartHasNoSeparator(a);
    assert a[..|a|] == a;
  }

  lemma {:induction false} ThreeFields(a: string, s: char, b: string, t: char, c: string)
    requires PartOf(a).Some? && PartOf(b).Some? && PartOf(c).Some? && Separator(s) && Separator(t)
    ensures SplitOf(Fields(a, s, b, t, c)) == Some([PartOf(a).value, PartOf(b).value, PartOf(c).value])
  {
    PartInFront(a, s, b + ([t] + c), 3);
    PartInFront(b, t, c, 2);
    PartAlone(c, 1);
    assert [PartOf(b).value] + [PartOf(c).value] == [PartOf(b).value, PartOf(c).value];
    assert [PartOf(a).value] + [PartOf(b).value, PartOf(c).value]
        == [PartOf(a).value, PartOf(b).value, PartOf(c).value];
  }

  lemma {:induction false} TwoFields(a: string, s: char, b: string)
    requires PartOf(a).Some? && PartOf(b).Some? && Separator(s)
    ensures SplitOf(a + ([s] + b)) == Some([PartOf(a).value, PartOf(b).value])
  {
    PartInFront(a, s, b, 3);
    PartAlone(b, 2);
    assert [PartOf(a).value] + [PartOf(b).value] == [PartOf(a).value, PartOf(b).value];
  }

  // ----- Whitespace -----

  lemma {:induction false} LeftTrimmed(w: string, s: string)
    requires Blank(w) && (s != "" ==> !IsTrimmed(s[0]))
    ensures TrimLeft(w + s) == s
  {
    if w == "" {
      assert w + s == s;
    } else {
      assert IsTrimmed(w[0]) && (w + s)[0] == w[0] && (w + s)[1..] == w[1..] + s;
      LeftTrimmed(w[1..], s);
    }
  }

  lemma {:induction false} RightTrimmed(s: string, w: string)
    requires Blank(w) && (s != "" ==> !IsTrimmed(s[|s| - 1]))
    ensures TrimRight(s + w) == s
  {
    if w == "" {
      assert s + w == s;
    } else {
      var n := |w| - 1;
      assert IsTrimmed(w[n]) && (s + w)[|s + w| - 1] == w[n] && (s + w)[..|s + w| - 1] == s + w[..n];
      RightTrimmed(s, w[..n]);
    }
  }

  lemma {:induction false} Trimmed(before: string, s: string, after: string)
    requires Blank(before) && Blank(after) && s != "" && !IsTrimmed(s[0]) && !IsTrimmed(s[|s| - 1])
    ensures Trim(before + (s + after)) == s
  {
    LeftTrimmed(before, s + after);
    RightTrimmed(s, after);
  }

  lemma {:induction false} FieldsTrimmed(before: string, a: string, s: char, b: string, t: char, c: string,
                                         after: string)
    requires Blank(before) && Blank(after) && PartOf(a).Some? && PartOf(b).Some? && PartOf(c).Some?
    requires Separator(s) && Separator(t)
    ensures Trim(before + (Fields(a, s, b, t, c) + after)) == Fields(a, s, b, t, c)
  {
    PartHasNoSeparator(a);
    PartHasNoSeparator(c);
    var text := Fields(a, s, b, t, c);
    assert text[0] == a[0] && text[|text| - 1] == c[|c| - 1];
    Trimmed(before, text, after);
  }

  /** What the fields are read as. */
  lemma {:induction false} FieldsRead(before: string, a: string, s: char, b: string, t: char, c: string, after: string,
                                      x: nat, y: nat, z: nat, order: Order)
    requires Blank(before) && Blank(after) && Separator(s) && Separator(t)
    requires Spells(a, x) && Spells(b, y) && Spells(c, z)
    ensures var text := before + (Fields(a, s, b, t, c) + after);
            var parts := [Part(a, false, x), Part(b, false, y), Part(c, false, z)];
            && SplitOf(Trim(text)) == Some(parts) && IsFullSplit(parts)
            && ParseFlexibleDate(text, order) == FullDate(parts, order)
  {
    SpelledPart(a, x);
    SpelledPart(b, y);
    SpelledPart(c, z);
    FieldsTrimmed(before, a, s, b, t, c, after);
    ThreeFields(a, s, b, t, c);
  }

  // ----- Full dates -----

  /** The day of a date, where there is one. */
  function DayOf(year: nat, month: nat, day: nat): Option<int> {
    if IsDate(Date(year, month, day)) then Some(DayNumber(Date(year, month, day))) else None
  }

  /** Year, month, day: a first field of four digits is the year, under either order. */
  lemma {:induction false} YearMonthDay(before: string, a: string, s: char, b: string, t: char, c: string,
                                        after: string, year: nat, month: nat, day: nat, order: Order)
    requires Blank(before) && Blank(after) && Separator(s) && Separator(t)
    requires Spells(a, year) && |a| == 4 && Spells(b, month) && Spells(c, day)
    ensures ParseFlexibleDate(before + (Fields(a, s, b, t, c) + after), order) == DayOf(year, month, day)
    ensures FindDateOrderClue(before + (Fields(a, s, b, t, c) + after)) == NoClue
  {
    FieldsRead(before, a, s, b, t, c, after, year, month, day, order);
  }

  /** Month, day, year under the order of months first, and under both where the day is no number of a month. */
  lemma {:induction false} MonthDayYear(before: string, a: string, s: char, b: string, t: char, c: string,
                                        after: string, year: nat, month: nat, day: nat)
    requires Blank(before) && Blank(after) && Separator(s) && Separator(t)
    requires Spells(a, month) && |a| != 4 && Spells(b, day) && Spells(c, year) && |c| == 4
    requires IsDate(Date(year, month, day))
    ensures var text := before + (Fields(a, s, b, t, c) + after);
            && ParseFlexibleDate(text, MonthDay) == Some(DayNumber(Date(year, month, day)))
            && (day > 12 ==> ParseFlexibleDate(text, DayMonth) == Some(DayNumber(Date(year, month, day))))
            && FindDateOrderClue(text) == if day > 12 then Clear(MonthDay) else NoClue
  {
    FieldsRead(before, a, s, b, t, c, after, month, day, year, MonthDay);
    FieldsRead(before, a, s, b, t, c, after, month, day, year, DayMonth);
  }

  /** Day, month, year under the order of days first, and under both where the day is no number of a month. */
  lemma {:induction false} DayMonthYear(before: string, a: string, s: char, b: string, t: char, c: string,
                                        after: string, year: nat, month: nat, day: nat)
    requires Blank(before) && Blank(after) && Separator(s) && Separator(t)
    requires Spells(a, day) && |a| != 4 && Spells(b, month) && Spells(c, year) && |c| == 4
    requires IsDate(Date(year, month, day))
    ensures var text := before + (Fields(a, s, b, t, c) + after);
            && ParseFlexibleDate(text, DayMonth) == Some(DayNumber(Date(year, month, day)))
            && (day > 12 ==> ParseFlexibleDate(text, MonthDay) == Some(DayNumber(Date(year, month, day))))
            && FindDateOrderClue(text) == if day > 12 then Clear(DayMonth) else NoClue
  {
    FieldsRead(before, a, s, b, t, c, after, day, month, year, MonthDay);
    FieldsRead(before, a, s, b, t, c, after, day, month, year, DayMonth);
  }

  /** Three fields that are no date in any such way are none at all: without a year of four digits at either end, or
      with a day and a month that the calendar does not have. */
  lemma {:induction false} NoDate(before: string, a: string, s: char, b: string, t: char, c: string, after: string,
                                  x: nat, y: nat, z: nat, order: Order)
    requires Blank(before) && Blank(after) && Separator(s) && Separator(t)
    requires Spells(a, x) && Spells(b, y) && Spells(c, z) && |a| != 4
    requires |c| != 4 || (!IsDate(Date(z, x, y)) && !IsDate(Date(z, y, x)))
    ensures ParseFlexibleDate(before + (Fields(a, s, b, t, c) + after), order) == None
  {
    FieldsRead(before, a, s, b, t, c, after, x, y, z, order);
  }

  /** What three fields tell about the order: nothing when the year comes first, and otherwise a number above 12 is the
      day's, if only one is. */
  lemma {:induction false} ClueOfFields(before: string, a: string, s: char, b: string, t: char, c: string,
                                        after: string, x: nat, y: nat, z: nat)
    requires Blank(before) && Blank(after) && Separator(s) && Separator(t)
    requires Spells(a, x) && Spells(b, y) && Spells(c, z)
    ensures var clue := FindDateOrderClue(before + (Fields(a, s, b, t, c) + after));
            && (|a| == 4 ==> clue == NoClue)
            && (|a| != 4 && |c| != 4 ==> clue == Invalid)
            && (|a| != 4 && |c| == 4 ==>
                  clue == if x > 12 >= y then Clear(DayMonth) else if y > 12 >= x then Clear(MonthDay) else NoClue)
  {
    FieldsRead(before, a, s, b, t, c, after, x, y, z, MonthDay);
  }

  /** Values that are empty or tell nothing are read month first. */
  lemma {:induction false} WithoutClues(values: seq<string>)
    requires forall i :: 0 <= i < |values| ==> values[i] == "" || FindDateOrderClue(values[i]) == NoClue
    ensures Consistent(values) && InferredOrder(values) == MonthDay
  {
  }

  // ----- Dates known in part -----

  lemma {:induction false} NotStripped(s: string)
    requires forall i :: 0 <= i < |s| ==> s[i] != 'T' && s[i] != ' '
    ensures StripTimeSuffix(s) == s
  {
    NoTimeMark(s);
  }

  lemma {:induction false} PartPlain(a: string)
    requires PartOf(a).Some?
    ensures forall i :: 0 <= i < |a| ==> a[i] != 'T' && a[i] != ' '
  {
    forall i | 0 <= i < |a| ensures a[i] != 'T' && a[i] != ' ' {
      assert a[i] == '?' || IsDigit(a[i]);
    }
  }

  lemma {:induction false} YearAlone(before: string, a: string, after: string, year: nat, order: Order)
    requires Blank(before) && Blank(after) && Spells(a, year) && |a| == 4
    ensures ParsePartialDate(before + (a + after), order) == Some(FlexibleDate(year, 1, 1, Year))
  {
    SpelledPart(a, year);
    FieldAloneRead(before, a, after);
  }

  /** The month of a year, where there is one. */
  function MonthOfYear(year: nat, month: nat): Option<FlexibleDate> {
    if 1 <= month <= 12 then Some(FlexibleDate(year, month, 1, Month)) else None
  }

  lemma {:induction false} TwoFieldsRead(before: string, a: string, s: char, b: string, after: string, order: Order)
    requires Blank(before) && Blank(after) && PartOf(a).Some? && PartOf(b).Some? && Separator(s)
    ensures ParsePartialDate(before + (a + ([s] + b) + after), order) == TwoParts(PartOf(a).value, PartOf(b).value)
  {
    var text := a + ([s] + b);
    PartHasNoSeparator(a);
    PartHasNoSeparator(b);
    assert text[0] == a[0] && text[|text| - 1] == b[|b| - 1];
    Trimmed(before, text, after);
    PartPlain(a);
    PartPlain(b);
    forall i | 0 <= i < |text| ensures text[i] != 'T' && text[i] != ' ' {
      if i > |a| { assert text[i] == b[i - |a| - 1]; }
    }
    NotStripped(text);
    TwoFields(a, s, b);
  }

  lemma {:induction false} FirstOfMonth(year: nat, month: nat)
    ensures IsDate(Date(year, month, 1)) <==> 1 <= month <= 12
  {
  }

  /** Year and month in either order; without the month the year is known. */
  lemma {:induction false} YearAndMonth(before: string, a: string, s: char, b: string, after: string, year: nat,
                                        month: nat, order: Order)
    requires Blank(before) && Blank(after) && Separator(s) && Spells(a, year) && |a| == 4
    ensures Spells(b, month) ==>
              ParsePartialDate(before + (a + ([s] + b) + after), order) == MonthOfYear(year, month)
    ensures Spells(b, month) && |b| != 4 ==>
              ParsePartialDate(before + (b + ([s] + a) + after), order) == MonthOfYear(year, month)
    ensures Marks(b) ==>
              ParsePartialDate(before + (a + ([s] + b) + after), order) == Some(FlexibleDate(year, 1, 1, Year))
              == ParsePartialDate(before + (b + ([s] + a) + after), order)
  {
    SpelledPart(a, year);
    FirstOfMonth(year, month);
    if Spells(b, month) { SpelledPart(b, month); }
    if Marks(b) { MarkedPart(b); }
    if Spells(b, month) || Marks(b) {
      TwoFieldsRead(before, a, s, b, after, order);
      TwoFieldsRead(before, b, s, a, after, order);
    }
  }

  lemma {:induction false} ThreeFieldsRead(before: string, a: string, s: char, b: string, t: char, c: string,
                                           after: string, order: Order)
    requires Blank(before) && Blank(after) && PartOf(a).Some? && PartOf(b).Some? && PartOf(c).Some?
    requires Separator(s) && Separator(t)
    ensures ParsePartialDate(before + (Fields(a, s, b, t, c) + after), order)
         == ThreeParts([PartOf(a).value, PartOf(b).value, PartOf(c).value], order)
  {
    var text := Fields(a, s, b, t, c);
    FieldsTrimmed(before, a, s, b, t, c, after);
    PartPlain(a);
    PartPlain(b);
    PartPlain(c);
    forall i | 0 <= i < |text| ensures text[i] != 'T' && text[i] != ' ' {
      FieldCharacter(a, s, b, t, c, i);
    }
    NotStripped(text);
    ThreeFields(a, s, b, t, c);
  }

  lemma {:induction false} FieldCharacter(a: string, s: char, b: string, t: char, c: string, i: nat)
    requires i < |Fields(a, s, b, t, c)|
    ensures Fields(a, s, b, t, c)[i] in a || Fields(a, s, b, t, c)[i] in b || Fields(a, s, b, t, c)[i] in c
            || Fields(a, s, b, t, c)[i] == s || Fields(a, s, b, t, c)[i] == t
  {
  }

  /** Three fields with unknown ones: the month counts where it is known, and otherwise only the year. */
  lemma {:induction false} PartlyKnown(before: string, a: string, s: char, b: string, t: char, c: string, after: string,
                                       year: nat, month: nat, order: Order)
    requires Blank(before) && Blank(after) && Separator(s) && Separator(t) && Spells(a, year) && |a| == 4
    requires (Spells(b, month) && |b| != 4) || Marks(b)
    requires Marks(c)
    ensures var wanted := if Marks(b) then Some(FlexibleDate(year, 1, 1, Year)) else MonthOfYear(year, month);
            && ParsePartialDate(before + (Fields(a, s, b, t, c) + after), order) == wanted
            && ParsePartialDate(before + (Fields(c, s, b, t, a) + after), order) == wanted
            && ParsePartialDate(before + (Fields(b, s, c, t, a) + after), order) == wanted
  {
    SpelledPart(a, year);
    FirstOfMonth(year, month);
    if Marks(b) { MarkedPart(b); } else { SpelledPart(b, month); }
    MarkedPart(c);
    ThreeFieldsRead(before, a, s, b, t, c, after, order);
    ThreeFieldsRead(before, c, s, b, t, a, after, order);
    ThreeFieldsRead(before, b, s, c, t, a, after, order);
  }

  /** With the year in front an unknown month leaves the year, whatever is said of the day. */
  lemma {:induction false} MonthUnknown(before: string, a: string, s: char, b: string, t: char, c: string,
                                        after: string, year: nat, order: Order)
    requires Blank(before) && Blank(after) && Separator(s) && Separator(t) && Spells(a, year) && |a| == 4
    requires Marks(b) && PartOf(c).Some?
    ensures ParsePartialDate(before + (Fields(a, s, b, t, c) + after), order) == Some(FlexibleDate(year, 1, 1, Year))
  {
    SpelledPart(a, year);
    MarkedPart(b);
    ThreeFieldsRead(before, a, s, b, t, c, after, order);
  }

  /** Four digits. */
  predicate YearText(a: string) {
    AllDigits(a) && |a| == 4
  }

  lemma {:induction false} YearPart(a: string)
    requires PartOf(a).Some?
    ensures IsYear(PartOf(a).value) <==> YearText(a)
  {
    assert AllDigits(a) ==> IsDigit(a[0]);
  }

  /** Without a year of four digits, at the one end or the other, nothing is known. */
  lemma {:induction false} NoYear(before: string, a: string, s: char, b: string, t: char, c: string, after: string,
                                  order: Order)
    requires Blank(before) && Blank(after) && Separator(s) && Separator(t)
    requires PartOf(a).Some? && PartOf(b).Some? && PartOf(c).Some? && !YearText(a)
    ensures ParsePartialDate(before + (a + after), order) == None
    ensures !YearText(b) ==> ParsePartialDate(before + (a + ([s] + b) + after), order) == None
    ensures !YearText(c) ==> ParsePartialDate(before + (Fields(a, s, b, t, c) + after), order) == None
  {
    YearPart(a);
    YearPart(b);
    YearPart(c);
    FieldAloneRead(before, a, after);
    TwoFieldsRead(before, a, s, b, after, order);
    ThreeFieldsRead(before, a, s, b, t, c, after, order);
  }

  lemma {:induction false} FieldAloneRead(before: string, a: string, after: string)
    requires Blank(before) && Blank(after) && PartOf(a).Some?
    ensures SplitOf(StripTimeSuffix(Trim(before + (a + after)))) == Some([PartOf(a).value])
  {
    PartHasNoSeparator(a);
    Trimmed(before, a, after);
    PartPlain(a);
    NotStripped(a);
    PartAlone(a, 3);
  }

  // ----- Printed dates -----

  lemma {:induction false} TwoDigits(n: nat)
    requires n <= 31
    ensures Spells(Padded(n, 2), n) && |Padded(n, 2)| == 2
  {
    assert Power10(2) == 10 * Power10(1) && Power10(1) == 10 * Power10(0);
    PaddedDigits(n, 2);
  }

  lemma {:induction false} FourDigits(n: nat)
    requires n <= 9999
    ensures Spells(Padded(n, 4), n) && |Padded(n, 4)| == 4
  {
    assert Power10(4) == 10 * Power10(3) && Power10(3) == 10 * Power10(2) && Power10(2) == 10 * Power10(1);
    assert Power10(1) == 10 * Power10(0);
    PaddedDigits(n, 4);
  }

  lemma {:induction false} MonthsAndDays(d: Date)
    requires IsDate(d)
    ensures 1 <= d.month <= 12 && 1 <= d.day <= 31
  {
  }

  /** Every date of the years 0 to 9999, printed with two digits for the month and the day and four for the year, is
      read back: year first under both orders, month first and day first under the order that says so. */
  lemma {:induction false} PrintedDateRead(d: Date, s: char, t: char, order: Order)
    requires IsDate(d) && 0 <= d.year <= 9999 && Separator(s) && Separator(t)
    ensures var year, month, day := Padded(d.year, 4), Padded(d.month, 2), Padded(d.day, 2);
            && ParseFlexibleDate(Fields(year, s, month, t, day), order) == Some(DayNumber(d))
            && ParseFlexibleDate(Fields(month, s, day, t, year), MonthDay) == Some(DayNumber(d))
            && ParseFlexibleDate(Fields(day, s, month, t, year), DayMonth) == Some(DayNumber(d))
  {
    MonthsAndDays(d);
    var year, month, day := Padded(d.year, 4), Padded(d.month, 2), Padded(d.day, 2);
    FourDigits(d.year);
    TwoDigits(d.month);
    TwoDigits(d.day);
    assert Date(d.year, d.month, d.day) == d;
    YearMonthDay("", year, s, month, t, day, "", d.year, d.month, d.day, order);
    MonthDayYear("", month, s, day, t, year, "", d.year, d.month, d.day);
    DayMonthYear("", day, s, month, t, year, "", d.year, d.month, d.day);
    Unpadded(Fields(year, s, month, t, day));
    Unpadded(Fields(month, s, day, t, year));
    Unpadded(Fields(day, s, month, t, year));
  }

  lemma {:induction false} Unpadded(text: string)
    ensures "" + (text + "") == text
  {
  }

  /** The ISO text of a date: year, month and day in their digits, with dashes between. */
  lemma {:induction false} IsoShape(d: FlexibleDate)
    requires d.year <= 9999 && d.month <= 31 && d.day <= 31
    ensures var text := FormatIsoDate(d);
            && |text| == 10 && text[4] == '-' && text[7] == '-'
            && Spells(text[..4], d.year) && Spells(text[5..7], d.month) && Spells(text[8..], d.day)
  {
    FourDigits(d.year);
    TwoDigits(d.month);
    TwoDigits(d.day);
    var text := FormatIsoDate(d);
    assert text[..4] == Padded(d.year, 4) && text[5..7] == Padded(d.month, 2) && text[8..] == Padded(d.day, 2);
  }

  // ----- A time of day after the date -----

  lemma {:induction false} FirstMarkAt(t: string, rest: string)
    requires (forall i :: 0 <= i < |t| ==> t[i] != 'T' && t[i] != ' ') && rest != "" && rest[0] in "T "
    ensures FirstTimeMark(t + rest) == |t|
  {
    if t == "" {
      assert t + rest == rest;
    } else {
      assert (t + rest)[1..] == t[1..] + rest;
      FirstMarkAt(t[1..], rest);
    }
  }

  lemma {:induction false} TimeStripped(text: string, tail: string)
    requires StartsWithYear(text) && (forall i :: 0 <= i < |text| ==> text[i] != 'T' && text[i] != ' ')
    requires |tail| >= 2 && tail[0] in "T " && IsDigit(tail[1])
    ensures StripTimeSuffix(text + tail) == text
  {
    FirstMarkAt(text, tail);
    assert forall i :: 0 <= i < 5 ==> (text + tail)[i] == text[i];
    assert (text + tail)[|text| + 1] == tail[1] && (text + tail)[..|text|] == text;
  }

  lemma {:induction false} YearInFront(a: string, s: char, rest: string)
    requires AllDigits(a) && |a| == 4 && Separator(s)
    requires forall i :: 0 <= i < |rest| ==> rest[i] != 'T' && !IsTrimmed(rest[i])
    ensures var text := a + ([s] + rest);
            && StartsWithYear(text) && !IsTrimmed(text[0]) && !IsTrimmed(text[|text| - 1])
            && forall i :: 0 <= i < |text| ==> text[i] != 'T' && text[i] != ' '
  {
    var text := a + ([s] + rest);
    forall i | 0 <= i < |text| ensures text[i] != 'T' && !IsTrimmed(text[i]) {
      assert text[i] == if i < 4 then a[i] else if i == 4 then s else rest[i - 5];
    }
  }

  /** After a text that starts with a year, a time of day does not matter: a `T` or a space, a digit and anything
      else. */
  lemma {:induction false} TimeDropped(a: string, s: char, rest: string, mark: char, hour: char, more: string,
                                       order: Order)
    requires AllDigits(a) && |a| == 4 && Separator(s) && (mark == 'T' || mark == ' ') && IsDigit(hour)
    requires forall i :: 0 <= i < |rest| ==> rest[i] != 'T' && !IsTrimmed(rest[i])
    requires more != "" ==> !IsTrimmed(more[|more| - 1])
    ensures var text := a + ([s] + rest);
            ParsePartialDate(text + ([mark, hour] + more), order) == ParsePartialDate(text, order)
  {
    var text, tail := a + ([s] + rest), [mark, hour] + more;
    YearInFront(a, s, rest);
    Untrimmed(text);
    assert tail[|tail| - 1] == if more == "" then hour else more[|more| - 1];
    assert (text + tail)[|text + tail| - 1] == tail[|tail| - 1] && (text + tail)[0] == text[0];
    Untrimmed(text + tail);
    NotStripped(text);
    TimeStripped(text, tail);
    ReadAlike(text + tail, text, order);
  }

  lemma {:induction false} ReadAlike(a: string, b: string, order: Order)
    requires StripTimeSuffix(Trim(a)) == StripTimeSuffix(Trim(b))
    ensures ParsePartialDate(a, order) == ParsePartialDate(b, order)
  {
  }

  // ----- Nothing else is a date -----

  /** A fourth field is one too many. */
  lemma {:induction false} FourFieldsFail(a: string, s: char, b: string, t: char, c: string, u: char, rest: string)
    requires PartOf(a).Some? && PartOf(b).Some? && PartOf(c).Some? && Separator(s) && Separator(t) && Separator(u)
    ensures SplitOf(Fields(a, s, b, t, c + ([u] + rest))) == None
  {
    PartInFront(a, s, b + ([t] + (c + ([u] + rest))), 3);
    PartInFront(b, t, c + ([u] + rest), 2);
    PartInFront(c, u, rest, 1);
  }

  lemma {:induction false} TrimmedOff(text: string) returns (before: string, after: string)
    ensures Blank(before) && Blank(after) && text == before + (Trim(text) + after)
  {
    var left := TrimLeft(text);
    before := TrimmedLeft(text);
    after := TrimmedRight(left);
  }

  lemma {:induction false} TrimmedLeft(s: string) returns (before: string)
    ensures Blank(before) && s == before + TrimLeft(s)
  {
    before := "";
    if s != "" && IsTrimmed(s[0]) {
      var more := TrimmedLeft(s[1..]);
      before := [s[0]] + more;
      assert s == [s[0]] + (more + TrimLeft(s[1..]));
    }
  }

  lemma {:induction false} TrimmedRight(s: string) returns (after: string)
    ensures Blank(after) && s == TrimRight(s) + after
  {
    after := "";
    if s != "" && IsTrimmed(s[|s| - 1]) {
      var n := |s| - 1;
      var more := TrimmedRight(s[..n]);
      after := more + [s[n]];
      assert s == TrimRight(s[..n]) + more + [s[n]];
    }
  }

  lemma {:induction false} OnlyField(text: string, room: nat)
    requires Parts(text, room).Some? && |Parts(text, room).value| == 1
    ensures PartOf(text) == Some(Parts(text, room).value[0])
  {
    assert text[..|text|] == text;
  }

  lemma {:induction false} FirstField(text: string, room: nat) returns (a: string, s: char, rest: string)
    requires room > 0 && Parts(text, room).Some? && |Parts(text, room).value| > 1
    ensures PartOf(a) == Some(Parts(text, room).value[0]) && Separator(s) && text == a + ([s] + rest)
    ensures Parts(rest, room - 1) == Some(Parts(text, room).value[1..])
  {
    var k := FirstSeparator(text);
    a, s, rest := text[..k], text[k], text[k + 1..];
    var more := Parts(rest, room - 1).value;
    assert ([PartOf(a).value] + more)[1..] == more;
  }

  lemma {:induction false} FieldsOf(text: string) returns (a: string, s: char, b: string, t: char, c: string)
    requires SplitOf(text).Some? && |SplitOf(text).value| == 3
    ensures text == Fields(a, s, b, t, c) && Separator(s) && Separator(t)
    ensures PartOf(a) == Some(SplitOf(text).value[0]) && PartOf(b) == Some(SplitOf(text).value[1])
    ensures PartOf(c) == Some(SplitOf(text).value[2])
  {
    var parts := SplitOf(text).value;
    var rest;
    a, s, rest := FirstField(text, 3);
    b, t, c := FirstField(rest, 2);
    OnlyField(c, 1);
    assert parts[1..][0] == parts[1] && parts[1..][1..][0] == parts[2];
  }

  /** Whatever is read as a date, or counts for the order, is three numbers with separators between and whitespace
      around, one of them at an end a year of four digits. */
  lemma {:induction false} DateIsSpelled(text: string, order: Order)
    returns (before: string, a: string, s: char, b: string, t: char, c: string, after: string)
    requires ParseFlexibleDate(text, order).Some? || FindDateOrderClue(text) != Invalid
    ensures Blank(before) && Blank(after) && Separator(s) && Separator(t)
    ensures text == before + (Fields(a, s, b, t, c) + after)
    ensures AllDigits(a) && AllDigits(b) && AllDigits(c)
    ensures Spells(a, DecimalValue(a)) && Spells(b, DecimalValue(b)) && Spells(c, DecimalValue(c))
    ensures |a| == 4 || |c| == 4
  {
    before, after := TrimmedOff(text);
    a, s, b, t, c := FieldsOf(Trim(text));
    PartsAreKnown(SplitOf(Trim(text)).value, a, b, c);
  }

  lemma {:induction false} PartsAreKnown(parts: seq<Part>, a: string, b: string, c: string)
    requires IsFullSplit(parts)
    requires PartOf(a) == Some(parts[0]) && PartOf(b) == Some(parts[1]) && PartOf(c) == Some(parts[2])
    ensures AllDigits(a) && AllDigits(b) && AllDigits(c)
    ensures Spells(a, DecimalValue(a)) && Spells(b, DecimalValue(b)) && Spells(c, DecimalValue(c))
  {
    assert !parts[0].unknown && !parts[1].unknown && !parts[2].unknown;
  }
}

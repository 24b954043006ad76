/** Dates in several spellings: year first or last, month or day first, parts unknown. Days are day numbers. */
module FlexibleDate {
  import opened Outcomes
  import opened Characters
  import opened Decimals
  import opened CivilCalendar

  datatype Order = MonthDay | DayMonth

  datatype Precision = Day | Month | Year

  /** A date known to some precision; what is not known is 1. */
  datatype FlexibleDate = FlexibleDate(year: nat, month: nat, day: nat, precision: Precision)

  datatype Clue = NoClue | Clear(order: Order) | Invalid

  datatype Part = Part(text: string, unknown: bool, value: nat)

  // ----- Splitting -----

  predicate IsTrimmed(c: char) {
    c in " \t\r\n"
  }

  function TrimLeft(s: string): string {
    if s != "" && IsTrimmed(s[0]) then TrimLeft(s[1..]) else s
  }

  function TrimRight(s: string): string {
    if s != "" && IsTrimmed(s[|s| - 1]) then TrimRight(s[..|s| - 1]) else s
  }

  function Trim(s: string): string {
    TrimRight(TrimLeft(s))
  }

  predicate AllMarks(s: string) {
    forall i :: 0 <= i < |s| ==> s[i] == '?'
  }

  const MAX_DIGITS := 9

  function PartOf(text: string): (r: Option<Part>)
    ensures r.Some? ==> r.value.text == text && text != ""
    ensures r.Some? && !r.value.unknown ==> AllDigits(text) && r.value.value == DecimalValue(text)
  {
    if text == "" then None
    else if AllMarks(text) then Some(Part(text, true, 0))
    else if |text| > MAX_DIGITS || !AllDigits(text) then None
    else Some(Part(text, false, DecimalValue(text)))
  }

  method ParsePart(text: string) returns (r: Option<Part>)
    ensures r == PartOf(text)
  {
    if text == "" { return None; }
    if AllMarks(text) { return Some(Part(text, true, 0)); }
    if |text| > MAX_DIGITS { return None; }
    var value := 0;
    for i := 0 to |text|
      invariant AllDigits(text[..i]) && value == DecimalValue(text[..i])
    {
      assert text[..i + 1] == text[..i] + [text[i]];
      assert text[..i + 1][i] == text[i];
      if !IsDigit(text[i]) { return None; }
      assert text[..i + 1][..i] == text[..i];
      value := value * 10 + (text[i] as int - '0' as int);
    }
    assert text[..|text|] == text;
    r := Some(Part(text, false, value));
  }

  /** A known part fits the 32 bits it is held in. */
  lemma {:induction false} PartFits(s: string)
    requires AllDigits(s) && |s| <= MAX_DIGITS
    ensures DecimalValue(s) < 0x1_0000_0000
  {
    DigitsBound(s, MAX_DIGITS);
    assert Power10(9) == 10 * Power10(8) && Power10(8) == 10 * Power10(7) && Power10(7) == 10 * Power10(6);
    assert Power10(6) == 10 * Power10(5) && Power10(5) == 10 * Power10(4) && Power10(4) == 10 * Power10(3);
    assert Power10(3) == 10 * Power10(2) && Power10(2) == 10 * Power10(1) && Power10(1) == 10 * Power10(0);
  }

  lemma {:induction false} DigitsBound(s: string, k: nat)
    requires AllDigits(s) && |s| <= k
    ensures DecimalValue(s) < Power10(k)
  {
    if s == "" {
      if k > 0 { DigitsBound(s, k - 1); }
    } else {
      DigitsBound(s[..|s| - 1], k - 1);
    }
  }

  predicate IsSeparator(c: char) {
    c == '-' || c == '/'
  }

  /** The place of the first separator, or the length. */
  function FirstSeparator(s: string): (k: nat)
    ensures k <= |s| && (forall i :: 0 <= i < k ==> !IsSeparator(s[i]))
    ensures k < |s| ==> IsSeparator(s[k])
  {
    if s == "" || IsSeparator(s[0]) then 0 else FirstSeparator(s[1..]) + 1
  }

  lemma {:induction false} FirstSeparatorIs(s: string, k: nat)
    requires k <= |s| && (forall i :: 0 <= i < k ==> !IsSeparator(s[i])) && (k < |s| ==> IsSeparator(s[k]))
    ensures FirstSeparator(s) == k
  {
    if k > 0 { FirstSeparatorIs(s[1..], k - 1); }
  }

  /** The parts of a text, if there are at most `room`. */
  function Parts(s: string, room: nat): (r: Option<seq<Part>>)
    ensures r.Some? ==> 1 <= |r.value| <= room
    decreases room
  {
    if room == 0 then None
    else
      var k := FirstSeparator(s);
      match PartOf(s[..k])
      case None => None
      case Some(part) =>
        if k == |s| then Some([part])
        else
          match Parts(s[k + 1..], room - 1)
          case None => None
          case Some(rest) => Some([part] + rest)
  }

  function SplitOf(s: string): (r: Option<seq<Part>>)
    ensures r.Some? ==> 1 <= |r.value| <= 3
  {
    Parts(s, 3)
  }

  /** `parts` were split off a text whose parts are `whole`, and what is left has the parts `rest`. */
  predicate SplitSoFar(whole: Option<seq<Part>>, parts: seq<Part>, rest: Option<seq<Part>>) {
    match rest
    case None => whole.None?
    case Some(more) => whole == Some(parts + more)
  }

  lemma {:induction false} SplitStep(whole: Option<seq<Part>>, parts: seq<Part>, s: string, room: nat)
    requires room > 0 && SplitSoFar(whole, parts, Parts(s, room))
    ensures var k := FirstSeparator(s);
      match PartOf(s[..k])
      case None => whole.None?
      case Some(part) =>
        if k == |s| then whole == Some(parts + [part])
        else SplitSoFar(whole, parts + [part], Parts(s[k + 1..], room - 1))
  {
    var k := FirstSeparator(s);
    if k < |s| && PartOf(s[..k]).Some? {
      var part, rest := PartOf(s[..k]).value, Parts(s[k + 1..], room - 1);
      if rest.Some? { assert parts + ([part] + rest.value) == parts + [part] + rest.value; }
    }
  }

  lemma {:induction false} SplitStarts(whole: Option<seq<Part>>)
    ensures SplitSoFar(whole, [], whole)
  {
    if whole.Some? { assert [] + whole.value == whole.value; }
  }

  method Split(text: string) returns (r: Option<seq<Part>>)
    ensures r == SplitOf(text)
  {
    var parts: seq<Part> := [];
    var rest := text;
    ghost var whole := SplitOf(text);
    SplitStarts(whole);
    for count := 0 to 3
      invariant SplitSoFar(whole, parts, Parts(rest, 3 - count))
    {
      SplitStep(whole, parts, rest, 3 - count);
      var k := FirstSeparator(rest);
      var part := ParsePart(rest[..k]);
      if part.None? { return None; }
      parts := parts + [part.value];
      if k == |rest| { return Some(parts); }
      rest := rest[k + 1..];
    }
    r := None;
  }

  predicate AllKnown(parts: seq<Part>) {
    forall i :: 0 <= i < |parts| ==> !parts[i].unknown
  }

  // ----- Parsing -----

  function MakeDay(year: nat, month: nat, day: nat): (r: Option<int>)
    ensures r.Some? <==> IsDate(Date(year, month, day))
    ensures r.Some? ==> Civil(r.value) == Date(year, month, day)
  {
    var d := Date(year, month, day);
    if IsDate(d) then
      CivilIs(d);
      Some(DayNumber(d))
    else None
  }

  predicate IsFullSplit(parts: seq<Part>) {
    |parts| == 3 && AllKnown(parts)
  }

  function FullDate(parts: seq<Part>, order: Order): (r: Option<int>)
    ensures r.Some? ==> IsFullSplit(parts)
  {
    if !IsFullSplit(parts) then None
    else
      var first, second, third := parts[0], parts[1], parts[2];
      if |first.text| == 4 then MakeDay(first.value, second.value, third.value)
      else if |third.text| != 4 then None
      else if first.value > 12 && second.value <= 12 then MakeDay(third.value, second.value, first.value)
      else if second.value > 12 && first.value <= 12 then MakeDay(third.value, first.value, second.value)
      else if order == DayMonth then MakeDay(third.value, second.value, first.value)
      else MakeDay(third.value, first.value, second.value)
  }

  function ParseFlexibleDate(text: string, order: Order): Option<int> {
    match SplitOf(Trim(text))
    case None => None
    case Some(parts) => FullDate(parts, order)
  }

  function FindDateOrderClue(text: string): Clue {
    match SplitOf(Trim(text))
    case None => Invalid
    case Some(parts) =>
      if !IsFullSplit(parts) then Invalid
      else
        var first, second, third := parts[0], parts[1], parts[2];
        if |first.text| == 4 then NoClue
        else if |third.text| != 4 then Invalid
        else if first.value > 12 && second.value <= 12 then Clear(DayMonth)
        else if second.value > 12 && first.value <= 12 then Clear(MonthDay)
        else NoClue
  }

  predicate IsYear(part: Part) {
    !part.unknown && |part.text| == 4
  }

  function MonthDate(year: nat, month: Part): Option<FlexibleDate> {
    if MakeDay(year, month.value, 1).None? then None else Some(FlexibleDate(year, month.value, 1, Month))
  }

  function YearDate(year: nat): FlexibleDate {
    FlexibleDate(year, 1, 1, Year)
  }

  /** The first place of a `T` or a space, or the length. */
  function FirstTimeMark(s: string): (k: nat)
    ensures k <= |s| && (k < |s| ==> s[k] in "T ")
  {
    if s == "" || s[0] in "T " then 0 else FirstTimeMark(s[1..]) + 1
  }

  predicate StartsWithYear(s: string) {
    |s| >= 5 && IsDigit(s[0]) && IsDigit(s[1]) && IsDigit(s[2]) && IsDigit(s[3]) && IsSeparator(s[4])
  }

  /** A text that starts with a year loses a time of day. */
  function StripTimeSuffix(s: string): string {
    if !StartsWithYear(s) then s
    else
      var cut := FirstTimeMark(s);
      if cut + 1 >= |s| || !IsDigit(s[cut + 1]) then s else s[..cut]
  }

  function DayDate(day: Option<int>): Option<FlexibleDate>
    requires day.Some? ==> Civil(day.value).year >= 0
  {
    match day
    case None => None
    case Some(n) => var d := Civil(n); Some(FlexibleDate(d.year, d.month, d.day, Day))
  }

  function TwoParts(first: Part, second: Part): Option<FlexibleDate> {
    if IsYear(first) then (if second.unknown then Some(YearDate(first.value)) else MonthDate(first.value, second))
    else if IsYear(second) then (if first.unknown then Some(YearDate(second.value)) else MonthDate(second.value, first))
    else None
  }

  lemma {:induction false} FullDateYear(parts: seq<Part>, order: Order)
    ensures FullDate(parts, order).Some? ==> Civil(FullDate(parts, order).value).year >= 0
  {
  }

  function ThreeParts(parts: seq<Part>, order: Order): Option<FlexibleDate>
    requires |parts| == 3
  {
    FullDateYear(parts, order);
    var first, second, third := parts[0], parts[1], parts[2];
    if IsYear(first) then
      if second.unknown then Some(YearDate(first.value))
      else if third.unknown then MonthDate(first.value, second)
      else DayDate(FullDate(parts, order))
    else if IsYear(third) then
      if first.unknown && second.unknown then Some(YearDate(third.value))
      else if first.unknown then MonthDate(third.value, second)
      else if second.unknown then MonthDate(third.value, first)
      else DayDate(FullDate(parts, order))
    else None
  }

  function ParsePartialDate(text: string, order: Order): Option<FlexibleDate> {
    match SplitOf(StripTimeSuffix(Trim(text)))
    case None => None
    case Some(parts) =>
      if |parts| == 1 then (if IsYear(parts[0]) then Some(YearDate(parts[0].value)) else None)
      else if |parts| == 2 then TwoParts(parts[0], parts[1])
      else ThreeParts(parts, order)
  }

  // ----- The partial parser extends the full one -----

  predicate DateChars(s: string) {
    forall i :: 0 <= i < |s| ==> IsDigit(s[i]) || IsSeparator(s[i])
  }

  /** Known parts have digits and separators only. */
  lemma {:induction false} KnownParts(s: string, room: nat)
    requires Parts(s, room).Some? && AllKnown(Parts(s, room).value)
    ensures DateChars(s)
    decreases room
  {
    var k := FirstSeparator(s);
    assert !Parts(s, room).value[0].unknown;
    if k < |s| {
      KnownRest(PartOf(s[..k]).value, Parts(s[k + 1..], room - 1).value);
      KnownParts(s[k + 1..], room - 1);
    }
    DigitsAround(s, k);
  }

  lemma {:induction false} DigitsAround(s: string, k: nat)
    requires k <= |s| && AllDigits(s[..k])
    requires k < |s| ==> IsSeparator(s[k]) && DateChars(s[k + 1..])
    ensures DateChars(s)
  {
    forall i | 0 <= i < |s| ensures IsDigit(s[i]) || IsSeparator(s[i]) {
      if i < k {
        assert s[i] == s[..k][i];
      } else if i > k {
        assert s[i] == s[k + 1..][i - k - 1];
      }
    }
  }

  lemma {:induction false} KnownRest(part: Part, rest: seq<Part>)
    requires AllKnown([part] + rest)
    ensures AllKnown(rest)
  {
    assert forall j :: 0 <= j < |rest| ==> rest[j] == ([part] + rest)[j + 1];
  }

  lemma {:induction false} NoTimeMark(s: string)
    requires forall i :: 0 <= i < |s| ==> s[i] !in "T "
    ensures FirstTimeMark(s) == |s|
  {
    if s != "" { NoTimeMark(s[1..]); }
  }

  lemma {:induction false} NoTimeSuffix(s: string)
    requires SplitOf(s).Some? && AllKnown(SplitOf(s).value)
    ensures StripTimeSuffix(s) == s
  {
    KnownParts(s, 3);
    NoTimeMark(s);
  }

  /** Whenever the full parser succeeds, the partial one gives the same day, at day precision. */
  lemma {:induction false} PartialExtendsFull(text: string, order: Order)
    requires ParseFlexibleDate(text, order).Some?
    ensures var d := Civil(ParseFlexibleDate(text, order).value);
            d.year >= 0 && ParsePartialDate(text, order) == Some(FlexibleDate(d.year, d.month, d.day, Day))
  {
    var parts := SplitOf(Trim(text)).value;
    FullDateYear(parts, order);
    NoTimeSuffix(Trim(text));
    assert !parts[0].unknown && !parts[1].unknown && !parts[2].unknown;
  }

  // ----- ISO text and back -----

  function Zeros(k: nat): string {
    if k == 0 then "" else "0" + Zeros(k - 1)
  }

  /** A number in at least `width` places, zeros in front. */
  function Padded(n: nat, width: nat): string {
    var d := Decimal(n);
    (if |d| < width then Zeros(width - |d|) else "") + d
  }

  function FormatIsoDate(d: FlexibleDate): string {
    Padded(d.year, 4) + "-" + (Padded(d.month, 2) + "-" + Padded(d.day, 2))
  }

  lemma {:induction false} ZerosInFront(k: nat, d: string)
    requires AllDigits(d)
    ensures |Zeros(k)| == k && AllDigits(Zeros(k) + d) && DecimalValue(Zeros(k) + d) == DecimalValue(d)
    decreases |d|, k
  {
    var s := Zeros(k) + d;
    if d == "" {
      if k > 0 {
        ZerosInFront(k - 1, "");
        ZerosTurn(k);
        assert Zeros(k - 1) + "" == Zeros(k - 1);
        assert s == Zeros(k - 1) + "0";
        assert s[..|s| - 1] == Zeros(k - 1);
      }
    } else {
      ZerosInFront(k, d[..|d| - 1]);
      assert s[..|s| - 1] == Zeros(k) + d[..|d| - 1];
      assert s[|s| - 1] == d[|d| - 1];
      AllZeros(k);
    }
  }

  lemma {:induction false} ZerosTurn(k: nat)
    requires k > 0
    ensures Zeros(k) == Zeros(k - 1) + "0"
  {
    if k > 1 { ZerosTurn(k - 1); }
  }

  lemma {:induction false} AllZeros(k: nat)
    ensures |Zeros(k)| == k && forall i :: 0 <= i < k ==> Zeros(k)[i] == '0'
  {
    if k > 0 { AllZeros(k - 1); }
  }

  lemma {:induction false} DecimalLength(n: nat, k: nat)
    requires n < Power10(k) && k > 0
    ensures |Decimal(n)| <= k
  {
    if n >= 10 { DecimalLength(n / 10, k - 1); }
  }

  lemma {:induction false} PaddedDigits(n: nat, width: nat)
    requires n < Power10(width) && 0 < width
    ensures var s := Padded(n, width); |s| == width && AllDigits(s) && DecimalValue(s) == n
  {
    var d := Decimal(n);
    DecimalLength(n, width);
    DecimalRead(n);
    ZerosInFront(width - |d|, d);
    if |d| == width { assert Zeros(0) + d == d; }
    assert Padded(n, width) == Zeros(width - |d|) + d;
  }

  lemma {:induction false} DigitsAreAPart(s: string)
    requires AllDigits(s) && 0 < |s| <= MAX_DIGITS
    ensures PartOf(s) == Some(Part(s, false, DecimalValue(s)))
  {
    assert IsDigit(s[0]) && s[0] != '?';
  }

  lemma {:induction false} PaddedRead(n: nat, width: nat)
    requires n < Power10(width) && 0 < width <= MAX_DIGITS
    ensures |Padded(n, width)| == width && PartOf(Padded(n, width)) == Some(Part(Padded(n, width), false, n))
    ensures forall i :: 0 <= i < width ==> IsDigit(Padded(n, width)[i])
  {
    PaddedDigits(n, width);
    DigitsAreAPart(Padded(n, width));
  }

  predicate KnownPart(s: string) {
    PartOf(s).Some? && !PartOf(s).value.unknown
  }

  lemma {:induction false} PartsLast(c: string, room: nat)
    requires KnownPart(c) && room > 0
    ensures Parts(c, room) == Some([PartOf(c).value])
  {
    FirstSeparatorIs(c, |c|);
    assert c[..|c|] == c;
  }

  lemma {:induction false} SplitThree(a: string, b: string, c: string)
    requires KnownPart(a) && KnownPart(b) && KnownPart(c)
    ensures SplitOf(a + "-" + (b + "-" + c)) == Some([PartOf(a).value, PartOf(b).value, PartOf(c).value])
  {
    PartsAfter(a, b + "-" + c, 3);
    PartsAfter(b, c, 2);
    PartsLast(c, 1);
    assert [PartOf(b).value] + [PartOf(c).value] == [PartOf(b).value, PartOf(c).value];
    assert [PartOf(a).value] + [PartOf(b).value, PartOf(c).value] ==
           [PartOf(a).value, PartOf(b).value, PartOf(c).value];
  }

  lemma {:induction false} PartsAfter(a: string, rest: string, room: nat)
    requires KnownPart(a) && room > 0
    ensures Parts(a + "-" + rest, room) ==
      match Parts(rest, room - 1)
      case None => None
      case Some(more) => Some([PartOf(a).value] + more)
  {
    var s := a + "-" + rest;
    assert s[|a|] == '-';
    FirstSeparatorIs(s, |a|);
    assert s[..|a|] == a && s[|a| + 1..] == rest;
  }

  lemma {:induction false} Untrimmed(s: string)
    requires s != "" && !IsTrimmed(s[0]) && !IsTrimmed(s[|s| - 1])
    ensures Trim(s) == s
  {
  }

  /** A date with a year of four digits before month and day is read as such. */
  lemma {:induction false} IsoPartsRead(a: string, b: string, c: string, order: Order)
    requires KnownPart(a) && KnownPart(b) && KnownPart(c) && |a| == 4 && |c| == 2 && IsDigit(a[0]) && IsDigit(c[1])
    requires PartOf(a).value.text == a
    ensures ParseFlexibleDate(a + "-" + (b + "-" + c), order)
         == MakeDay(PartOf(a).value.value, PartOf(b).value.value, PartOf(c).value.value)
  {
    var s := a + "-" + (b + "-" + c);
    SplitThree(a, b, c);
    assert s[0] == a[0] && s[|s| - 1] == c[1];
    Untrimmed(s);
    YearFirst(PartOf(a).value, PartOf(b).value, PartOf(c).value, order);
  }

  /** The first day of a date in the calendar's years is read back from its ISO text, whichever order is asked for. */
  lemma {:induction false} IsoReadBack(d: FlexibleDate, order: Order)
    requires d.year <= 9999 && IsDate(Date(d.year, d.month, d.day))
    ensures ParseFlexibleDate(FormatIsoDate(d), order) == Some(DayNumber(Date(d.year, d.month, d.day)))
  {
    assert Power10(2) == 10 * Power10(1) && Power10(4) == 10 * Power10(3) && Power10(3) == 10 * Power10(2);
    PaddedRead(d.year, 4);
    PaddedRead(d.month, 2);
    PaddedRead(d.day, 2);
    IsoPartsRead(Padded(d.year, 4), Padded(d.month, 2), Padded(d.day, 2), order);
  }

  lemma {:induction false} YearFirst(first: Part, second: Part, third: Part, order: Order)
    requires !first.unknown && !second.unknown && !third.unknown && |first.text| == 4
    ensures FullDate([first, second, third], order) == MakeDay(first.value, second.value, third.value)
  {
    assert AllKnown([first, second, third]);
  }

  /** A date between the years 0 and 9999. */
  predicate IsPlain(d: FlexibleDate) {
    d.year <= 9999 && IsDate(Date(d.year, d.month, d.day))
  }

  predicate YearsFit(parts: seq<Part>) {
    forall i :: 0 <= i < |parts| && IsYear(parts[i]) ==> parts[i].value <= 9999
  }

  lemma {:induction false} FullDateIsDate(parts: seq<Part>, order: Order)
    requires YearsFit(parts) && FullDate(parts, order).Some?
    ensures IsPlain(DayDate(FullDate(parts, order)).value)
  {
    FullDateYear(parts, order);
    assert IsYear(parts[0]) || IsYear(parts[2]);
  }

  lemma {:induction false} ThreePartsIsDate(parts: seq<Part>, order: Order)
    requires |parts| == 3 && YearsFit(parts) && ThreeParts(parts, order).Some?
    ensures IsPlain(ThreeParts(parts, order).value)
  {
    if FullDate(parts, order).Some? { FullDateIsDate(parts, order); }
  }

  /** What the partial parser returns is such a date. */
  lemma {:induction false} ParsedIsDate(text: string, order: Order)
    requires ParsePartialDate(text, order).Some?
    ensures IsPlain(ParsePartialDate(text, order).value)
  {
    var s := StripTimeSuffix(Trim(text));
    var parts := SplitOf(s).value;
    forall i | 0 <= i < |parts| && IsYear(parts[i]) ensures parts[i].value <= 9999 {
      PartsAreParts(s, 3, i);
      YearFits(parts[i].text);
    }
    if |parts| == 3 { ThreePartsIsDate(parts, order); }
  }

  lemma {:induction false} PartsAreParts(s: string, room: nat, i: nat)
    requires Parts(s, room).Some? && i < |Parts(s, room).value|
    ensures PartOf(Parts(s, room).value[i].text) == Some(Parts(s, room).value[i])
    decreases room
  {
    var k := FirstSeparator(s);
    if i > 0 { PartsAreParts(s[k + 1..], room - 1, i - 1); }
  }

  lemma {:induction false} YearFits(s: string)
    requires AllDigits(s) && |s| == 4
    ensures DecimalValue(s) <= 9999
  {
    DigitsBound(s, 4);
    assert Power10(4) == 10 * Power10(3) && Power10(3) == 10 * Power10(2) && Power10(2) == 10 * Power10(1);
  }

  /** Whatever a text was parsed to, its ISO text parses to the same first day under either order. */
  lemma {:induction false} IsoRoundTrip(text: string, order: Order, other: Order)
    requires ParsePartialDate(text, order).Some?
    ensures var d := ParsePartialDate(text, order).value;
            ParseFlexibleDate(FormatIsoDate(d), other) == Some(DayNumber(Date(d.year, d.month, d.day)))
  {
    ParsedIsDate(text, order);
    IsoReadBack(ParsePartialDate(text, order).value, other);
  }

  // ----- The order of month and day -----

  /** A value with an invalid clue is no date under either order. */
  lemma {:induction false} InvalidParsesNever(text: string, order: Order)
    requires FindDateOrderClue(text) == Invalid
    ensures ParseFlexibleDate(text, order) == None
  {
  }

  /** A value with a clue is read as its clue says under both orders. */
  lemma {:induction false} ClueDecides(text: string, order: Order)
    requires FindDateOrderClue(text).Clear?
    ensures ParseFlexibleDate(text, order) == ParseFlexibleDate(text, FindDateOrderClue(text).order)
  {
  }

  /** Month and day could change places: both are month numbers, they differ, and the year comes last. */
  predicate Ambiguous(text: string) {
    match SplitOf(Trim(text))
    case None => false
    case Some(parts) =>
      && IsFullSplit(parts) && |parts[0].text| != 4 && |parts[2].text| == 4
      && 1 <= parts[0].value <= 12 && 1 <= parts[1].value <= 12 && parts[0].value != parts[1].value
  }

  /** The order changes what a value means exactly when the value is ambiguous, and then it swaps month and day. */
  lemma {:induction false} OrderMatters(text: string)
    ensures ParseFlexibleDate(text, MonthDay) != ParseFlexibleDate(text, DayMonth) <==> Ambiguous(text)
    ensures Ambiguous(text) ==>
              && FindDateOrderClue(text) == NoClue
              && ParseFlexibleDate(text, MonthDay).Some? && ParseFlexibleDate(text, DayMonth).Some?
              && var p := Civil(ParseFlexibleDate(text, MonthDay).value);
                 var q := Civil(ParseFlexibleDate(text, DayMonth).value);
                 p.year == q.year && p.month == q.day && p.day == q.month
  {
  }

  // ----- Inferring the order of a column -----

  predicate Says(values: seq<string>, clue: Clue) {
    exists i :: 0 <= i < |values| && values[i] != "" && FindDateOrderClue(values[i]) == clue
  }

  /** No value is invalid and no two contradict each other. */
  predicate Consistent(values: seq<string>) {
    !Says(values, Invalid) && !(Says(values, Clear(MonthDay)) && Says(values, Clear(DayMonth)))
  }

  function InferredOrder(values: seq<string>): Order {
    if Says(values, Clear(DayMonth)) then DayMonth else MonthDay
  }

  lemma {:induction false} SaysOneMore(values: seq<string>, value: string, clue: Clue)
    ensures Says(values + [value], clue) <==>
            Says(values, clue) || (value != "" && FindDateOrderClue(value) == clue)
  {
    var all := values + [value];
    assert all[|values|] == value && forall i :: 0 <= i < |values| ==> all[i] == values[i];
  }

  lemma {:induction false} SaysPrefix(values: seq<string>, k: nat, clue: Clue)
    requires k <= |values| && Says(values[..k], clue)
    ensures Says(values, clue)
  {
    var i :| 0 <= i < k && values[..k][i] != "" && FindDateOrderClue(values[..k][i]) == clue;
    assert values[..k][i] == values[i];
  }

  /** What one more value says. */
  lemma {:induction false} SaysMore(values: seq<string>, k: nat, clue: Clue)
    requires k < |values|
    ensures Says(values[..k + 1], clue) <==>
            Says(values[..k], clue) || (values[k] != "" && FindDateOrderClue(values[k]) == clue)
    ensures Says(values[..k + 1], clue) ==> Says(values, clue)
  {
    assert values[..k + 1] == values[..k] + [values[k]];
    SaysOneMore(values[..k], values[k], clue);
    if Says(values[..k + 1], clue) { SaysPrefix(values, k + 1, clue); }
  }

  method InferDateOrder(values: seq<string>) returns (r: Result<Order>)
    ensures r.Ok? <==> Consistent(values)
    ensures r.Ok? ==> r.value == InferredOrder(values)
  {
    var inferred: Option<Order> := None;
    for k := 0 to |values|
      invariant !Says(values[..k], Invalid)
      invariant Says(values[..k], Clear(MonthDay)) <==> inferred == Some(MonthDay)
      invariant Says(values[..k], Clear(DayMonth)) <==> inferred == Some(DayMonth)
    {
      var value := values[k];
      SaysMore(values, k, Invalid);
      SaysMore(values, k, Clear(MonthDay));
      SaysMore(values, k, Clear(DayMonth));
      if value == "" { continue; }
      match FindDateOrderClue(value)
      case Invalid => return Err("invalid heatmap date: " + value);
      case NoClue =>
      case Clear(clue) =>
        if inferred.Some? && inferred.value != clue {
          return Err("conflicting heatmap date formats near: " + value);
        }
        inferred := Some(clue);
    }
    assert values[..|values|] == values;
    r := Ok(match inferred case Some(o) => o case None => MonthDay);
  }

  /** The same values in another order give the same answer. */
  lemma {:induction false} OrderOfValuesIrrelevant(a: seq<string>, b: seq<string>)
    requires multiset(a) == multiset(b)
    ensures Consistent(a) <==> Consistent(b)
    ensures InferredOrder(a) == InferredOrder(b)
  {
    forall clue ensures Says(a, clue) <==> Says(b, clue) {
      if Says(a, clue) { SaysIn(a, b, clue); }
      if Says(b, clue) { SaysIn(b, a, clue); }
    }
  }

  lemma {:induction false} SaysIn(a: seq<string>, b: seq<string>, clue: Clue)
    requires multiset(a) == multiset(b) && Says(a, clue)
    ensures Says(b, clue)
  {
    var i :| 0 <= i < |a| && a[i] != "" && FindDateOrderClue(a[i]) == clue;
    assert a[i] in multiset(a);
    assert a[i] in multiset(b);
    var j :| 0 <= j < |b| && b[j] == a[i];
  }

  /** With the inferred order, every value of a consistent column that carries a clue is read as the clue says. */
  lemma {:induction false} InferredFitsClues(values: seq<string>, i: nat)
    requires Consistent(values) && i < |values| && values[i] != "" && FindDateOrderClue(values[i]).Clear?
    ensures InferredOrder(values) == FindDateOrderClue(values[i]).order
  {
    assert Says(values, FindDateOrderClue(values[i]));
  }
}

/** The proleptic Gregorian calendar. A day is its number of days from 1970-01-01; a month is counted from January of
    year 0, so that month `k` is month `k % 12 + 1` of year `k / 12`. */
module CivilCalendar {

  datatype Date = Date(year: int, month: int, day: int)

  predicate IsLeap(year: int) {
    year % 4 == 0 && (year % 100 != 0 || year % 400 == 0)
  }

  function DaysInMonth(year: int, month: int): (n: nat)
    ensures 28 <= n <= 31
  {
    if month == 2 then (if IsLeap(year) then 29 else 28)
    else if month in {4, 6, 9, 11} then 30
    else 31
  }

  predicate IsDate(d: Date) {
    1 <= d.month <= 12 && 1 <= d.day <= DaysInMonth(d.year, d.month)
  }

  function MonthLength(k: int): (n: nat)
    ensures 28 <= n <= 31
  {
    DaysInMonth(k / 12, k % 12 + 1)
  }

  const JANUARY_1970 := 1970 * 12

  /** The first day of month `k`. */
  function MonthFirst(k: int): int
    decreases if k < JANUARY_1970 then JANUARY_1970 - k else k - JANUARY_1970
  {
    if k == JANUARY_1970 then 0
    else if k > JANUARY_1970 then MonthFirst(k - 1) + MonthLength(k - 1)
    else MonthFirst(k + 1) - MonthLength(k)
  }

  /** Months follow each other without a gap. */
  lemma {:induction false} MonthStep(k: int)
    ensures MonthFirst(k + 1) == MonthFirst(k) + MonthLength(k)
  {
  }

  function DayNumber(d: Date): int {
    MonthFirst(d.year * 12 + d.month - 1) + d.day - 1
  }

  // ----- The day number in closed form -----

  /** The days from the first day of year 1. */
  function DaysBeforeYear(year: int): int {
    365 * (year - 1) + (year - 1) / 4 - (year - 1) / 100 + (year - 1) / 400
  }

  function DaysBeforeMonth(year: int, month: nat): nat {
    if month <= 1 then 0 else DaysBeforeMonth(year, month - 1) + DaysInMonth(year, month - 1)
  }

  lemma {:induction false} FloorStep(a: int, m: int)
    requires m > 1
    ensures a / m == (a - 1) / m + (if a % m == 0 then 1 else 0)
  {
    var q, r := (a - 1) / m, (a - 1) % m;
    assert a == m * q + (r + 1);
    if r + 1 == m {
      Quotient(a, m, q + 1, 0);
    } else {
      Quotient(a, m, q, r + 1);
    }
  }

  lemma {:induction false} Multiple(m: int, e: int)
    requires m > 0
    ensures e > 0 ==> m * e >= m
    ensures e < 0 ==> m * e <= -m
  {
  }

  lemma {:induction false} Quotient(a: int, m: int, q: int, r: int)
    requires m > 0 && a == m * q + r && 0 <= r < m
    ensures a / m == q && a % m == r
  {
    var e := a / m - q;
    assert m * e == r - a % m by { assert a == m * (a / m) + a % m; }
    Multiple(m, e);
  }

  lemma {:induction false} Divides(year: int, m: int, n: int)
    requires m > 0 && n > 0 && year % (m * n) == 0
    ensures year % m == 0
  {
    var q := year / (m * n);
    assert year == m * (n * q) by { assert year == (m * n) * q + year % (m * n); }
    Quotient(year, m, n * q, 0);
  }

  function OneIf(b: bool): int {
    if b then 1 else 0
  }

  lemma {:induction false} LeapRule(year: int)
    ensures OneIf(year % 4 == 0) - OneIf(year % 100 == 0) + OneIf(year % 400 == 0) == OneIf(IsLeap(year))
  {
    if year % 400 == 0 { Divides(year, 100, 4); }
    if year % 100 == 0 { Divides(year, 4, 25); }
  }

  lemma {:induction false} YearLength(year: int)
    ensures DaysBeforeYear(year + 1) == DaysBeforeYear(year) + (if IsLeap(year) then 366 else 365)
  {
    FloorStep(year, 4);
    FloorStep(year, 100);
    FloorStep(year, 400);
    LeapRule(year);
  }

  lemma {:induction false} MonthsOfYear(year: int)
    ensures DaysBeforeMonth(year, 12) + 31 == (if IsLeap(year) then 366 else 365)
  {
    var d := m => DaysBeforeMonth(year, m);
    assert d(1) == 0 && d(2) == 31;
    assert d(3) == d(2) + DaysInMonth(year, 2) && d(4) == d(3) + 31 && d(5) == d(4) + 30;
    assert d(6) == d(5) + 31 && d(7) == d(6) + 30 && d(8) == d(7) + 31;
    assert d(9) == d(8) + 31 && d(10) == d(9) + 30 && d(11) == d(10) + 31 && d(12) == d(11) + 30;
  }

  const EPOCH := 719162

  function ClosedFirst(k: int): int {
    DaysBeforeYear(k / 12) + DaysBeforeMonth(k / 12, k % 12 + 1) - EPOCH
  }

  lemma {:induction false} ClosedStep(k: int)
    ensures ClosedFirst(k + 1) == ClosedFirst(k) + MonthLength(k)
  {
    var year, m := k / 12, k % 12 + 1;
    if m == 12 {
      Quotient(k + 1, 12, year + 1, 0);
      YearLength(year);
      MonthsOfYear(year);
    } else {
      Quotient(k + 1, 12, year, m);
    }
  }

  lemma {:induction false} FirstIsClosed(k: int)
    ensures MonthFirst(k) == ClosedFirst(k)
    decreases if k < JANUARY_1970 then JANUARY_1970 - k else k - JANUARY_1970
  {
    if k > JANUARY_1970 {
      FirstIsClosed(k - 1);
      ClosedStep(k - 1);
    } else if k < JANUARY_1970 {
      FirstIsClosed(k + 1);
      ClosedStep(k);
    } else {
      ClosedAtEpoch();
    }
  }

  lemma {:induction false} ClosedAtEpoch()
    ensures ClosedFirst(JANUARY_1970) == 0
  {
    assert JANUARY_1970 / 12 == 1970 && JANUARY_1970 % 12 == 0;
  }

  /** The day number of a date, counted by years, months and days. */
  lemma {:induction false} DayNumberIs(d: Date)
    requires IsDate(d)
    ensures DayNumber(d) == DaysBeforeYear(d.year) + DaysBeforeMonth(d.year, d.month) + d.day - 1 - EPOCH
  {
    FirstIsClosed(d.year * 12 + d.month - 1);
    ClosedIs(d.year, d.month);
  }

  lemma {:induction false} ClosedIs(year: int, month: int)
    requires 1 <= month <= 12
    ensures ClosedFirst(year * 12 + month - 1) == DaysBeforeYear(year) + DaysBeforeMonth(year, month) - EPOCH
  {
    Quotient(year * 12 + month - 1, 12, year, month - 1);
  }

  // ----- From days back to dates -----

  lemma {:induction false} MonthsApart(k: int, j: nat)
    ensures MonthFirst(k) + 28 * j <= MonthFirst(k + j)
  {
    if j > 0 {
      MonthsApart(k, j - 1);
      MonthStep(k + (j - 1));
    }
  }

  /** The month at or after `k` that a day falls in. */
  function MonthAfter(n: int, k: int): (r: int)
    requires MonthFirst(k) <= n
    ensures MonthFirst(r) <= n < MonthFirst(r + 1)
    decreases n - MonthFirst(k)
  {
    MonthStep(k);
    if n < MonthFirst(k + 1) then k else MonthAfter(n, k + 1)
  }

  function MonthBefore(n: int, k: int): (r: int)
    requires n < MonthFirst(k)
    ensures MonthFirst(r) <= n < MonthFirst(r + 1)
    decreases MonthFirst(k) - n
  {
    MonthStep(k - 1);
    if MonthFirst(k - 1) <= n then k - 1 else MonthBefore(n, k - 1)
  }

  /** The month a day falls in. */
  function MonthOf(n: int): (k: int)
    ensures MonthFirst(k) <= n < MonthFirst(k + 1)
  {
    if MonthFirst(JANUARY_1970) <= n then MonthAfter(n, JANUARY_1970) else MonthBefore(n, JANUARY_1970)
  }

  /** Each day falls in one month only. */
  lemma {:induction false} MonthIs(n: int, k: int)
    requires MonthFirst(k) <= n < MonthFirst(k + 1)
    ensures MonthOf(n) == k
  {
    var r := MonthOf(n);
    if r < k { MonthsApart(r + 1, k - (r + 1)); }
    if k < r { MonthsApart(k + 1, r - (k + 1)); }
  }

  lemma {:induction false} MonthsInOrder(m: int, n: int)
    requires m <= n
    ensures MonthOf(m) <= MonthOf(n)
  {
    var j, k := MonthOf(m), MonthOf(n);
    if k < j { MonthsApart(k + 1, j - (k + 1)); }
  }

  /** The date of a day. */
  function Civil(n: int): (d: Date)
    ensures IsDate(d) && DayNumber(d) == n && MonthOf(n) == d.year * 12 + d.month - 1
  {
    var k := MonthOf(n);
    MonthStep(k);
    Date(k / 12, k % 12 + 1, n - MonthFirst(k) + 1)
  }

  /** A date is the only one with its day number. */
  lemma {:induction false} CivilIs(d: Date)
    requires IsDate(d)
    ensures Civil(DayNumber(d)) == d
  {
    var k := d.year * 12 + d.month - 1;
    Quotient(k, 12, d.year, d.month - 1);
    MonthStep(k);
    MonthIs(DayNumber(d), k);
  }

  /** Sunday is 0; day 0 is a Thursday. */
  function Weekday(n: int): (w: nat)
    ensures w < 7
  {
    (n + 4) % 7
  }

  lemma {:induction false} WeekdayAfter(n: int, weeks: int, days: int)
    requires Weekday(n) == 0 && 0 <= days < 7
    ensures Weekday(n + 7 * weeks + days) == days
  {
    Quotient(n + 4, 7, (n + 4) / 7, 0);
    Quotient(n + 7 * weeks + days + 4, 7, (n + 4) / 7 + weeks, days);
  }

  // ----- Weekdays by a rule of their own -----

  const MONTH_SHIFTS := [0, 3, 2, 5, 0, 3, 5, 1, 4, 6, 2, 4]

  /** Sakamoto's rule on year, month and day, counting January and February with the year before. */
  function WeekdayRule(d: Date): int
    requires IsDate(d)
  {
    var y := if d.month < 3 then d.year - 1 else d.year;
    (y + y / 4 - y / 100 + y / 400 + MONTH_SHIFTS[d.month - 1] + d.day) % 7
  }

  const MONTH_STARTS := [0, 31, 59, 90, 120, 151, 181, 212, 243, 273, 304, 334]

  /** The days of a year before each month, the leap day apart. */
  lemma {:induction false} MonthStarts(year: int, month: int)
    requires 1 <= month <= 12
    ensures DaysBeforeMonth(year, month)
         == MONTH_STARTS[month - 1] + if month > 2 && IsLeap(year) then 1 else 0
  {
    if month > 1 {
      MonthStarts(year, month - 1);
    }
  }

  lemma {:induction false} SameRemainder(a: int, b: int, q: int)
    requires a == b + 7 * q
    ensures a % 7 == b % 7
  {
    Quotient(a, 7, b / 7 + q, b % 7);
  }

  lemma {:induction false} ShiftIs(month: int)
    requires 1 <= month <= 12
    ensures var c := MONTH_STARTS[month - 1] - if month > 2 then 1 else 0; c % 7 == MONTH_SHIFTS[month - 1]
  {
  }

  lemma {:induction false} LeapDays(year: int)
    ensures year / 4 - year / 100 + year / 400
         == (year - 1) / 4 - (year - 1) / 100 + (year - 1) / 400 + if IsLeap(year) then 1 else 0
  {
    YearLength(year);
  }

  /** The days up to a date, whole weeks apart. */
  lemma {:induction false} DaysAndWeeks(d: Date)
    requires IsDate(d)
    ensures var c := MONTH_STARTS[d.month - 1] - if d.month > 2 then 1 else 0;
            var y := if d.month < 3 then d.year - 1 else d.year;
            DayNumber(d) + 4
            == (y + (y / 4 - y / 100 + y / 400) + c + d.day) + 7 * (52 * (d.year - 1) - 102737)
  {
    DayNumberIs(d);
    MonthStarts(d.year, d.month);
    LeapDays(d.year);
    assert EPOCH == 7 * 102737 + 3;
  }

  /** The weekday of every date is the one of the rule. */
  lemma {:induction false} WeekdayIs(d: Date)
    requires IsDate(d)
    ensures Weekday(DayNumber(d)) == WeekdayRule(d)
  {
    DaysAndWeeks(d);
    ShiftIs(d.month);
    var c := MONTH_STARTS[d.month - 1] - if d.month > 2 then 1 else 0;
    var y := if d.month < 3 then d.year - 1 else d.year;
    var leaps := y / 4 - y / 100 + y / 400;
    SameRemainder(DayNumber(d) + 4, y + leaps + c + d.day, 52 * (d.year - 1) - 102737);
    SameRemainder(y + leaps + c + d.day, y + leaps + MONTH_SHIFTS[d.month - 1] + d.day, c / 7);
  }

  lemma {:induction false} EpochYear(year: int)
    requires year == 1970
    ensures DaysBeforeYear(year) == EPOCH && DaysBeforeMonth(year, 1) == 0
  {
  }

  /** Days are counted from the first of January 1970. */
  lemma {:induction false} Epoch(d: Date, n: int)
    requires d.year == 1970 && d.month == 1 && d.day == 1 && n == 0
    ensures DayNumber(d) == n && Civil(n) == d
  {
    EpochYear(d.year);
    DayNumberIs(d);
    CivilIs(d);
  }
}

/** Proleptic Gregorian civil calendar: dates, day numbers counted from
    0001-01-01 (the day of the zero instant of the wrapped timestamp type),
    weekdays, and stepping one calendar day at a time. */
module Civil {

  datatype Date = Date(year: int, month: int, day: int)

  // Weekdays are numbered as the wrapped timestamp type numbers them.
  const Sunday := 0
  const Monday := 1
  const Thursday := 4
  const Friday := 5
  const Saturday := 6

  predicate IsLeapYear(y: int) {
    y % 4 == 0 && (y % 100 != 0 || y % 400 == 0)
  }

  function DaysInYear(y: int): int {
    if IsLeapYear(y) then 366 else 365
  }

  function DaysInMonth(y: int, m: int): int {
    if m == 2 then (if IsLeapYear(y) then 29 else 28)
    else if m == 4 || m == 6 || m == 9 || m == 11 then 30
    else 31
  }

  predicate ValidDate(d: Date) {
    1 <= d.month <= 12 && 1 <= d.day <= DaysInMonth(d.year, d.month)
  }

  /** Days from 0001-01-01 to January 1 of year y (negative before year 1). */
  function DaysBeforeYear(y: int): int {
    var p := y - 1;
    365 * p + p / 4 - p / 100 + p / 400
  }

  /** Days from January 1 to the first day of month m of year y. */
  function DaysBeforeMonth(y: int, m: int): int {
    var common :=
      if m <= 1 then 0 else if m == 2 then 31 else if m == 3 then 59
      else if m == 4 then 90 else if m == 5 then 120 else if m == 6 then 151
      else if m == 7 then 181 else if m == 8 then 212 else if m == 9 then 243
      else if m == 10 then 273 else if m == 11 then 304 else 334;
    if m > 2 && IsLeapYear(y) then common + 1 else common
  }

  /** The number of days from 0001-01-01 to d. */
  function DayNumber(d: Date): int {
    DaysBeforeYear(d.year) + DaysBeforeMonth(d.year, d.month) + d.day - 1
  }

  /** Day of the week, Sunday = 0 .. Saturday = 6; 0001-01-01 was a Monday. */
  function Weekday(d: Date): (w: int)
    ensures 0 <= w < 7
  {
    (DayNumber(d) + 1) % 7
  }

  /** The weekday numbering is anchored at 0001-01-01, a Monday. */
  lemma YearOneMonday()
    ensures Weekday(Date(1, 1, 1)) == Monday
  {
  }

  predicate IsWeekendDay(w: int) {
    w == Saturday || w == Sunday
  }

  function NextDay(d: Date): Date {
    if d.day < DaysInMonth(d.year, d.month) then Date(d.year, d.month, d.day + 1)
    else if d.month < 12 then Date(d.year, d.month + 1, 1)
    else Date(d.year + 1, 1, 1)
  }

  function PrevDay(d: Date): Date {
    if d.day > 1 then Date(d.year, d.month, d.day - 1)
    else if d.month > 1 then Date(d.year, d.month - 1, DaysInMonth(d.year, d.month - 1))
    else Date(d.year - 1, 12, 31)
  }

  /** The length of a year is the gap between the day numbers of two
      consecutive New Year's days. */
  lemma YearStep(y: int)
    ensures DaysBeforeYear(y + 1) == DaysBeforeYear(y) + DaysInYear(y)
  {
    var p := y - 1;
    FloorStep4(p);
    FloorStep100(p);
    FloorStep400(p);
    Multiple400(y);
    Multiple100(y);
  }

  // Floor division by 4, 100 and 400 grows by one exactly at the multiples.
  lemma FloorStep4(p: int)
    ensures (p + 1) / 4 - p / 4 == (if (p + 1) % 4 == 0 then 1 else 0)
  {
  }

  lemma FloorStep100(p: int)
    ensures (p + 1) / 100 - p / 100 == (if (p + 1) % 100 == 0 then 1 else 0)
  {
  }

  lemma FloorStep400(p: int)
    ensures (p + 1) / 400 - p / 400 == (if (p + 1) % 400 == 0 then 1 else 0)
  {
  }

  lemma Multiple400(y: int)
    ensures y % 400 == 0 ==> y % 100 == 0
  {
    if y % 400 == 0 {
      assert y == 100 * (4 * (y / 400));
    }
  }

  lemma Multiple100(y: int)
    ensures y % 100 == 0 ==> y % 4 == 0
  {
    if y % 100 == 0 {
      assert y == 4 * (25 * (y / 100));
    }
  }

  /** Stepping forward one day adds one to the day number. */
  lemma NextDayNumber(d: Date)
    requires ValidDate(d)
    ensures ValidDate(NextDay(d))
    ensures DayNumber(NextDay(d)) == DayNumber(d) + 1
  {
    if d.day == DaysInMonth(d.year, d.month) && d.month == 12 {
      YearStep(d.year);
    }
  }

  lemma PrevNext(d: Date)
    requires ValidDate(d)
    ensures ValidDate(PrevDay(d))
    ensures PrevDay(NextDay(d)) == d
    ensures NextDay(PrevDay(d)) == d
  {
  }

  /** Stepping back one day subtracts one from the day number. */
  lemma PrevDayNumber(d: Date)
    requires ValidDate(d)
    ensures ValidDate(PrevDay(d))
    ensures DayNumber(PrevDay(d)) == DayNumber(d) - 1
  {
    PrevNext(d);
    NextDayNumber(PrevDay(d));
  }

  /** The day after a weekday w is weekday w + 1, modulo 7. */
  lemma WeekdayNext(d: Date)
    requires ValidDate(d)
    ensures Weekday(NextDay(d)) == (Weekday(d) + 1) % 7
  {
    NextDayNumber(d);
    ModShift(DayNumber(d) + 1, 1);
  }

  /** Within one month the weekday advances with the day of the month. */
  lemma WeekdayInMonth(y: int, m: int, k: int)
    ensures Weekday(Date(y, m, k)) == (Weekday(Date(y, m, 1)) + k - 1) % 7
  {
    ModShift(DayNumber(Date(y, m, 1)) + 1, k - 1);
  }

  lemma ModShift(a: int, b: int)
    ensures (a + b) % 7 == (a % 7 + b) % 7
  {
    var q := a / 7;
    assert a + b == 7 * q + (a % 7 + b);
  }

  /** Two numbers less than a week apart with the same remainder modulo
      7 are equal. */
  lemma SameResidue(a: int, b: int)
    requires a % 7 == b % 7 && -7 < a - b < 7
    ensures a == b
  {
  }

  /** d moved k days forward (k > 0) or -k days back (k < 0), one day at a time. */
  function AddDays(d: Date, k: int): (r: Date)
    requires ValidDate(d)
    ensures ValidDate(r)
    decreases if k < 0 then -k else k
  {
    if k == 0 then d
    else if k > 0 then (NextDayNumber(d); AddDays(NextDay(d), k - 1))
    else (PrevDayNumber(d); AddDays(PrevDay(d), k + 1))
  }

  /** Moving k days changes the day number by exactly k. */
  lemma {:induction false} AddDaysNumber(d: Date, k: int)
    requires ValidDate(d)
    ensures DayNumber(AddDays(d, k)) == DayNumber(d) + k
    decreases if k < 0 then -k else k
  {
    if k > 0 {
      NextDayNumber(d);
      AddDaysNumber(NextDay(d), k - 1);
    } else if k < 0 {
      PrevDayNumber(d);
      AddDaysNumber(PrevDay(d), k + 1);
    }
  }

  /** Moving k + 1 days forward is moving k days and then one more. */
  lemma {:induction false} AddDaysForward(d: Date, k: nat)
    requires ValidDate(d)
    ensures AddDays(d, k + 1) == NextDay(AddDays(d, k))
    decreases k
  {
    if k > 0 {
      NextDayNumber(d);
      AddDaysForward(NextDay(d), k - 1);
    }
  }

  /** Moving k + 1 days back is moving k days back and then one more. */
  lemma {:induction false} AddDaysBackward(d: Date, k: nat)
    requires ValidDate(d)
    ensures AddDays(d, -(k as int) - 1) == PrevDay(AddDays(d, -(k as int)))
    decreases k
  {
    if k > 0 {
      PrevDayNumber(d);
      AddDaysBackward(PrevDay(d), k - 1);
    }
  }

  /** Moving k days forward within a month adds k to the day of the month. */
  lemma AddDaysWithinMonth(d: Date, k: nat)
    requires ValidDate(d) && d.day + k <= DaysInMonth(d.year, d.month)
    ensures AddDays(d, k) == Date(d.year, d.month, d.day + k)
  {
    AddDaysNumber(d, k);
    DayNumberInjective(AddDays(d, k), Date(d.year, d.month, d.day + k));
  }

  /** A valid date lies within its year: its day number is between that of
      its New Year's day and that of the next one. */
  lemma DayNumberInYear(d: Date)
    requires ValidDate(d)
    ensures DaysBeforeYear(d.year) <= DayNumber(d) < DaysBeforeYear(d.year) + DaysInYear(d.year)
  {
  }

  lemma {:induction false} YearsIncrease(y1: int, y2: int)
    requires y1 < y2
    ensures DaysBeforeYear(y1) + DaysInYear(y1) <= DaysBeforeYear(y2)
    decreases y2 - y1
  {
    YearStep(y1);
    if y1 + 1 < y2 {
      YearsIncrease(y1 + 1, y2);
    }
  }

  /** Dates from year 1 on have non-negative day numbers. */
  lemma DayNumberFromYearOne(d: Date)
    requires ValidDate(d) && d.year >= 1
    ensures DayNumber(d) >= 0
  {
  }

  /** Distinct valid dates have distinct day numbers. */
  lemma DayNumberInjective(a: Date, b: Date)
    requires ValidDate(a) && ValidDate(b)
    requires DayNumber(a) == DayNumber(b)
    ensures a == b
  {
    DayNumberInYear(a);
    DayNumberInYear(b);
    if a.year < b.year {
      YearsIncrease(a.year, b.year);
    } else if b.year < a.year {
      YearsIncrease(b.year, a.year);
    }
    assert a.year == b.year;
  }
}

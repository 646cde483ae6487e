/** The US federal holiday calendar as observed for banking, and banking
    days: weekdays that are not an observed holiday. */
module Holidays {
  import opened Civil
  import opened DayCount

  /** The n-th weekday wd of month m of year y (n between 1 and 4). */
  function NthWeekday(y: int, m: int, wd: int, n: int): (d: Date)
    requires 1 <= m <= 12 && 0 <= wd < 7 && 1 <= n <= 4
    ensures ValidDate(d) && d.year == y && d.month == m
    ensures Weekday(d) == wd
    ensures 7 * (n - 1) < d.day <= 7 * n
  {
    var first := Weekday(Date(y, m, 1));
    var day := 1 + (wd - first + 7) % 7 + 7 * (n - 1);
    WeekdayInMonth(y, m, day);
    ForwardAlign(first, wd, n - 1);
    Date(y, m, day)
  }

  /** Moving forward from weekday f to the next weekday wd and then q whole
      weeks lands on wd. */
  lemma ForwardAlign(f: int, wd: int, q: int)
    requires 0 <= f < 7 && 0 <= wd < 7
    ensures (f + (wd - f + 7) % 7 + 7 * q) % 7 == wd
  {
    var k := if wd >= f then q else q + 1;
    assert f + (wd - f + 7) % 7 + 7 * q == wd + 7 * k;
  }

  /** Moving back from day x to the day with weekday wd at most six days
      earlier lands on wd. */
  lemma BackwardAlign(x: int, wd: int)
    requires 0 <= wd < 7
    ensures (x - (x % 7 - wd + 7) % 7) % 7 == wd
  {
    var k := if x % 7 >= wd then x / 7 else x / 7 - 1;
    assert x - (x % 7 - wd + 7) % 7 == wd + 7 * k;
  }

  /** The last weekday wd of month m of year y. */
  function LastWeekday(y: int, m: int, wd: int): (d: Date)
    requires 1 <= m <= 12 && 0 <= wd < 7
    ensures ValidDate(d) && d.year == y && d.month == m
    ensures Weekday(d) == wd
    ensures DaysInMonth(y, m) - 7 < d.day
  {
    var end := DaysInMonth(y, m);
    var day := end - (Weekday(Date(y, m, end)) - wd + 7) % 7;
    WeekdayInMonth(y, m, day);
    WeekdayInMonth(y, m, end);
    BackwardAlign(Weekday(Date(y, m, 1)) + end - 1, wd);
    Date(y, m, day)
  }

  /** The n-th weekday wd of a month is the one day of that month with
      weekday wd among its days 7(n - 1) + 1 .. 7n. */
  lemma NthWeekdayIs(y: int, m: int, wd: int, n: int, dd: int)
    requires 1 <= m <= 12 && 0 <= wd < 7 && 1 <= n <= 4
    requires 7 * (n - 1) < dd <= 7 * n && dd <= DaysInMonth(y, m)
    requires Weekday(Date(y, m, dd)) == wd
    ensures NthWeekday(y, m, wd, n) == Date(y, m, dd)
  {
    var d := NthWeekday(y, m, wd, n);
    var f := Weekday(Date(y, m, 1));
    WeekdayInMonth(y, m, dd);
    WeekdayInMonth(y, m, d.day);
    SameResidue(f + dd - 1, f + d.day - 1);
  }

  /** The last weekday wd of a month is the one day with weekday wd among
      the last seven days of the month. */
  lemma LastWeekdayIs(y: int, m: int, wd: int, dd: int)
    requires 1 <= m <= 12 && 0 <= wd < 7
    requires DaysInMonth(y, m) - 7 < dd <= DaysInMonth(y, m)
    requires Weekday(Date(y, m, dd)) == wd
    ensures LastWeekday(y, m, wd) == Date(y, m, dd)
  {
    var d := LastWeekday(y, m, wd);
    var f := Weekday(Date(y, m, 1));
    WeekdayInMonth(y, m, dd);
    WeekdayInMonth(y, m, d.day);
    SameResidue(f + dd - 1, f + d.day - 1);
  }

  /** The day on which a fixed-date holiday d is observed: the nearest
      weekday, so a Saturday moves back to Friday and a Sunday forward to
      Monday. */
  function Observed(d: Date): (r: Date)
    requires ValidDate(d)
    ensures ValidDate(r) && !IsWeekendDay(Weekday(r))
    ensures r == PrevDay(d) || r == d || r == NextDay(d)
    ensures !IsWeekendDay(Weekday(d)) ==> r == d
    ensures Weekday(d) == Saturday ==> r == PrevDay(d)
    ensures Weekday(d) == Sunday ==> r == NextDay(d)
  {
    NextDayNumber(d);
    WeekdayNext(d);
    WeekdayNext(PrevDay(d));
    PrevNext(d);
    var w := Weekday(d);
    if w == Saturday then PrevDay(d)
    else if w == Sunday then NextDay(d)
    else d
  }

  /** The observed date of the i-th of the ten US federal holidays of year
      y, in calendar order. */
  function Holiday(y: int, i: int): (d: Date)
    requires 0 <= i < 10
    ensures ValidDate(d) && !IsWeekendDay(Weekday(d))
  {
    match i
    case 0 => Observed(Date(y, 1, 1))           // New Year's Day
    case 1 => NthWeekday(y, 1, Monday, 3)       // Martin Luther King Jr. Day
    case 2 => NthWeekday(y, 2, Monday, 3)       // Presidents' Day
    case 3 => LastWeekday(y, 5, Monday)         // Memorial Day
    case 4 => Observed(Date(y, 7, 4))           // Independence Day
    case 5 => NthWeekday(y, 9, Monday, 1)       // Labor Day
    case 6 => NthWeekday(y, 10, Monday, 2)      // Columbus Day
    case 7 => Observed(Date(y, 11, 11))         // Veterans Day
    case 8 => NthWeekday(y, 11, Thursday, 4)    // Thanksgiving Day
    case 9 => Observed(Date(y, 12, 25))         // Christmas Day
  }

  // The holidays fixed by weekday, each as the one day of its week of the
  // month with the right weekday.

  /** Martin Luther King Jr. Day is the Monday among January 15 to 21. */
  lemma KingDayOn(y: int, dd: int)
    requires 15 <= dd <= 21 && Weekday(Date(y, 1, dd)) == Monday
    ensures Holiday(y, 1) == Date(y, 1, dd)
  {
    NthWeekdayIs(y, 1, Monday, 3, dd);
  }

  /** Presidents' Day is the Monday among February 15 to 21. */
  lemma PresidentsDayOn(y: int, dd: int)
    requires 15 <= dd <= 21 && Weekday(Date(y, 2, dd)) == Monday
    ensures Holiday(y, 2) == Date(y, 2, dd)
  {
    NthWeekdayIs(y, 2, Monday, 3, dd);
  }

  /** Memorial Day is the Monday among May 25 to 31. */
  lemma MemorialDayOn(y: int, dd: int)
    requires 25 <= dd <= 31 && Weekday(Date(y, 5, dd)) == Monday
    ensures Holiday(y, 3) == Date(y, 5, dd)
  {
    LastWeekdayIs(y, 5, Monday, dd);
  }

  /** Labor Day is the Monday among September 1 to 7. */
  lemma LaborDayOn(y: int, dd: int)
    requires 1 <= dd <= 7 && Weekday(Date(y, 9, dd)) == Monday
    ensures Holiday(y, 5) == Date(y, 9, dd)
  {
    NthWeekdayIs(y, 9, Monday, 1, dd);
  }

  /** Columbus Day is the Monday among October 8 to 14. */
  lemma ColumbusDayOn(y: int, dd: int)
    requires 8 <= dd <= 14 && Weekday(Date(y, 10, dd)) == Monday
    ensures Holiday(y, 6) == Date(y, 10, dd)
  {
    NthWeekdayIs(y, 10, Monday, 2, dd);
  }

  /** Thanksgiving Day is the Thursday among November 22 to 28. */
  lemma ThanksgivingDayOn(y: int, dd: int)
    requires 22 <= dd <= 28 && Weekday(Date(y, 11, dd)) == Thursday
    ensures Holiday(y, 8) == Date(y, 11, dd)
  {
    NthWeekdayIs(y, 11, Thursday, 4, dd);
  }

  /** The observed holidays that fall in calendar year y: those of year y,
      and New Year's Day of year y + 1 when, falling on a Saturday, it is
      observed on December 31 of y. */
  function HolidaySet(y: int): (s: set<Date>)
    ensures forall d :: d in s ==> ValidDate(d) && d.year == y && !IsWeekendDay(Weekday(d))
  {
    set i, z | 0 <= i < 10 && y <= z <= y + 1 && Holiday(z, i).year == y :: Holiday(z, i)
  }

  /** d is an observed holiday of its calendar year. */
  predicate IsHoliday(d: Date)
    ensures IsHoliday(d) ==> ValidDate(d) && !IsWeekendDay(Weekday(d))
  {
    d in HolidaySet(d.year)
  }

  predicate IsBankingDate(d: Date) {
    !IsWeekendDay(Weekday(d)) && !IsHoliday(d)
  }

  /** Each observed holiday that falls in its own year is a holiday of that
      year. */
  lemma HolidayOfItsYear(y: int, i: int)
    requires 0 <= i < 10 && Holiday(y, i).year == y
    ensures IsHoliday(Holiday(y, i))
  {
    assert Holiday(y, i) in HolidaySet(y);
  }

  /** d is the observance of the fixed-date holiday month m, day dd of year y. */
  predicate ObservedNear(d: Date, y: int, m: int, dd: int) {
    var w := Weekday(d);
    (d == Date(y, m, dd) && Monday <= w <= Friday)
    || (d == Date(y, m, dd - 1) && w == Friday)
    || (d == Date(y, m, dd + 1) && w == Monday)
    || (m == 1 && dd == 1 && d == Date(y - 1, 12, 31) && w == Friday)
  }

  lemma ObservedFixed(y: int, m: int, dd: int)
    requires 1 <= m <= 12 && 1 <= dd < DaysInMonth(y, m)
    requires dd > 1 || m == 1
    ensures ObservedNear(Observed(Date(y, m, dd)), y, m, dd)
  {
    var f := Date(y, m, dd);
    var w := Weekday(f);
    PrevNext(f);
    WeekdayNext(f);
    WeekdayNext(PrevDay(f));
    if w == Saturday {
      assert Observed(f) == PrevDay(f);
    } else if w == Sunday {
      assert Observed(f) == NextDay(f);
    } else {
      assert Observed(f) == f;
    }
  }

  /** What any observed holiday looks like: its month, its range of days and
      its weekday. */
  predicate HolidayShape(d: Date) {
    var m, day, w := d.month, d.day, Weekday(d);
    ValidDate(d) &&
    ( ObservedNear(d, d.year, 1, 1) || ObservedNear(d, d.year + 1, 1, 1)
      || ObservedNear(d, d.year, 7, 4) || ObservedNear(d, d.year, 11, 11)
      || ObservedNear(d, d.year, 12, 25)
      || (m == 1 && 15 <= day <= 21 && w == Monday)
      || (m == 2 && 15 <= day <= 21 && w == Monday)
      || (m == 5 && 25 <= day <= 31 && w == Monday)
      || (m == 9 && 1 <= day <= 7 && w == Monday)
      || (m == 10 && 8 <= day <= 14 && w == Monday)
      || (m == 11 && 22 <= day <= 28 && w == Thursday) )
  }

  /** Each of the ten observed holidays of year y has the shape of a
      holiday. */
  lemma HolidayRuleShape(y: int, i: int)
    requires 0 <= i < 10
    requires Holiday(y, i).year == y || Holiday(y, i).year == y - 1
    ensures HolidayShape(Holiday(y, i))
  {
    if i == 0 {
      ObservedFixed(y, 1, 1);
    } else if i == 4 {
      ObservedFixed(y, 7, 4);
    } else if i == 7 {
      ObservedFixed(y, 11, 11);
    } else if i == 9 {
      ObservedFixed(y, 12, 25);
    }
  }

  /** Every observed holiday has the shape of a holiday. */
  lemma HolidayHasShape(d: Date)
    requires IsHoliday(d)
    ensures HolidayShape(d)
  {
    var i, z :| 0 <= i < 10 && d.year <= z <= d.year + 1 && Holiday(z, i).year == d.year && Holiday(z, i) == d;
    HolidayRuleShape(z, i);
  }

  /** No two consecutive days both have the shape of a holiday, so no two
      consecutive days are both observed holidays. */
  lemma NoAdjacentHolidays(d: Date)
    requires ValidDate(d)
    ensures !(HolidayShape(d) && HolidayShape(NextDay(d)))
  {
    NextDayNumber(d);
    WeekdayNext(d);
    if d.month == 1 {
    } else if d.month <= 6 {
    } else if d.month <= 10 {
    } else if d.month == 11 {
    }
  }

  /** A weekday that is not a banking day has the shape of a holiday. */
  lemma ClosedWeekdayShape(x: Date)
    requires ValidDate(x) && !IsWeekendDay(Weekday(x)) && !IsBankingDate(x)
    ensures HolidayShape(x)
  {
    HolidayHasShape(x);
  }

  /** Of two consecutive days from Monday to Friday at least one is a
      banking day. */
  lemma WeekdayPair(x: Date)
    requires ValidDate(x) && Monday <= Weekday(x) < Friday
    ensures IsBankingDate(x) || IsBankingDate(NextDay(x))
  {
    NextDayNumber(x);
    WeekdayNext(x);
    if !IsBankingDate(x) && !IsBankingDate(NextDay(x)) {
      ClosedWeekdayShape(x);
      ClosedWeekdayShape(NextDay(x));
      NoAdjacentHolidays(x);
    }
  }

  /** A predicate that holds on one of every two consecutive weekdays from
      Monday to Friday holds on one of any five consecutive days: a weekend
      takes two of them. */
  lemma PairsRecur(p: Date -> bool)
    requires forall x :: ValidDate(x) && Monday <= Weekday(x) < Friday ==> p(x) || p(NextDay(x))
    ensures RecursWithinFive(p)
  {
    forall d | ValidDate(d)
      ensures p(d) || p(NextDay(d)) || p(NextDay(NextDay(d))) || p(NextDay(NextDay(NextDay(d))))
           || p(NextDay(NextDay(NextDay(NextDay(d)))))
    {
      PairWithinFive(p, d);
    }
  }

  lemma PairWithinFive(p: Date -> bool, d: Date)
    requires forall x :: ValidDate(x) && Monday <= Weekday(x) < Friday ==> p(x) || p(NextDay(x))
    requires ValidDate(d)
    ensures p(d) || p(NextDay(d)) || p(NextDay(NextDay(d))) || p(NextDay(NextDay(NextDay(d))))
         || p(NextDay(NextDay(NextDay(NextDay(d)))))
  {
    var d1 := NextDay(d);
    var d2 := NextDay(d1);
    var d3 := NextDay(d2);
    NextDayNumber(d);
    NextDayNumber(d1);
    NextDayNumber(d2);
    PairAmongFive(p, d, d1, d2, d3, NextDay(d3));
  }

  /** Five consecutive days, d0 to d4, hold a weekday pair. */
  lemma PairAmongFive(p: Date -> bool, d0: Date, d1: Date, d2: Date, d3: Date, d4: Date)
    requires ValidDate(d0) && ValidDate(d1) && ValidDate(d2)
    requires d1 == NextDay(d0) && d2 == NextDay(d1) && d3 == NextDay(d2)
    requires Monday <= Weekday(d0) < Friday ==> p(d0) || p(d1)
    requires Monday <= Weekday(d1) < Friday ==> p(d1) || p(d2)
    requires Monday <= Weekday(d2) < Friday ==> p(d2) || p(d3)
    requires Monday <= Weekday(d3) < Friday ==> p(d3) || p(d4)
    ensures p(d0) || p(d1) || p(d2) || p(d3) || p(d4)
  {
    WeekdayNext(d0);
    WeekdayNext(d1);
    WeekdayNext(d2);
    FourWeekdays(Weekday(d0), Weekday(d1), Weekday(d2), Weekday(d3));
  }

  /** Of four consecutive weekdays one lies from Monday to Thursday. */
  lemma FourWeekdays(w0: int, w1: int, w2: int, w3: int)
    requires 0 <= w0 < 7 && w1 == (w0 + 1) % 7 && w2 == (w1 + 1) % 7 && w3 == (w2 + 1) % 7
    ensures Monday <= w0 < Friday || Monday <= w1 < Friday || Monday <= w2 < Friday
         || Monday <= w3 < Friday
  {
  }

  /** Banking days recur: every stretch of five consecutive days holds one. */
  lemma BankingDaysRecur()
    ensures RecursWithinFive(IsBankingDate)
  {
    forall x | ValidDate(x) && Monday <= Weekday(x) < Friday
      ensures IsBankingDate(x) || IsBankingDate(NextDay(x))
    {
      WeekdayPair(x);
    }
    PairsRecur(IsBankingDate);
  }
}

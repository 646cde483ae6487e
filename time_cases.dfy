/** The cases of the timestamp tests, proved about the model on the dates they use. */
module TimeCases {
  import opened Civil
  import opened Holidays
  import opened DayCount
  import opened BaseTime
  import opened Wrappers

  /** y-m-d at h o'clock, US Eastern time. */
  function EST(y: int, m: int, d: int, h: int): Time
    requires ValidDate(Date(y, m, d)) && 0 <= h < 24
  {
    At(Date(y, m, d), h, 0, 0, Eastern)
  }

  // The ten observed federal holidays of 2018.

  lemma NewYearsDayDate2018()
    ensures Holiday(2018, 0) == Date(2018, 1, 1)
  {
    assert DayNumber(Date(2018, 1, 1)) == 736694;
  }

  lemma NewYearsDay2018()
    ensures IsHoliday(Date(2018, 1, 1))
  {
    NewYearsDayDate2018();
    HolidayOfItsYear(2018, 0);
  }

  lemma KingDayDate2018()
    ensures Holiday(2018, 1) == Date(2018, 1, 15)
  {
    assert DayNumber(Date(2018, 1, 15)) == 736708;
    KingDayOn(2018, 15);
  }

  lemma KingDay2018()
    ensures IsHoliday(Date(2018, 1, 15))
  {
    KingDayDate2018();
    HolidayOfItsYear(2018, 1);
  }

  lemma PresidentsDayDate2018()
    ensures Holiday(2018, 2) == Date(2018, 2, 19)
  {
    assert DayNumber(Date(2018, 2, 19)) == 736743;
    PresidentsDayOn(2018, 19);
  }

  lemma PresidentsDay2018()
    ensures IsHoliday(Date(2018, 2, 19))
  {
    PresidentsDayDate2018();
    HolidayOfItsYear(2018, 2);
  }

  lemma MemorialDayDate2018()
    ensures Holiday(2018, 3) == Date(2018, 5, 28)
  {
    assert DayNumber(Date(2018, 5, 28)) == 736841;
    MemorialDayOn(2018, 28);
  }

  lemma MemorialDay2018()
    ensures IsHoliday(Date(2018, 5, 28))
  {
    MemorialDayDate2018();
    HolidayOfItsYear(2018, 3);
  }

  lemma IndependenceDayDate2018()
    ensures Holiday(2018, 4) == Date(2018, 7, 4)
  {
    assert DayNumber(Date(2018, 7, 4)) == 736878;
  }

  lemma IndependenceDay2018()
    ensures IsHoliday(Date(2018, 7, 4))
  {
    IndependenceDayDate2018();
    HolidayOfItsYear(2018, 4);
  }

  lemma LaborDayDate2018()
    ensures Holiday(2018, 5) == Date(2018, 9, 3)
  {
    assert DayNumber(Date(2018, 9, 3)) == 736939;
    LaborDayOn(2018, 3);
  }

  lemma LaborDay2018()
    ensures IsHoliday(Date(2018, 9, 3))
  {
    LaborDayDate2018();
    HolidayOfItsYear(2018, 5);
  }

  lemma ColumbusDayDate2018()
    ensures Holiday(2018, 6) == Date(2018, 10, 8)
  {
    assert DayNumber(Date(2018, 10, 8)) == 736974;
    ColumbusDayOn(2018, 8);
  }

  lemma ColumbusDay2018()
    ensures IsHoliday(Date(2018, 10, 8))
  {
    ColumbusDayDate2018();
    HolidayOfItsYear(2018, 6);
  }

  lemma VeteransDayDate2018()
    ensures Holiday(2018, 7) == Date(2018, 11, 12)
  {
    assert DayNumber(Date(2018, 11, 11)) == 737008;
  }

  lemma VeteransDay2018()
    ensures IsHoliday(Date(2018, 11, 12))
  {
    VeteransDayDate2018();
    HolidayOfItsYear(2018, 7);
  }

  lemma ThanksgivingDayDate2018()
    ensures Holiday(2018, 8) == Date(2018, 11, 22)
  {
    assert DayNumber(Date(2018, 11, 22)) == 737019;
    ThanksgivingDayOn(2018, 22);
  }

  lemma ThanksgivingDay2018()
    ensures IsHoliday(Date(2018, 11, 22))
  {
    ThanksgivingDayDate2018();
    HolidayOfItsYear(2018, 8);
  }

  lemma ChristmasDayDate2018()
    ensures Holiday(2018, 9) == Date(2018, 12, 25)
  {
    assert DayNumber(Date(2018, 12, 25)) == 737052;
  }

  lemma ChristmasDay2018()
    ensures IsHoliday(Date(2018, 12, 25))
  {
    ChristmasDayDate2018();
    HolidayOfItsYear(2018, 9);
  }
  // Lifting the test timestamps.

  /** A timestamp given in US Eastern time on or after year 1 lifts to itself. */
  lemma EasternLifts(y: int, m: int, d: int, h: int)
    requires ValidDate(Date(y, m, d)) && y >= 1 && 0 <= h < 24
    ensures NewTime(EST(y, m, d, h)) == EST(y, m, d, h)
  {
    DayNumberFromYearOne(Date(y, m, d));
    NewTimeOfEastern(EST(y, m, d, h));
  }

  /** A timestamp not before the zero instant lifts to its Eastern reading. */
  lemma LiftsToEastern(t: Time)
    requires Valid(t) && Instant(t) >= 0
    ensures NewTime(t) == In(t, Eastern)
  {
    ZeroIsZero();
  }

  /** An observed holiday is no banking day at any hour. */
  lemma HolidayClosed(y: int, m: int, d: int, h: int)
    requires ValidDate(Date(y, m, d)) && y >= 1 && 0 <= h < 24
    requires IsHoliday(Date(y, m, d))
    ensures !IsBankingDay(NewTime(EST(y, m, d, h)))
  {
    EasternLifts(y, m, d, h);
  }

  /** A date without the shape of a holiday is no holiday. */
  lemma NoHolidayShape(d: Date)
    requires ValidDate(d) && !HolidayShape(d)
    ensures !IsHoliday(d)
  {
    if IsHoliday(d) {
      HolidayHasShape(d);
    }
  }

  /** The holidays of the banking-day table are closed at every hour. */
  lemma HolidaysAreClosed2018()
    ensures forall h :: 0 <= h < 24 ==> !IsBankingDay(NewTime(EST(2018, 1, 1, h)))
    ensures forall h :: 0 <= h < 24 ==> !IsBankingDay(NewTime(EST(2018, 1, 15, h)))
    ensures forall h :: 0 <= h < 24 ==> !IsBankingDay(NewTime(EST(2018, 2, 19, h)))
    ensures forall h :: 0 <= h < 24 ==> !IsBankingDay(NewTime(EST(2018, 5, 28, h)))
    ensures forall h :: 0 <= h < 24 ==> !IsBankingDay(NewTime(EST(2018, 7, 4, h)))
    ensures forall h :: 0 <= h < 24 ==> !IsBankingDay(NewTime(EST(2018, 9, 3, h)))
    ensures forall h :: 0 <= h < 24 ==> !IsBankingDay(NewTime(EST(2018, 10, 8, h)))
    ensures forall h :: 0 <= h < 24 ==> !IsBankingDay(NewTime(EST(2018, 11, 12, h)))
    ensures forall h :: 0 <= h < 24 ==> !IsBankingDay(NewTime(EST(2018, 11, 22, h)))
    ensures forall h :: 0 <= h < 24 ==> !IsBankingDay(NewTime(EST(2018, 12, 25, h)))
  {
    NewYearsDay2018();
    forall h | 0 <= h < 24 {
      HolidayClosed(2018, 1, 1, h);
    }
    KingDay2018();
    forall h | 0 <= h < 24 {
      HolidayClosed(2018, 1, 15, h);
    }
    PresidentsDay2018();
    forall h | 0 <= h < 24 {
      HolidayClosed(2018, 2, 19, h);
    }
    MemorialDay2018();
    forall h | 0 <= h < 24 {
      HolidayClosed(2018, 5, 28, h);
    }
    IndependenceDay2018();
    forall h | 0 <= h < 24 {
      HolidayClosed(2018, 7, 4, h);
    }
    LaborDay2018();
    forall h | 0 <= h < 24 {
      HolidayClosed(2018, 9, 3, h);
    }
    ColumbusDay2018();
    forall h | 0 <= h < 24 {
      HolidayClosed(2018, 10, 8, h);
    }
    VeteransDay2018();
    forall h | 0 <= h < 24 {
      HolidayClosed(2018, 11, 12, h);
    }
    ThanksgivingDay2018();
    forall h | 0 <= h < 24 {
      HolidayClosed(2018, 11, 22, h);
    }
    ChristmasDay2018();
    forall h | 0 <= h < 24 {
      HolidayClosed(2018, 12, 25, h);
    }
  }

  /** A weekday that is no observed holiday is a banking day at any hour. */
  lemma WeekdayOpen(y: int, m: int, d: int, h: int)
    requires ValidDate(Date(y, m, d)) && y >= 1 && 0 <= h < 24
    requires !IsWeekendDay(Weekday(Date(y, m, d))) && !IsHoliday(Date(y, m, d))
    ensures IsBankingDay(NewTime(EST(y, m, d, h)))
  {
    EasternLifts(y, m, d, h);
  }

  /** A weekend day is a weekend day and closed at any hour. */
  lemma WeekendClosed(y: int, m: int, d: int, h: int)
    requires ValidDate(Date(y, m, d)) && y >= 1 && 0 <= h < 24
    requires IsWeekendDay(Weekday(Date(y, m, d)))
    ensures IsWeekend(NewTime(EST(y, m, d, h))) && !IsBankingDay(NewTime(EST(y, m, d, h)))
  {
    EasternLifts(y, m, d, h);
  }

  /** A weekday is no weekend day at any hour. */
  lemma WeekdayNotWeekend(y: int, m: int, d: int, h: int)
    requires ValidDate(Date(y, m, d)) && y >= 1 && 0 <= h < 24
    requires !IsWeekendDay(Weekday(Date(y, m, d)))
    ensures !IsWeekend(NewTime(EST(y, m, d, h)))
  {
    EasternLifts(y, m, d, h);
  }

  lemma Jan3Weekday()
    ensures Weekday(Date(2018, 1, 3)) == 3
  {
    assert DayNumber(Date(2018, 1, 3)) == 736696;
  }

  lemma Jan3NoHoliday()
    ensures !IsHoliday(Date(2018, 1, 3))
  {
    Jan3Weekday();
    NoHolidayShape(Date(2018, 1, 3));
  }

  /** Wednesday, January 3, 2018 is a banking day at every hour. */
  lemma WednesdayOpen2018()
    ensures forall h :: 0 <= h < 24 ==> IsBankingDay(NewTime(EST(2018, 1, 3, h)))
  {
    Jan3Weekday();
    Jan3NoHoliday();
    forall h | 0 <= h < 24 {
      WeekdayOpen(2018, 1, 3, h);
    }
  }

  lemma Jan6Weekday()
    ensures Weekday(Date(2018, 1, 6)) == Saturday
  {
    assert DayNumber(Date(2018, 1, 6)) == 736699;
  }

  lemma Jan7Weekday()
    ensures Weekday(Date(2018, 1, 7)) == Sunday
  {
    assert DayNumber(Date(2018, 1, 7)) == 736700;
  }

  lemma Jan9Weekday()
    ensures Weekday(Date(2018, 1, 9)) == 2
  {
    assert DayNumber(Date(2018, 1, 9)) == 736702;
  }

  /** January 6 and 7, 2018 are a weekend and closed, and January 9 is a
      weekday, at every hour. */
  lemma Weekend2018()
    ensures forall h :: 0 <= h < 24 ==>
      IsWeekend(NewTime(EST(2018, 1, 6, h))) && !IsBankingDay(NewTime(EST(2018, 1, 6, h)))
    ensures forall h :: 0 <= h < 24 ==>
      IsWeekend(NewTime(EST(2018, 1, 7, h))) && !IsBankingDay(NewTime(EST(2018, 1, 7, h)))
    ensures forall h :: 0 <= h < 24 ==> !IsWeekend(NewTime(EST(2018, 1, 9, h)))
  {
    Jan6Weekday();
    Jan7Weekday();
    Jan9Weekday();
    forall h | 0 <= h < 24 {
      WeekendClosed(2018, 1, 6, h);
    }
    forall h | 0 <= h < 24 {
      WeekendClosed(2018, 1, 7, h);
    }
    forall h | 0 <= h < 24 {
      WeekdayNotWeekend(2018, 1, 9, h);
    }
  }

  // Adding two banking days to Thursday, January 11, 2018.

  /** Counting in five days with the first and the last days only. */
  lemma FirstAndFifth(p: Date -> bool, d: Date)
    requires ValidDate(d)
    requires p(AddDays(d, 1)) && !p(AddDays(d, 2)) && !p(AddDays(d, 3)) && !p(AddDays(d, 4))
    requires p(AddDays(d, 5))
    ensures CountAhead(p, d, 5) == 2
  {
    assert CountAhead(p, d, 1) == 1;
    assert CountAhead(p, d, 2) == 1;
    assert CountAhead(p, d, 3) == 1;
    assert CountAhead(p, d, 4) == 1;
  }

  lemma Jan12Open()
    ensures IsBankingDate(Date(2018, 1, 12))
  {
    assert DayNumber(Date(2018, 1, 12)) == 736705;
    NoHolidayShape(Date(2018, 1, 12));
  }

  lemma Jan13Closed()
    ensures !IsBankingDate(Date(2018, 1, 13))
  {
    assert DayNumber(Date(2018, 1, 13)) == 736706;
  }

  lemma Jan14Closed()
    ensures !IsBankingDate(Date(2018, 1, 14))
  {
    assert DayNumber(Date(2018, 1, 14)) == 736707;
  }

  lemma Jan16Weekday()
    ensures Weekday(Date(2018, 1, 16)) == 2
  {
    assert DayNumber(Date(2018, 1, 16)) == 736709;
  }

  lemma Jan16Open()
    ensures IsBankingDate(Date(2018, 1, 16))
  {
    Jan16Weekday();
    NoHolidayShape(Date(2018, 1, 16));
  }

  /** From January 11, 2018 the second banking day is five days ahead, on
      January 16: the 12th is open, the weekend and King Day are closed. */
  lemma TwoBankingDaysFromJan11()
    ensures AddDays(Date(2018, 1, 11), 5) == Date(2018, 1, 16)
    ensures IsBankingDate(AddDays(Date(2018, 1, 11), 5))
    ensures CountAhead(IsBankingDate, Date(2018, 1, 11), 5) == 2
  {
    var d := Date(2018, 1, 11);
    AddDaysWithinMonth(d, 1);
    AddDaysWithinMonth(d, 2);
    AddDaysWithinMonth(d, 3);
    AddDaysWithinMonth(d, 4);
    AddDaysWithinMonth(d, 5);
    Jan12Open();
    Jan13Closed();
    Jan14Closed();
    KingDay2018();
    Jan16Open();
    FirstAndFifth(IsBankingDate, d);
  }

  /** Thursday, January 11, 2018 plus two banking days is Tuesday, January
      16, over a weekend and a Monday holiday. */
  method AddBankingDayCase() returns (r: Time)
    ensures r == NewTime(EST(2018, 1, 16, 1))
  {
    EasternLifts(2018, 1, 11, 1);
    EasternLifts(2018, 1, 16, 1);
    var t := NewTime(EST(2018, 1, 11, 1));
    r := AddBankingDay(t, 2);
    TwoBankingDaysFromJan11();
    NthAheadUnique(IsBankingDate, t.date, DayNumber(r.date) - DayNumber(t.date), 5);
  }

  // A timestamp before the zero instant.

  lemma EveOfYearZero()
    ensures DayNumber(Date(-1, 12, 31)) == -367
  {
  }

  /** Midnight UTC of December 31 of year -1 (written as day 0 of January of
      year 0) read in US Eastern time lies before the zero instant, and
      lifting it gives the zero value, which is zero and not before the zero
      instant. */
  lemma NegativeCase()
    ensures Before(In(Time(Date(-1, 12, 31), 0, UTC), Eastern), Zero)
    ensures IsZero(NewTime(In(Time(Date(-1, 12, 31), 0, UTC), Eastern)))
    ensures !Before(NewTime(In(Time(Date(-1, 12, 31), 0, UTC), Eastern)), Zero)
  {
    var ts := In(Time(Date(-1, 12, 31), 0, UTC), Eastern);
    EveOfYearZero();
    ZeroIsZero();
    NewTimeIsZero(ts);
  }

  // Timestamps from other zones land on Christmas Day in US Eastern time.

  lemma Dec24Number()
    ensures DayNumber(Date(2018, 12, 24)) == 737051
  {
  }

  lemma Dec26Number()
    ensures DayNumber(Date(2018, 12, 26)) == 737053
  {
  }

  /** 11 p.m. Pacific time on December 24, 2018 is 2 a.m. on December 25 in
      US Eastern time, a closed day. */
  lemma PacificEveCase()
    ensures NewTime(At(Date(2018, 12, 24), 23, 0, 0, Pacific)) == At(Date(2018, 12, 25), 2, 0, 0, Eastern)
    ensures !IsBankingDay(NewTime(At(Date(2018, 12, 24), 23, 0, 0, Pacific)))
  {
    var t := At(Date(2018, 12, 24), 23, 0, 0, Pacific);
    Dec24Number();
    LiftsToEastern(t);
    PrevNext(Date(2018, 12, 24));
    ChristmasDay2018();
  }

  /** 00:30 in Madrid on December 26, 2018 is 6:30 p.m. on December 25 in
      US Eastern time, a closed day. */
  lemma MadridMorningCase()
    ensures NewTime(At(Date(2018, 12, 26), 0, 30, 0, Madrid)) == At(Date(2018, 12, 25), 18, 30, 0, Eastern)
    ensures !IsBankingDay(NewTime(At(Date(2018, 12, 26), 0, 30, 0, Madrid)))
  {
    var t := At(Date(2018, 12, 26), 0, 30, 0, Madrid);
    Dec26Number();
    LiftsToEastern(t);
    ChristmasDay2018();
  }

  // Decoding JSON text.

  /** 20:36:58 UTC on December 14, 2018 is 15:36:58 in US Eastern time. */
  lemma BrowserTimestampLifts()
    ensures NewTime(At(Date(2018, 12, 14), 20, 36, 58, UTC)) == At(Date(2018, 12, 14), 15, 36, 58, Eastern)
  {
    assert DayNumber(Date(2018, 12, 14)) == 737041;
    LiftsToEastern(At(Date(2018, 12, 14), 20, 36, 58, UTC));
  }

  /** A browser timestamp with a Zulu offset decodes to its US Eastern
      reading, as rendered: 15:36:58 at offset -0500, abbreviated EST. */
  lemma JavascriptCase(parse: string -> Option<Time>, current: Time)
    requires forall s :: parse(s).Some? ==> Valid(parse(s).value)
    requires parse("2018-12-14T20:36:58.789Z") == Some(At(Date(2018, 12, 14), 20, 36, 58, UTC))
    ensures UnmarshalJSON(Quote("2018-12-14T20:36:58.789Z"), current, parse)
            == Ok(At(Date(2018, 12, 14), 15, 36, 58, Eastern))
    ensures var v := UnmarshalJSON(Quote("2018-12-14T20:36:58.789Z"), current, parse).value;
      Hour(v) == 15 && Minute(v) == 36 && Second(v) == 58
      && v.loc.abbreviation == "EST" && v.loc.offset == -5 * 3600
  {
    QuotedLiteral("2018-12-14T20:36:58.789Z");
    BrowserTimestampLifts();
  }

  lemma ZuluTimestampNotZero()
    ensures !IsZero(NewTime(At(Date(2018, 11, 27), 0, 54, 53, UTC)))
  {
    var v := At(Date(2018, 11, 27), 0, 54, 53, UTC);
    DayNumberFromYearOne(v.date);
    NewTimeIsZero(v);
  }

  /** A UTC timestamp decodes to a non-zero value. */
  lemma ZuluCase(parse: string -> Option<Time>, current: Time)
    requires forall s :: parse(s).Some? ==> Valid(parse(s).value)
    requires parse("2018-11-27T00:54:53Z") == Some(At(Date(2018, 11, 27), 0, 54, 53, UTC))
    ensures UnmarshalJSON(Quote("2018-11-27T00:54:53Z"), current, parse).Ok?
    ensures !IsZero(UnmarshalJSON(Quote("2018-11-27T00:54:53Z"), current, parse).value)
  {
    QuotedLiteral("2018-11-27T00:54:53Z");
    ZuluTimestampNotZero();
  }

  /** An empty JSON string decodes successfully and leaves the zero value. */
  lemma EmptyCase(parse: string -> Option<Time>)
    requires forall s :: parse(s).Some? ==> Valid(parse(s).value)
    ensures UnmarshalJSON(Quote(""), Zero, parse) == Ok(Zero)
  {
    QuotedLiteral("");
  }

  /** Input holding no JSON value at all is no JSON string and fails. */
  lemma ZeroLengthCase(parse: string -> Option<Time>, current: Time)
    requires forall s :: parse(s).Some? ==> Valid(parse(s).value)
    ensures UnmarshalJSON("", current, parse) == Err(NotAString(""))
  {
  }
}

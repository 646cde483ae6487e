# Banking-calendar timestamps and string helpers, in Dafny

This project models the moov `base` package's `Time` type: a timestamp
wrapper with US banking-calendar semantics. It also models two helpers
from the `strx` package.

- **Lifting (`NewTime`).** A timestamp is re-expressed in US Eastern time.
  One that lies before the zero instant (0001-01-01 00:00:00 UTC) is
  replaced by the zero value.
- **`IsWeekend`.** The timestamp's date, read in its own location, falls on
  a Saturday or a Sunday.
- **`IsBankingDay`.** The date is a weekday and not an observed US federal
  holiday.
  - There are ten holidays.
    - New Year's Day, Independence Day, Veterans Day and Christmas Day have
      fixed dates. One that falls on a Saturday is observed on the Friday
      before it; one that falls on a Sunday is observed on the Monday after.
    - Martin Luther King Jr. Day, Presidents' Day, Memorial Day, Labor Day,
      Columbus Day and Thanksgiving Day are the n-th (or last) given weekday
      of a month.
  - The holiday set of a year also holds December 31. That happens when the
    next New Year's Day falls on a Saturday and so is observed a day early.
- **`AddBankingDay(n)`.** Steps one calendar day at a time, forward for n > 0
  and back for n < 0. It counts only banking days and stops at the n-th one.
  The time of day and the location are kept.
- **Decoding JSON text (`UnmarshalJSON`).** A JSON string holding empty text
  is accepted and leaves the value as it is. Other text is handed to a
  timestamp parser; a parsed timestamp is lifted.
- **`strx.Or`.** Picks the first non-empty string.
- **`strx.Yes`.** Reads "yes" or "true", surrounded by whitespace, as true.

`TimeCases` and `StrxCases` prove the concrete cases of `time_test.go` and
`strx/strx_test.go`.

## Modules

- `Civil` (civil.dfy): the proleptic Gregorian calendar.
  - Day numbers are counted from 0001-01-01, which is day 0.
  - It also gives weekdays, the next and previous day, and `AddDays`, which
    moves k calendar days one day at a time.
- `DayCount` (daycount.dfy): counts the days that satisfy a predicate while
  stepping away from a date.
  - The loop methods are `StepAhead` and `StepBack`.
  - Their specifications are `IsNthAhead` and `IsNthBehind`.
- `Holidays` (holidays.dfy): the observed holidays of a year and banking
  dates.
  - It proves that banking days recur within every five consecutive days.
    That is what makes the stepping loop terminate.
- `BaseTime` (basetime.dfy): locations, timestamps and instants.
  - Also `In`, `NewTime`, `IsWeekend`, `IsBankingDay`, `AddBankingDay`, and
    the decoding of JSON text.
- `Strx` (strx.dfy): `Or`, trimming and `Yes`.
- `TimeCases` (time_cases.dfy) and `StrxCases` (strx_cases.dfy): the tests'
  concrete cases, proved about the model.
- `Wrappers` (wrappers.dfy): `Option` and `Result`.

## Model

| member | source | states |
|---|---|---|
| Civil.Weekday | time_test.go:192-195 | the day of the week of a date is a number from 0 (Sunday) to 6 (Saturday) |
| Civil.YearOneMonday | time_test.go:192-195 | the numbering is anchored at 0001-01-01, a Monday |
| Civil.WeekdayNext | time_test.go:259 | the day after weekday w has weekday w + 1, modulo 7 |
| Civil.AddDays | time_test.go:259-260 | moving a valid date k calendar days, one day at a time, gives a valid date (its distance is stated by AddDaysNumber) |
| Civil.NextDayNumber | time_test.go:259-260 | the next day of a valid date is valid and its day number is one more |
| Civil.AddDaysNumber | time_test.go:259-260 | moving k calendar days one at a time changes the day number by exactly k, in either direction |
| Civil.DayNumberInjective | time_test.go:264 | two valid dates with the same day number are the same date |
| Holidays.NthWeekday | time_test.go:196-199 | the n-th weekday wd of a month is a valid date of that month, has weekday wd and lies in the n-th week of the month |
| Holidays.LastWeekday | time_test.go:200-201 | the last weekday wd of a month is a valid date of that month, has weekday wd and lies in its last seven days |
| Holidays.NthWeekdayIs | time_test.go:196-199 | a day of the n-th week of a month with weekday wd is the n-th weekday wd |
| Holidays.LastWeekdayIs | time_test.go:200-201 | a day of the last seven of a month with weekday wd is the last weekday wd |
| Holidays.Observed | time_test.go:208-209 | a fixed-date holiday is observed on a weekday at most one day away: on a Saturday it moves to the Friday before, on a Sunday to the Monday after, and on a weekday it stays |
| Holidays.Holiday | time_test.go:188-213 | each of the ten observed holidays of a year is a valid weekday |
| Holidays.KingDayOn | time_test.go:196-197 | Martin Luther King Jr. Day is the Monday among January 15 to 21 |
| Holidays.PresidentsDayOn | time_test.go:198-199 | Presidents' Day is the Monday among February 15 to 21 |
| Holidays.MemorialDayOn | time_test.go:200-201 | Memorial Day is the Monday among May 25 to 31 |
| Holidays.LaborDayOn | time_test.go:204-205 | Labor Day is the Monday among September 1 to 7 |
| Holidays.ColumbusDayOn | time_test.go:206-207 | Columbus Day is the Monday among October 8 to 14 |
| Holidays.ThanksgivingDayOn | time_test.go:210-211 | Thanksgiving Day is the Thursday among November 22 to 28 |
| Holidays.HolidaySet | time_test.go:188-213 | every member of the holiday set of year y is a valid weekday of year y |
| Holidays.IsHoliday | time_test.go:188-213 | a date that is an observed holiday of its own year is a valid weekday |
| Holidays.IsBankingDate | time_test.go:183-226 | a date is a banking date when it is a weekday and not in the holiday set of its year (no contract of its own; WeekdayPair and BankingDaysRecur state its properties) |
| Holidays.HolidayOfItsYear | time_test.go:188-213 | an observed holiday that falls in its own year is a holiday of that year |
| Holidays.ObservedFixed | time_test.go:208-209 | the observance of a fixed date is that date on a weekday, the day before on a Friday, the day after on a Monday, or December 31 for New Year's Day |
| Holidays.HolidayHasShape | time_test.go:188-213 | every observed holiday has a holiday's shape: its month, its range of days and its weekday |
| Holidays.NoAdjacentHolidays | time_test.go:259 | no two consecutive days both have a holiday's shape |
| Holidays.WeekdayPair | time_test.go:259 | of two consecutive days from Monday to Friday, at least one is a banking day |
| Holidays.PairsRecur | time_test.go:262-263 | for any predicate: one that holds on one of every two consecutive days from Monday to Friday holds on one of any five consecutive days; with WeekdayPair this bounds the banking-day search of AddBankingDay |
| Holidays.BankingDaysRecur | time_test.go:259 | every five consecutive days hold a banking day |
| DayCount.NoFiveMissBack | time_test.go:262-263 | for any predicate that recurs within five days: it cannot fail on five days in a row looking back from the current day, which bounds the forward stepping loop between two banking days |
| DayCount.NoFiveMissAhead | time_test.go:262-263 | for any predicate that recurs within five days: it cannot fail on five days in a row looking ahead from the current day, which bounds the backward stepping loop between two banking days |
| DayCount.CountAheadMonotone | time_test.go:262-263 | for any predicate: counting over more days ahead never counts fewer, the step behind the uniqueness of the n-th banking day |
| DayCount.CountBehindMonotone | time_test.go:262-263 | for any predicate: counting over more days back never counts fewer, the step behind the uniqueness of the n-th banking day back |
| DayCount.NthAheadUnique | time_test.go:264 | two distances ahead that end on a counted day and count the same number of days are equal, so the n-th day is unique |
| DayCount.NthBehindUnique | time_test.go:264 | the same, stepping back |
| DayCount.StepAhead | time_test.go:259-263 | the loop stops on the n-th day satisfying p after d: at most 5n days on, on a p-day when n > 0, and after exactly n p-days |
| DayCount.StepBack | time_test.go:259-263 | the loop stops on the n-th day satisfying p before d, with the same bounds |
| BaseTime.IsZero | time_test.go:65-68 | a timestamp is zero when it denotes the zero instant, 0001-01-01 00:00:00 UTC, in whatever location (a definition, no contract of its own) |
| BaseTime.Before | time_test.go:60 | one timestamp is before another when its instant is earlier (a definition, no contract of its own) |
| BaseTime.Equal | time_test.go:264 | two timestamps are Equal when they denote the same instant, whatever their locations (a definition, no contract of its own) |
| BaseTime.IsWeekend | time_test.go:228-251 | a timestamp is on a weekend exactly when its date, read in its own location, is not one of Monday to Friday |
| BaseTime.IsBankingDay | time_test.go:183-226 | a timestamp is on a banking day exactly when it is not on a weekend and its date, read in its own location, is not an observed holiday of its year |
| BaseTime.SameInstantSameTime | time_test.go:264 | a valid timestamp is determined by its location and its instant |
| BaseTime.In | time_test.go:58 | re-expressing a timestamp in another location gives a valid timestamp there at the same instant |
| BaseTime.InOwnLocation | time_test.go:189 | re-expressing a timestamp in its own location changes nothing |
| BaseTime.NewTime | time_test.go:65-71 | a lifted timestamp is valid and never before the zero instant; from the zero instant on it is in US Eastern time and Equal to the original; before the zero instant it is the zero value |
| BaseTime.NewTimeIsZero | time_test.go:65-68 | a lifted timestamp is zero exactly when the original lies at or before the zero instant |
| BaseTime.NewTimeOfEastern | time_test.go:189 | lifting a US Eastern timestamp not before the zero instant changes nothing |
| BaseTime.NewTimeIdempotent | time_test.go:263-264 | lifting twice is Equal to lifting once, and the very same value away from the zero instant |
| BaseTime.AddBankingDay | time_test.go:253-273 | the result keeps the time of day and the location; its date is the n-th banking day after the start for n >= 0 and the -n-th banking day before it for n < 0 |
| BaseTime.NoBankingDays | time_test.go:263 | adding no banking days returns the timestamp unchanged |
| BaseTime.StringLiteral | time_test.go:100-101 | text read as a JSON string literal is the literal's content between its quotes, and every quoted text is read as one |
| BaseTime.QuotedLiteral | time_test.go:100-101 | a quoted text reads back as that text |
| BaseTime.UnmarshalJSON | time_test.go:91-105 | non-string input fails as not a string; empty text succeeds and keeps the current value; other text succeeds exactly when the parser accepts it, with the parsed timestamp lifted, and otherwise fails with that text; a decoded value is the current one or never before the zero instant |
| TimeCases.KingDayDate2018 | time_test.go:196-197 | Martin Luther King Jr. Day 2018 is observed on January 15 |
| TimeCases.MemorialDayDate2018 | time_test.go:200-201 | Memorial Day 2018 is observed on May 28 |
| TimeCases.VeteransDayDate2018 | time_test.go:208-209 | Veterans Day 2018 fell on Sunday, November 11, and is observed on Monday, November 12 |
| TimeCases.EasternLifts | time_test.go:189 | a US Eastern timestamp from year 1 on lifts to itself |
| TimeCases.LiftsToEastern | time_test.go:278 | a timestamp not before the zero instant lifts to its US Eastern reading |
| TimeCases.HolidayClosed | time_test.go:188-213 | an observed holiday is no banking day |
| TimeCases.HolidaysAreClosed2018 | time_test.go:188-213 | the ten dates of the table (January 1 and 15, February 19, May 28, July 4, September 3, October 8, November 12 and 22, December 25, 2018) are no banking days at any hour |
| TimeCases.WednesdayOpen2018 | time_test.go:190-191 | Wednesday, January 3, 2018 is a banking day at every hour |
| TimeCases.Weekend2018 | time_test.go:228-251 | January 6 and 7, 2018 are a weekend and no banking days, and January 9 is no weekend, at every hour |
| TimeCases.TwoBankingDaysFromJan11 | time_test.go:259-260 | the second banking day after January 11, 2018 is five days on, January 16 |
| TimeCases.AddBankingDayCase | time_test.go:253-273 | adding two banking days to January 11, 2018 at 01:00 US Eastern gives January 16 at 01:00 |
| TimeCases.NegativeCase | time_test.go:50-72 | the eve of the year-0 date read in US Eastern time is before the zero instant, and lifting it gives a zero value that is not before the zero instant |
| TimeCases.PacificEveCase | time_test.go:276-281 | 23:00 Pacific time on December 24, 2018 lifts to 02:00 on December 25 in US Eastern time, no banking day |
| TimeCases.MadridMorningCase | time_test.go:283-288 | 00:30 in Madrid on December 26, 2018 lifts to 18:30 on December 25 in US Eastern time, no banking day |
| TimeCases.JavascriptCase | time_test.go:120-134 | a browser timestamp of 20:36:58 UTC on December 14, 2018 decodes to that date at 15:36:58 in US Eastern time, and the decoded value's location is at offset -05:00, abbreviated EST |
| TimeCases.ZuluCase | time_test.go:91-98 | a Zulu timestamp decodes successfully to a non-zero value |
| TimeCases.ZeroLengthCase | time_test.go:100-105 | input holding no JSON value at all, unlike the empty JSON string, fails as not a string |
| TimeCases.EmptyCase | time_test.go:100-105 | an empty JSON string decodes successfully and leaves the zero value |
| Strx.Or | strx/strx_test.go:11-24 | the choice is empty exactly when every candidate is empty; otherwise it is a candidate with only empty candidates before it |
| Strx.OrAppend | strx/strx_test.go:15-23 | candidates after a non-empty choice do not change it; after only empty candidates the choice is made among the later ones |
| Strx.TrimLeft | strx/strx_test.go:34-36 | the result is a suffix of the input, everything dropped is whitespace, and it does not start with whitespace |
| Strx.TrimRight | strx/strx_test.go:34-36 | the result is a prefix of the input, everything dropped is whitespace, and it does not end with whitespace |
| Strx.TrimSpaceOf | strx/strx_test.go:34-36 | trimming removes exactly the whitespace around a text that starts and ends with non-whitespace |
| Strx.Yes | strx/strx_test.go:26-44 | text reads as a yes when, trimmed of whitespace, it is exactly "yes" or "true" (a definition; YesIff characterises it) |
| Strx.YesIff | strx/strx_test.go:26-44 | Yes holds exactly for "yes" or "true" with only whitespace around it |
| StrxCases.OrCases | strx/strx_test.go:11-24 | Or() is "", Or("", "backup") is "backup", and Or("primary", "") and Or("primary", "backup") are "primary" |
| StrxCases.OtherLength | strx/strx_test.go:30-39 | a trimmed word of a length other than three and four is no yes |
| StrxCases.YesCases | strx/strx_test.go:26-44 | Yes("yes") and Yes("  true") hold; Yes("no"), Yes("false") and Yes("") do not |

## Left out

- The wall clock (`Now`, time_test.go:27-48) is not modelled. It reads system time.
- The time-zone database is not modelled. Each location has one fixed offset from UTC: US Eastern -05:00, Pacific -08:00, Madrid +01:00. Daylight saving time and local mean time are not modelled, so the Negative test's `-0456 LMT` reading is taken at -05:00. The result stays before the zero instant either way.
- Encoding to JSON and rendering as text (`MarshalJSON`, `String`) are not modelled. So the marshal-then-unmarshal round trip (time_test.go:76-89) and the Ruby interoperability test (time_test.go:138-181) are not modelled either.
- Parsing RFC 3339 / ISO 8601 text is not modelled. It is the `parse` parameter of `UnmarshalJSON`. The current-time RFC 3339 case (time_test.go:108-118) is not modelled, because it reads the wall clock.
- BaseTime.UnmarshalJSON: zero-length input (no JSON value at all) is an error, `NotAString("")`. A JSON decoder rejects input holding no value before the type's own decoder runs. Only an empty JSON string, `""`, is the accepted no-op.
- JSON escape sequences and decoding of enclosing objects are not modelled. The JavaScript case decodes the field's value directly. The literal `null` is read as empty text.
- Sub-second precision is not modelled. A timestamp carries whole seconds.
- `time.Date(0, January, 0, …)` normalises day 0 to the last day of the month before. The model writes that date as December 31 of year -1.
- Determinism under repeated calls (time_test.go:215-225, 240-250) needs no lemma: `IsBankingDay`, `IsWeekend` and `NewTime` are functions.
- Holidays.Holiday: the holiday rules are written directly. Nothing delegates to a holiday-calendar library.
- Strx.Yes: case-insensitive matching is not modelled; the word must be exactly "yes" or "true".
- Strx.Yes: whitespace means the six ASCII whitespace characters only.
- Strx.Yes: trailing whitespace is trimmed as well; no test asserts it.
- TimeCases.JavascriptCase: states the decoded value's fields, offset and zone abbreviation, not the rendered text "2018-12-14 15:36:58 -0500 EST".
- TimeCases.PacificEveCase: the test checks only the day of the month. The model states the whole lifted timestamp.
- TimeCases.MadridMorningCase: the test checks only the day of the month. The model states the whole lifted timestamp.

## Notes

- The weekend table in time_test.go:237-238 calls January 9, 2018 a Monday. It was a Tuesday. `TimeCases.Jan9Weekday` states weekday 2, and the property the table asserts, that the day is no weekend, holds either way.
- `AddBankingDay` is a method whose loop steps one calendar day at a time. Its postcondition is linked to its specification through `IsNthAhead` and `IsNthBehind`.
  - The loop terminates because banking days recur within five days (`Holidays.BankingDaysRecur`).
  - This rests on `Holidays.NoAdjacentHolidays`: no two consecutive weekdays are both holidays.

/** The banking-calendar timestamp: a civil date and time of day in a
    fixed-offset time zone, lifted into US Eastern time, with weekend and
    banking-day predicates, banking-day arithmetic and the text decoding
    rule for empty input. */
module BaseTime {
  import opened Civil
  import opened Holidays
  import opened DayCount
  import opened Wrappers

  /** A time zone: its name, the abbreviation it renders and its offset in
      seconds east of UTC. */
  datatype Location = Location(name: string, abbreviation: string, offset: int)

  const UTC := Location("UTC", "UTC", 0)
  /** US Eastern time at its standard offset, five hours west of UTC. */
  const Eastern := Location("America/New_York", "EST", -5 * 3600)
  const Pacific := Location("America/Los_Angeles", "PST", -8 * 3600)
  const Madrid := Location("Europe/Madrid", "CET", 1 * 3600)

  /** A timestamp as the wall clock of its location shows it: a date and
      the seconds elapsed since midnight. */
  datatype Time = Time(date: Date, clock: int, loc: Location)

  predicate Valid(t: Time) {
    ValidDate(t.date) && 0 <= t.clock < 86400
  }

  function Hour(t: Time): int { t.clock / 3600 }
  function Minute(t: Time): int { t.clock % 3600 / 60 }
  function Second(t: Time): int { t.clock % 60 }

  /** The timestamp at h:m:s on date d in location loc. */
  function At(d: Date, h: int, m: int, s: int, loc: Location): (r: Time)
    requires ValidDate(d) && 0 <= h < 24 && 0 <= m < 60 && 0 <= s < 60
    ensures Valid(r) && r.date == d && r.loc == loc
    ensures Hour(r) == h && Minute(r) == m && Second(r) == s
  {
    Time(d, h * 3600 + m * 60 + s, loc)
  }

  /** Seconds from 0001-01-01 00:00:00 UTC to t. */
  function Instant(t: Time): int {
    DayNumber(t.date) * 86400 + t.clock - t.loc.offset
  }

  /** The zero value of the timestamp type: 0001-01-01 00:00:00 UTC. */
  const Zero := Time(Date(1, 1, 1), 0, UTC)

  predicate IsZero(t: Time) {
    Instant(t) == 0
  }

  predicate Before(a: Time, b: Time) {
    Instant(a) < Instant(b)
  }

  /** Two timestamps are Equal when they denote the same instant, whatever
      their locations. */
  predicate Equal(a: Time, b: Time) {
    Instant(a) == Instant(b)
  }

  lemma ZeroValid()
    ensures Valid(Zero)
  {
  }

  lemma ZeroIsZero()
    ensures IsZero(Zero)
  {
    assert DayNumber(Zero.date) == 0;
  }

  /** A valid timestamp is determined by its location and its instant. */
  lemma SameInstantSameTime(a: Time, b: Time)
    requires Valid(a) && Valid(b) && a.loc == b.loc
    requires Instant(a) == Instant(b)
    ensures a == b
  {
    DayParts(DayNumber(a.date), a.clock, DayNumber(b.date), b.clock);
    DayNumberInjective(a.date, b.date);
  }

  lemma DayParts(da: int, sa: int, db: int, sb: int)
    requires 0 <= sa < 86400 && 0 <= sb < 86400
    requires da * 86400 + sa == db * 86400 + sb
    ensures da == db && sa == sb
  {
  }

  /** The same instant as t, as the wall clock of loc shows it. */
  function In(t: Time, loc: Location): (r: Time)
    requires Valid(t)
    ensures Valid(r) && r.loc == loc
    ensures Instant(r) == Instant(t)
  {
    var total := t.clock - t.loc.offset + loc.offset;
    AddDaysNumber(t.date, total / 86400);
    Time(AddDays(t.date, total / 86400), total % 86400, loc)
  }

  /** Re-expressing a timestamp in its own location changes nothing. */
  lemma InOwnLocation(t: Time)
    requires Valid(t)
    ensures In(t, t.loc) == t
  {
    SameInstantSameTime(In(t, t.loc), t);
  }

  /** Lifts a timestamp: re-expressed in US Eastern time, and replaced by
      the zero value when it lies before the zero instant. */
  function NewTime(t: Time): (r: Time)
    requires Valid(t)
    ensures Valid(r)
    ensures Instant(t) >= 0 ==> r.loc == Eastern && Equal(r, t)
    ensures Instant(t) < 0 ==> r == Zero
    ensures !Before(r, Zero)
  {
    ZeroValid();
    ZeroIsZero();
    var e := In(t, Eastern);
    if Before(e, Zero) then Zero else e
  }

  /** A lifted timestamp is zero exactly when the original instant lies at
      or before the zero instant. */
  lemma NewTimeIsZero(t: Time)
    requires Valid(t)
    ensures IsZero(NewTime(t)) <==> Instant(t) <= 0
  {
    if Instant(t) < 0 {
      ZeroIsZero();
    }
  }

  /** Lifting a timestamp that is already in US Eastern time and not before
      the zero instant changes nothing. */
  lemma NewTimeOfEastern(t: Time)
    requires Valid(t) && t.loc == Eastern && Instant(t) >= 0
    ensures NewTime(t) == t
  {
    InOwnLocation(t);
  }

  /** Lifting a lifted timestamp gives an Equal one; away from the zero
      instant it gives the very same value. */
  lemma NewTimeIdempotent(t: Time)
    requires Valid(t)
    ensures Equal(NewTime(NewTime(t)), NewTime(t))
    ensures Instant(t) > 0 ==> NewTime(NewTime(t)) == NewTime(t)
  {
    if Instant(t) > 0 {
      InOwnLocation(NewTime(t));
    }
  }

  /** The date, read in the timestamp's own location, is a Saturday or a
      Sunday: not one of Monday to Friday. */
  predicate IsWeekend(t: Time)
    ensures IsWeekend(t) <==> !(Monday <= Weekday(t.date) <= Friday)
  {
    IsWeekendDay(Weekday(t.date))
  }

  /** A banking day is a weekday whose date, read in the timestamp's own
      location, is not an observed holiday of that year. */
  predicate IsBankingDay(t: Time)
    ensures IsBankingDay(t) <==> !IsWeekend(t) && !IsHoliday(t.date)
  {
    IsBankingDate(t.date)
  }

  /** Moves t by n banking days, forward for n > 0 and back for n < 0, one
      calendar day at a time; the time of day and the location are kept. */
  method AddBankingDay(t: Time, n: int) returns (r: Time)
    requires Valid(t)
    ensures Valid(r)
    ensures r.clock == t.clock && r.loc == t.loc
    ensures n >= 0 ==> IsNthAhead(IsBankingDate, t.date, n, r.date)
    ensures n < 0 ==> IsNthBehind(IsBankingDate, t.date, -n, r.date)
  {
    BankingDaysRecur();
    var d;
    if n >= 0 {
      d := StepAhead(IsBankingDate, t.date, n);
    } else {
      d := StepBack(IsBankingDate, t.date, -n);
    }
    r := Time(d, t.clock, t.loc);
  }

  /** Adding no banking days changes nothing. */
  lemma NoBankingDays(t: Time, r: Time)
    requires Valid(t) && r.clock == t.clock && r.loc == t.loc
    requires IsNthAhead(IsBankingDate, t.date, 0, r.date)
    ensures r == t
  {
  }

  /** Why decoding failed: the input was not a JSON string, or its text is
      not a timestamp (the offending text is kept). */
  datatype DecodeError = NotAString(data: string) | ParseError(input: string)

  /** raw written as a JSON string literal (escape sequences aside). */
  function Quote(raw: string): string {
    "\"" + raw + "\""
  }

  /** The text of a JSON string literal (escape sequences aside), or None
      for anything else; the literal null reads as the empty text. */
  function StringLiteral(data: string): (r: Option<string>)
    ensures r.Some? && data != "null" ==> data == Quote(r.value)
    ensures |data| >= 2 && data[0] == '"' && data[|data| - 1] == '"' ==> r.Some?
  {
    if data == "null" then Some("")
    else if |data| >= 2 && data[0] == '"' && data[|data| - 1] == '"' then Some(data[1..|data| - 1])
    else None
  }

  /** A quoted text reads as that text. */
  lemma QuotedLiteral(raw: string)
    ensures StringLiteral(Quote(raw)) == Some(raw)
  {
    var data := Quote(raw);
    assert data[0] == '"' && data[|data| - 1] == '"';
    assert data[1..|data| - 1] == raw;
    assert data != "null" by {
      assert data[0] != "null"[0];
    }
  }

  /** Decodes a JSON value into a timestamp. Empty text leaves the current
      value as it is and succeeds; other text goes to parse, which stands
      for the accepted timestamp formats, and a parsed timestamp is lifted. */
  function UnmarshalJSON(data: string, current: Time, parse: string -> Option<Time>): (r: Result<Time, DecodeError>)
    requires forall s :: parse(s).Some? ==> Valid(parse(s).value)
    ensures StringLiteral(data).None? ==> r == Err(NotAString(data))
    ensures StringLiteral(data) == Some("") ==> r == Ok(current)
    ensures StringLiteral(data).Some? && StringLiteral(data).value != "" ==>
      var raw := StringLiteral(data).value;
      (r.Ok? <==> parse(raw).Some?)
      && (r.Ok? ==> r.value == NewTime(parse(raw).value))
      && (r.Err? ==> r.error == ParseError(raw))
    ensures r.Ok? ==> r.value == current || !Before(r.value, Zero)
  {
    match StringLiteral(data)
    case None => Err(NotAString(data))
    case Some(raw) =>
      if raw == "" then Ok(current)
      else
        match parse(raw)
        case None => Err(ParseError(raw))
        case Some(v) => Ok(NewTime(v))
  }
}

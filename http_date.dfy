/**
 * `Date.prototype.toUTCString` on a time value (milliseconds since
 * 1970-01-01T00:00:00Z, proleptic Gregorian calendar, no leap seconds):
 * "Www, DD Mmm YYYY HH:MM:SS GMT", the IMF-fixdate of section 7.1.1.1 of
 * RFC 7231 for the years 0 to 9999.
 */
module HttpDate {
  import opened JsValues

  const MS_PER_SECOND := 1000
  const MS_PER_MINUTE := 60000
  const MS_PER_HOUR := 3600000
  const MS_PER_DAY := 86400000

  /** Days from 0001-01-01 to 1970-01-01. */
  const EPOCH_FROM_YEAR_ONE := 719162
  const DAYS_PER_400_YEARS := 146097
  const DAYS_PER_100_YEARS := 36524
  const DAYS_PER_4_YEARS := 1461

  const WeekDayNames: seq<string> := ["Sun", "Mon", "Tue", "Wed", "Thu", "Fri", "Sat"]
  const MonthNames: seq<string> :=
    ["Jan", "Feb", "Mar", "Apr", "May", "Jun", "Jul", "Aug", "Sep", "Oct", "Nov", "Dec"]

  datatype CivilDate = CivilDate(year: int, month: int, day: int)

  predicate IsLeapYear(y: int)
  {
    y % 4 == 0 && (y % 100 != 0 || y % 400 == 0)
  }

  /** Days of the year before the first of month `m`. */
  function DaysBeforeMonth(m: int, leap: bool): (r: nat)
    requires 1 <= m <= 12
  {
    [0, 31, 59, 90, 120, 151, 181, 212, 243, 273, 304, 334][m - 1] + (if leap && m > 2 then 1 else 0)
  }

  function DaysInMonth(y: int, m: int): (r: nat)
    requires 1 <= m <= 12
    ensures 28 <= r <= 31
  {
    if m == 12 then 31 else DaysBeforeMonth(m + 1, IsLeapYear(y)) - DaysBeforeMonth(m, IsLeapYear(y))
  }

  /** The last month, counting down from `m`, that starts on or before day `doy` of the year. */
  function MonthOf(doy: nat, leap: bool, m: int): (r: int)
    requires 1 <= m <= 12
    ensures 1 <= r <= m && DaysBeforeMonth(r, leap) <= doy
    ensures r < m ==> doy < DaysBeforeMonth(r + 1, leap)
    decreases m
  {
    if m == 1 || DaysBeforeMonth(m, leap) <= doy then m else MonthOf(doy, leap, m - 1)
  }

  /** A year and a zero-based day within it. */
  datatype YearDay = YearDay(year: int, dayOfYear: nat)

  /**
   * Days from 1970-01-01 to the first of January of year `y`: 365 for each
   * year before it plus one for each leap year before it, counted from
   * year 1 by the Gregorian rule.
   */
  function DaysBeforeYear(y: int): int
  {
    var p := y - 1;
    365 * p + p / 4 - p / 100 + p / 400 - EPOCH_FROM_YEAR_ONE
  }

  /** The day number of a calendar date, counting 1970-01-01 as day 0. */
  function DaysFromCivil(y: int, m: int, d: int): int
    requires 1 <= m <= 12
  {
    DaysBeforeYear(y) + DaysBeforeMonth(m, IsLeapYear(y)) + d - 1
  }

  /** The year and day of year of day `days`, counting 1970-01-01 as day 0. */
  function YearDayFromDays(days: int): (r: YearDay)
    ensures r.dayOfYear <= 364 || (r.dayOfYear == 365 && IsLeapYear(r.year))
  {
    var z := days + EPOCH_FROM_YEAR_ONE;
    YearDayInCycle(z / DAYS_PER_400_YEARS, z % DAYS_PER_400_YEARS)
  }

  /** The year and day of year of day `r` of 400-year cycle `cycles`, cycle 0 starting on 0001-01-01. */
  function YearDayInCycle(cycles: int, r: int): (yd: YearDay)
    requires 0 <= r < DAYS_PER_400_YEARS
    ensures yd.dayOfYear <= 364 || (yd.dayOfYear == 365 && IsLeapYear(yd.year))
  {
    var centuries := if r / DAYS_PER_100_YEARS < 3 then r / DAYS_PER_100_YEARS else 3;
    var rc := r - centuries * DAYS_PER_100_YEARS;
    var quads := rc / DAYS_PER_4_YEARS;
    var rq := rc % DAYS_PER_4_YEARS;
    var years := if rq / 365 < 3 then rq / 365 else 3;
    LeapYearOfCycle(cycles, centuries, quads, years);
    YearDay(400 * cycles + 100 * centuries + 4 * quads + years + 1, rq - years * 365)
  }

  /** The calendar date of day `days`, counting 1970-01-01 as day 0. */
  function CivilFromDays(days: int): (d: CivilDate)
    ensures 1 <= d.month <= 12
    ensures 1 <= d.day <= DaysInMonth(d.year, d.month)
  {
    var yd := YearDayFromDays(days);
    var leap := IsLeapYear(yd.year);
    var month := MonthOf(yd.dayOfYear, leap, 12);
    CivilDate(yd.year, month, yd.dayOfYear - DaysBeforeMonth(month, leap) + 1)
  }

  /** The year and day of year found for a day of a cycle lead back to that day. */
  lemma YearDayInCycleRoundTrip(cycles: int, r: int)
    requires 0 <= r < DAYS_PER_400_YEARS
    ensures var yd := YearDayInCycle(cycles, r);
            DaysBeforeYear(yd.year) + yd.dayOfYear + EPOCH_FROM_YEAR_ONE == DAYS_PER_400_YEARS * cycles + r
  {
    var centuries := if r / DAYS_PER_100_YEARS < 3 then r / DAYS_PER_100_YEARS else 3;
    var rc := r - centuries * DAYS_PER_100_YEARS;
    var quads := rc / DAYS_PER_4_YEARS;
    var rq := rc % DAYS_PER_4_YEARS;
    var years := if rq / 365 < 3 then rq / 365 else 3;
    assert rc == DAYS_PER_4_YEARS * quads + rq && 0 <= quads <= 24;
    DaysBeforeYearOfCycle(cycles, centuries, quads, years);
  }

  /** The year and day of year found for a day number lead back to that day number. */
  lemma YearDayRoundTrip(days: int)
    ensures var r := YearDayFromDays(days);
            DaysBeforeYear(r.year) + r.dayOfYear == days
  {
    var z := days + EPOCH_FROM_YEAR_ONE;
    YearDayInCycleRoundTrip(z / DAYS_PER_400_YEARS, z % DAYS_PER_400_YEARS);
  }

  /**
   * The calendar date found for a day number is that day: counting the days
   * of its years, months and days from 1970-01-01 gives the day number back.
   */
  lemma CivilRoundTrip(days: int)
    ensures var d := CivilFromDays(days);
            DaysFromCivil(d.year, d.month, d.day) == days
  {
    YearDayRoundTrip(days);
  }

  /**
   * Within a 400-year cycle, the year after `centuries` centuries, `quads`
   * four-year blocks and `years` years is a leap year exactly when it is the
   * fourth of its block and that block is not the short one closing a
   * century other than the fourth.
   */
  lemma LeapYearOfCycle(cycles: int, centuries: int, quads: int, years: int)
    requires 0 <= centuries <= 3 && 0 <= quads <= 24 && 0 <= years <= 3
    ensures IsLeapYear(400 * cycles + 100 * centuries + 4 * quads + years + 1)
        <==> years == 3 && (quads != 24 || centuries == 3)
  {
    var y := 400 * cycles + 100 * centuries + 4 * quads + years + 1;
    DivisibleByFour(y, 100 * cycles + 25 * centuries + quads, years + 1);
    DivisibleByHundred(y, 4 * cycles + centuries, 4 * quads + years + 1);
    DivisibleByFourHundred(y, cycles, 100 * centuries + 4 * quads + years + 1);
  }

  /**
   * The year after `cycles` 400-year cycles, `centuries` centuries, `quads`
   * four-year blocks and `years` years starts that many days after
   * 0001-01-01: 146097 per cycle, 36524 per century, 1461 per block and 365
   * per year.
   */
  lemma DaysBeforeYearOfCycle(cycles: int, centuries: int, quads: int, years: int)
    requires 0 <= centuries <= 3 && 0 <= quads <= 24 && 0 <= years <= 3
    ensures DaysBeforeYear(400 * cycles + 100 * centuries + 4 * quads + years + 1) + EPOCH_FROM_YEAR_ONE
         == DAYS_PER_400_YEARS * cycles + DAYS_PER_100_YEARS * centuries + DAYS_PER_4_YEARS * quads + 365 * years
  {
    var p := 400 * cycles + 100 * centuries + 4 * quads + years;
    QuotientByFour(p, 100 * cycles + 25 * centuries + quads, years);
    QuotientByHundred(p, 4 * cycles + centuries, 4 * quads + years);
    QuotientByFourHundred(p, cycles, 100 * centuries + 4 * quads + years);
  }

  lemma QuotientByFour(p: int, k: int, b: int)
    requires p == 4 * k + b && 0 <= b < 4
    ensures p / 4 == k
  {
  }

  lemma QuotientByHundred(p: int, k: int, b: int)
    requires p == 100 * k + b && 0 <= b < 100
    ensures p / 100 == k
  {
  }

  lemma QuotientByFourHundred(p: int, k: int, b: int)
    requires p == 400 * k + b && 0 <= b < 400
    ensures p / 400 == k
  {
  }

  lemma DivisibleByFour(y: int, k: int, b: int)
    requires y == 4 * k + b && 0 < b <= 4
    ensures y % 4 == 0 <==> b == 4
  {
  }

  lemma DivisibleByHundred(y: int, k: int, b: int)
    requires y == 100 * k + b && 0 < b <= 100
    ensures y % 100 == 0 <==> b == 100
  {
  }

  lemma DivisibleByFourHundred(y: int, k: int, b: int)
    requires y == 400 * k + b && 0 < b <= 400
    ensures y % 400 == 0 <==> b == 400
  {
  }

  /** `n` as two decimal digits, zero-padded. */
  function TwoDigits(n: nat): (r: string)
    requires n < 100
    ensures |r| == 2
  {
    [DigitChar(n / 10), DigitChar(n % 10)]
  }

  /** A year's magnitude: four decimal digits, zero-padded, or all its digits beyond 9999. */
  function YearDigits(n: nat): (r: string)
    ensures n <= 9999 ==> |r| == 4
  {
    if n <= 9999 then [DigitChar(n / 1000), DigitChar(n / 100 % 10), DigitChar(n / 10 % 10), DigitChar(n % 10)]
    else NatToString(n)
  }

  /** The year as `toUTCString` prints it: a minus sign before a year below 0. */
  function YearString(y: int): (r: string)
    ensures 0 <= y <= 9999 ==> |r| == 4
  {
    if y >= 0 then YearDigits(y) else "-" + YearDigits(-y)
  }

  /** The fields of a date in the layout of `toUTCString`. */
  function DateLayout(weekDay: nat, day: nat, month: int, year: int, hour: nat, minute: nat, second: nat): string
    requires weekDay < 7 && 1 <= month <= 12
    requires day < 100 && hour < 100 && minute < 100 && second < 100
  {
    var time := TwoDigits(hour) + ":" + TwoDigits(minute) + ":" + TwoDigits(second);
    WeekDayNames[weekDay] + ", " + TwoDigits(day) + " " + MonthNames[month - 1] + " " + YearString(year)
      + " " + time + " GMT"
  }

  /** `new Date(t).toUTCString()`. */
  function UtcString(t: int): string
  {
    var days := t / MS_PER_DAY;
    var ms := t % MS_PER_DAY;
    var date := CivilFromDays(days);
    DateLayout((days + 4) % 7, date.day, date.month, date.year,
      ms / MS_PER_HOUR, ms / MS_PER_MINUTE % 60, ms / MS_PER_SECOND % 60)
  }

  lemma NamesHaveThreeLetters()
    ensures forall i :: 0 <= i < |WeekDayNames| ==> |WeekDayNames[i]| == 3
    ensures forall i :: 0 <= i < |MonthNames| ==> |MonthNames[i]| == 3
  {
  }

  /** The shape of an IMF-fixdate: 29 characters, ", " after the weekday, " GMT" at the end. */
  predicate FixdateShape(s: string)
  {
    |s| == 29 && s[3..5] == ", " && s[25..] == " GMT"
  }

  /** With a year from 0 to 9999 the layout is 29 characters, ending in " GMT". */
  lemma DateLayoutShape(weekDay: nat, day: nat, month: int, year: int, hour: nat, minute: nat, second: nat)
    requires weekDay < 7 && 1 <= month <= 12
    requires day < 100 && hour < 100 && minute < 100 && second < 100
    requires 0 <= year <= 9999
    ensures FixdateShape(DateLayout(weekDay, day, month, year, hour, minute, second))
  {
    NamesHaveThreeLetters();
    var head := WeekDayNames[weekDay] + ", ";
    var r := head + TwoDigits(day) + " " + MonthNames[month - 1] + " " + YearString(year) + " "
      + (TwoDigits(hour) + ":" + TwoDigits(minute) + ":" + TwoDigits(second)) + " GMT";
    assert |head| == 5;
    assert r[3..5] == head[3..5];
  }

  /** For the years 0 to 9999 the string is exactly 29 characters, ending in " GMT". */
  lemma UtcStringShape(t: int)
    requires 0 <= CivilFromDays(t / MS_PER_DAY).year <= 9999
    ensures FixdateShape(UtcString(t))
  {
    var days := t / MS_PER_DAY;
    var ms := t % MS_PER_DAY;
    var date := CivilFromDays(days);
    DateLayoutShape((days + 4) % 7, date.day, date.month, date.year,
      ms / MS_PER_HOUR, ms / MS_PER_MINUTE % 60, ms / MS_PER_SECOND % 60);
  }

  /**
   * Day 11323 after 1970-01-01 is the first of January 2001. The day is a
   * parameter pinned by `requires` rather than a literal argument, which
   * keeps the verifier from unfolding the calendar on a constant.
   */
  lemma CivilDateOf2001(days: int)
    requires days == 11323
    ensures CivilFromDays(days) == CivilDate(2001, 1, 1)
  {
    assert days + EPOCH_FROM_YEAR_ONE == 5 * DAYS_PER_400_YEARS;
    assert YearDayFromDays(days) == YearDay(2001, 0);
    assert !IsLeapYear(2001);
    assert MonthOf(0, false, 12) == 1;
  }

  lemma LayoutOf2001()
    ensures DateLayout(1, 1, 1, 2001, 0, 0, 0) == "Mon, 01 Jan 2001 00:00:00 GMT"
  {
    var zero, one := TwoDigits(0), TwoDigits(1);
    assert zero == "00" && one == "01";
    var time := zero + ":" + zero + ":" + zero;
    assert time == "00:00:00";
    var year := YearString(2001);
    assert year == "2001" by {
      assert 2001 / 1000 == 2 && 2001 / 100 % 10 == 0 && 2001 / 10 % 10 == 0 && 2001 % 10 == 1;
    }
    assert WeekDayNames[1] == "Mon" && MonthNames[0] == "Jan";
    var date := "Mon" + ", " + one + " " + "Jan";
    assert date == "Mon, 01 Jan";
    var stamp := date + " " + year + " " + time;
    assert stamp == "Mon, 01 Jan 2001 00:00:00";
    assert DateLayout(1, 1, 1, 2001, 0, 0, 0) == stamp + " GMT";
  }

  /** 2001-01-01T00:00:00Z, as in the library's own test of `formatDate`. */
  lemma UtcStringOfNewYear2001(t: int)
    requires t == 978307200000
    ensures UtcString(t) == "Mon, 01 Jan 2001 00:00:00 GMT"
  {
    var days, ms := t / MS_PER_DAY, t % MS_PER_DAY;
    assert days == 11323 && ms == 0;
    var date := CivilFromDays(days);
    CivilDateOf2001(days);
    assert date.day == 1 && date.month == 1 && date.year == 2001;
    assert (days + 4) % 7 == 1;
    assert ms / MS_PER_HOUR == 0 && ms / MS_PER_MINUTE % 60 == 0 && ms / MS_PER_SECOND % 60 == 0;
    assert UtcString(t) == DateLayout((days + 4) % 7, date.day, date.month, date.year,
      ms / MS_PER_HOUR, ms / MS_PER_MINUTE % 60, ms / MS_PER_SECOND % 60);
    LayoutOf2001();
  }
}

/** The UTC calendar fields JavaScript's `Date` reports for a time value
    (`getUTCFullYear`, `getUTCMonth() + 1`, `getUTCDate`, `getUTCHours`,
    `getUTCMinutes`), computed with integer arithmetic on the proleptic
    Gregorian calendar. Dafny's `/` and `%` with a positive divisor are floor
    division and a non-negative remainder, which is what the ECMAScript
    definitions of Day(t) and HourFromTime(t) use. */
module UtcCalendar {

  const MsPerMinute: int := 60000
  const MsPerHour: int := 3600000
  const MsPerDay: int := 86400000

  datatype Civil = Civil(year: int, month: int, day: int)

  datatype UtcTime = UtcTime(year: int, month: int, day: int, hour: int, minute: int)

  /** Days from 1970-01-01 to the given date (month 1..12), counting a
      400-year era of 146097 days from 0000-03-01. This is the reference
      definition the conversion below is proved against. */
  function DaysFromCivil(year: int, month: int, day: int): int
    requires 1 <= month <= 12
  {
    var y := if month <= 2 then year - 1 else year;
    var era := y / 400;
    var yoe := y - era * 400;
    var doe := yoe * 365 + yoe / 4 - yoe / 100 + DayOfMarchYear(month, day);
    era * 146097 + doe - 719468
  }

  /** The day of a year that starts on March 1: 0 for March 1, 365 for a
      February 29. */
  function DayOfMarchYear(month: int, day: int): int
    requires 1 <= month <= 12
  {
    var mp := if month > 2 then month - 3 else month + 9;
    (153 * mp + 2) / 5 + day - 1
  }

  /** Gregorian leap years: every fourth year, except centuries not
      divisible by 400. */
  predicate IsLeapYear(y: int) {
    y % 4 == 0 && (y % 100 != 0 || y % 400 == 0)
  }

  /** The most days month `month` (1..12) can have in any year. */
  function MonthLimit(month: int): int
    requires 1 <= month <= 12
  {
    if month == 2 then 29
    else if month == 4 || month == 6 || month == 9 || month == 11 then 30
    else 31
  }

  /** The number of days of month `month` (1..12) of year `year`. */
  function DaysInMonth(year: int, month: int): int
    requires 1 <= month <= 12
  {
    if month == 2 && !IsLeapYear(year) then 28 else MonthLimit(month)
  }

  /** A date that exists: a month 1..12 and a day within that month. */
  predicate IsValidDate(c: Civil) {
    1 <= c.month <= 12 && 1 <= c.day <= DaysInMonth(c.year, c.month)
  }

  /** ECMAScript's DayFromYear(y): the day number of January 1 of year `y`. */
  function DayFromYear(y: int): int {
    365 * (y - 1970) + (y - 1969) / 4 - (y - 1901) / 100 + (y - 1601) / 400
  }

  /** The date of day `doy` (0 = March 1) of year `yoe` of an era; January
      and February belong to the next calendar year. */
  function DateOfEra(era: int, yoe: int, doy: int): (c: Civil)
    requires 0 <= doy <= 365
    ensures 1 <= c.month <= 12 && 1 <= c.day <= 31
    ensures c.month != 2 ==> c.day <= DaysInMonth(c.year, c.month)
    ensures c.month == 2 ==> c.day <= 28 || (doy == 365 && c.day == 29)
    ensures c.year == yoe + era * 400 + (if c.month <= 2 then 1 else 0)
  {
    var mp := (5 * doy + 2) / 153;
    var day := doy - (153 * mp + 2) / 5 + 1;
    var month := if mp < 10 then mp + 3 else mp - 9;
    Civil(yoe + era * 400 + (if month <= 2 then 1 else 0), month, day)
  }

  /** Splits day `doe` of an era into centuries, four-year blocks and years;
      the last century and the last year of a block each absorb the extra
      leap day. Gives the year of the era and the day of that year. */
  function YearOfEra(doe: int): (yd: (int, int))
    requires 0 <= doe < 146097
    ensures 0 <= yd.0 < 400 && 0 <= yd.1 <= 365
  {
    var century := if doe / 36524 < 4 then doe / 36524 else 3;
    var doc := doe - 36524 * century;
    var quad := doc / 1461;
    var doq := doc % 1461;
    var yy := if doq / 365 < 4 then doq / 365 else 3;
    (100 * century + 4 * quad + yy, doq - 365 * yy)
  }

  /** The last day of an era's year, day 365 counted from March 1, is a
      February 29: it occurs only when the following calendar year, the one
      that February belongs to, is a leap year. */
  lemma {:induction false} LeapDayOfEra(doe: int)
    requires 0 <= doe < 146097
    ensures var yd := YearOfEra(doe);
      yd.1 == 365 ==> (yd.0 + 1) % 4 == 0 && ((yd.0 + 1) % 100 != 0 || yd.0 == 399)
  {
    var century := if doe / 36524 < 4 then doe / 36524 else 3;
    var doc := doe - 36524 * century;
    var quad := doc / 1461;
    var doq := doc % 1461;
    var yy := if doq / 365 < 4 then doq / 365 else 3;
    assert YearOfEra(doe) == (100 * century + 4 * quad + yy, doq - 365 * yy);
    if doq - 365 * yy == 365 {
      assert yy == 3 && doq == 1460;
      var next := 100 * century + 4 * quad + 4;
      assert next % 4 == 0;
      if next % 100 == 0 {
        assert quad == 24;
        assert doc == 36524;
        assert century == 3;
      }
    }
  }

  /** Whether a year is a leap year depends only on its place in its
      400-year era. */
  lemma LeapYearOfEra(era: int, k: int)
    ensures IsLeapYear(400 * era + k) == IsLeapYear(k)
  {
    assert 400 * era + k == 4 * (100 * era) + k;
    assert 400 * era + k == 100 * (4 * era) + k;
    assert (400 * era + k) % 400 == k % 400;
  }

  /** The calendar date of day number `z` (days since 1970-01-01). */
  function CivilFromDays(z: int): (c: Civil)
    ensures 1 <= c.month <= 12 && 1 <= c.day <= 31
  {
    var shifted := z + 719468;
    var yd := YearOfEra(shifted % 146097);
    DateOfEra(shifted / 146097, yd.0, yd.1)
  }

  /** The UTC fields of a time value `t` in milliseconds since the epoch. */
  function UtcFieldsOf(t: int): (u: UtcTime)
    ensures 1 <= u.month <= 12 && 1 <= u.day <= 31
    ensures 0 <= u.hour < 24 && 0 <= u.minute < 60
  {
    var c := CivilFromDays(t / MsPerDay);
    var msInDay := t % MsPerDay;
    UtcTime(c.year, c.month, c.day, msInDay / MsPerHour, (msInDay / MsPerMinute) % 60)
  }

  /** The date of every day number exists: its day lies within its month,
      February 29 falling only in leap years. */
  lemma {:induction false} CivilFromDaysIsValid(z: int)
    ensures IsValidDate(CivilFromDays(z))
  {
    var shifted := z + 719468;
    var doe := shifted % 146097;
    var yd := YearOfEra(doe);
    LeapDayOfEra(doe);
    LeapYearOfEra(shifted / 146097, yd.0 + 1);
  }

  /** The reference count of days agrees with ECMAScript's DayFromYear on
      every January 1. */
  lemma {:induction false} DaysFromCivilIsDayFromYear(y: int)
    ensures DaysFromCivil(y, 1, 1) == DayFromYear(y)
  {
    var p := y - 1;
    var era := p / 400;
    var yoe := p - era * 400;
    assert 0 <= yoe < 400;
    assert (p - 1968) / 4 == p / 4 - 492;
    assert (p - 1900) / 100 == p / 100 - 19;
    assert (p - 1600) / 400 == era - 4;
    assert p / 4 == 100 * era + yoe / 4;
    assert p / 100 == 4 * era + yoe / 100;
  }

  /** The days of the years before year `yoe` of an era, plus the day of
      that year, give back the day of the era. */
  lemma {:induction false} YearOfEraDays(doe: int)
    requires 0 <= doe < 146097
    ensures var yd := YearOfEra(doe); yd.0 * 365 + yd.0 / 4 - yd.0 / 100 + yd.1 == doe
  {
    var century := if doe / 36524 < 4 then doe / 36524 else 3;
    var doc := doe - 36524 * century;
    var quad := doc / 1461;
    var doq := doc % 1461;
    var yy := if doq / 365 < 4 then doq / 365 else 3;
    assert 0 <= century <= 3 && 0 <= quad <= 24 && 0 <= yy <= 3;
    assert doc == 1461 * quad + doq;
    assert YearOfEra(doe) == (100 * century + 4 * quad + yy, doq - 365 * yy);
    YearsOfEraDays(century, quad, yy);
  }

  /** Years, four-year blocks and centuries of an era add up to its days. */
  lemma {:induction false} YearsOfEraDays(century: int, quad: int, yy: int)
    requires 0 <= century <= 3 && 0 <= quad <= 24 && 0 <= yy <= 3
    ensures var yoe := 100 * century + 4 * quad + yy;
      yoe * 365 + yoe / 4 - yoe / 100 == 36524 * century + 1461 * quad + 365 * yy
  {
    var yoe := 100 * century + 4 * quad + yy;
    assert yoe / 4 == 25 * century + quad;
    assert yoe / 100 == century;
  }

  /** The reference count of a date given by era, year of era and day of
      the year. */
  lemma {:induction false} DaysFromCivilOfEra(era: int, yoe: int, doy: int)
    requires 0 <= yoe < 400 && 0 <= doy <= 365
    ensures var c := DateOfEra(era, yoe, doy);
      DaysFromCivil(c.year, c.month, c.day) == era * 146097 + yoe * 365 + yoe / 4 - yoe / 100 + doy - 719468
  {
    var y := yoe + era * 400;
    assert y / 400 == era;
  }

  /** Converting a day number to a date and back gives the day number again:
      `CivilFromDays` inverts the reference count. */
  lemma {:induction false} CivilFromDaysRoundTrip(z: int)
    ensures var c := CivilFromDays(z); DaysFromCivil(c.year, c.month, c.day) == z
  {
    var shifted := z + 719468;
    var era := shifted / 146097;
    var doe := shifted % 146097;
    var yd := YearOfEra(doe);
    assert CivilFromDays(z) == DateOfEra(era, yd.0, yd.1);
    YearOfEraDays(doe);
    DaysFromCivilOfEra(era, yd.0, yd.1);
    assert shifted == era * 146097 + doe;
  }

  /** Splitting a day of an era given by its century, four-year block,
      year of the block and day of the year gives those parts back. */
  lemma {:induction false} YearOfEraOfParts(century: int, quad: int, yy: int, doy: int)
    requires 0 <= century <= 3 && 0 <= quad <= 24 && 0 <= yy <= 3 && 0 <= doy <= 365
    requires doy == 365 ==> yy == 3 && (quad == 24 ==> century == 3)
    ensures 0 <= 36524 * century + 1461 * quad + 365 * yy + doy < 146097
    ensures YearOfEra(36524 * century + 1461 * quad + 365 * yy + doy) == (100 * century + 4 * quad + yy, doy)
  {
    var doe := 36524 * century + 1461 * quad + 365 * yy + doy;
    var rest := 1461 * quad + 365 * yy + doy;
    assert 0 <= rest <= 36524 && (rest == 36524 ==> century == 3);
    var c := if doe / 36524 < 4 then doe / 36524 else 3;
    assert c == century;
    var doc := doe - 36524 * c;
    assert doc == rest;
    var doq := 365 * yy + doy;
    assert doq < 1461;
    assert doc / 1461 == quad && doc % 1461 == doq;
    var y := if doq / 365 < 4 then doq / 365 else 3;
    assert y == yy;
    assert YearOfEra(doe) == (100 * c + 4 * (doc / 1461) + y, doc % 1461 - 365 * y);
  }

  /** Counting the days of an era and splitting them again gives back the
      year of the era and the day of that year, provided day 365 is only
      asked of a year followed by a leap year. */
  lemma {:induction false} YearOfEraInverts(yoe: int, doy: int)
    requires 0 <= yoe < 400 && 0 <= doy <= 365
    requires doy == 365 ==> (yoe + 1) % 4 == 0 && ((yoe + 1) % 100 != 0 || yoe == 399)
    ensures 0 <= yoe * 365 + yoe / 4 - yoe / 100 + doy < 146097
    ensures YearOfEra(yoe * 365 + yoe / 4 - yoe / 100 + doy) == (yoe, doy)
  {
    var c := yoe / 100;
    var q := (yoe % 100) / 4;
    var yy := yoe % 4;
    assert yoe == 100 * c + 4 * q + yy;
    YearsOfEraDays(c, q, yy);
    if doy == 365 {
      assert yy == 3;
      if q == 24 {
        assert (yoe + 1) % 100 == 0;
      }
    }
    YearOfEraOfParts(c, q, yy, doy);
  }

  /** The date found for a day of the year is the one it was counted
      from. */
  lemma {:induction false} DateOfEraInverts(c: Civil, era: int, yoe: int)
    requires 1 <= c.month <= 12 && 1 <= c.day <= MonthLimit(c.month)
    requires c.year == yoe + era * 400 + (if c.month <= 2 then 1 else 0)
    ensures 0 <= DayOfMarchYear(c.month, c.day) <= 365
    ensures DayOfMarchYear(c.month, c.day) == 365 <==> c.month == 2 && c.day == 29
    ensures DateOfEra(era, yoe, DayOfMarchYear(c.month, c.day)) == c
  {
    var mp := if c.month > 2 then c.month - 3 else c.month + 9;
    var doy := DayOfMarchYear(c.month, c.day);
    var day := c.day;
    if mp == 0 { assert doy == day - 1; }
    else if mp == 1 { assert doy == 30 + day; }
    else if mp == 2 { assert doy == 60 + day; }
    else if mp == 3 { assert doy == 91 + day; }
    else if mp == 4 { assert doy == 121 + day; }
    else if mp == 5 { assert doy == 152 + day; }
    else if mp == 6 { assert doy == 183 + day; }
    else if mp == 7 { assert doy == 213 + day; }
    else if mp == 8 { assert doy == 244 + day; }
    else if mp == 9 { assert doy == 274 + day; }
    else if mp == 10 { assert doy == 305 + day; }
    else { assert doy == 336 + day; }
    assert (5 * doy + 2) / 153 == mp;
  }

  /** The reference count of a date whose March-based year is year `yoe`
      of era `era`. */
  lemma DaysFromCivilInEra(c: Civil, era: int, yoe: int)
    requires 1 <= c.month <= 12 && 0 <= yoe < 400
    requires (if c.month <= 2 then c.year - 1 else c.year) == era * 400 + yoe
    ensures DaysFromCivil(c.year, c.month, c.day)
      == era * 146097 + yoe * 365 + yoe / 4 - yoe / 100 + DayOfMarchYear(c.month, c.day) - 719468
  {
    EraOfDayNumber(era, yoe);
  }

  /** A day number splits uniquely into an era and a day of that era, and
      a year into an era and a year of that era. */
  lemma EraOfDayNumber(era: int, doe: int)
    requires 0 <= doe < 146097
    ensures (era * 146097 + doe) / 146097 == era && (era * 146097 + doe) % 146097 == doe
    ensures doe < 400 ==> (era * 400 + doe) / 400 == era
  {
  }

  /** The date of a day number given as an era, a year of that era and a
      day of that year. */
  lemma {:induction false} CivilFromEraDays(z: int, era: int, yoe: int, doy: int)
    requires 0 <= yoe < 400 && 0 <= doy <= 365
    requires doy == 365 ==> (yoe + 1) % 4 == 0 && ((yoe + 1) % 100 != 0 || yoe == 399)
    requires z == era * 146097 + yoe * 365 + yoe / 4 - yoe / 100 + doy - 719468
    ensures CivilFromDays(z) == DateOfEra(era, yoe, doy)
  {
    YearOfEraInverts(yoe, doy);
    EraOfDayNumber(era, yoe * 365 + yoe / 4 - yoe / 100 + doy);
  }

  /** A leap year that is year `yoe + 1` of era `era` is the year after the
      last year of a four-year block, and a century year only at the end of
      the era. */
  lemma LeapYearEnd(year: int, era: int, yoe: int)
    requires IsLeapYear(year) && year == 400 * era + (yoe + 1) && 0 <= yoe < 400
    ensures (yoe + 1) % 4 == 0 && ((yoe + 1) % 100 != 0 || yoe == 399)
  {
    LeapYearOfEra(era, yoe + 1);
  }

  /** `DaysFromCivilRoundTrip` for a date whose March-based year is year
      `yoe` of era `era`; a February 29 is asked only of a year after the
      end of a four-year block that is not a century year, or the year
      that ends the era. */
  lemma {:induction false} DaysFromCivilRoundTripInEra(c: Civil, era: int, yoe: int)
    requires 1 <= c.month <= 12 && 1 <= c.day <= MonthLimit(c.month)
    requires c.month == 2 && c.day == 29 ==> (yoe + 1) % 4 == 0 && ((yoe + 1) % 100 != 0 || yoe == 399)
    requires 0 <= yoe < 400 && (if c.month <= 2 then c.year - 1 else c.year) == era * 400 + yoe
    ensures CivilFromDays(DaysFromCivil(c.year, c.month, c.day)) == c
  {
    DateOfEraInverts(c, era, yoe);
    DaysFromCivilInEra(c, era, yoe);
    CivilFromEraDays(DaysFromCivil(c.year, c.month, c.day), era, yoe, DayOfMarchYear(c.month, c.day));
  }

  /** Every date that exists is the date of its own day number:
      `CivilFromDays` is the exact inverse of the reference count on valid
      dates, so no two valid dates share a day number. */
  lemma {:induction false} DaysFromCivilRoundTrip(c: Civil)
    requires IsValidDate(c)
    ensures CivilFromDays(DaysFromCivil(c.year, c.month, c.day)) == c
  {
    var y := if c.month <= 2 then c.year - 1 else c.year;
    if c.month == 2 && c.day == 29 {
      LeapYearEnd(c.year, y / 400, y % 400);
    }
    DaysFromCivilRoundTripInEra(c, y / 400, y % 400);
  }

  /** The date after a valid date: the next day of its month, else the
      first of the next month, else January 1 of the next year. */
  function NextDate(c: Civil): Civil
    requires IsValidDate(c)
  {
    if c.day < DaysInMonth(c.year, c.month) then Civil(c.year, c.month, c.day + 1)
    else if c.month < 12 then Civil(c.year, c.month + 1, 1)
    else Civil(c.year + 1, 1, 1)
  }

  /** A year has 366 days when it is a Gregorian leap year and 365 otherwise. */
  lemma {:induction false} DayFromYearStep(y: int)
    ensures DayFromYear(y + 1) - DayFromYear(y) == if IsLeapYear(y) then 366 else 365
  {
    QuadStep(y);
    CenturyStep(y);
    EraStep(y);
    var q := if y % 4 == 0 then 1 else 0;
    var c := if y % 100 == 0 then 1 else 0;
    var e := if y % 400 == 0 then 1 else 0;
    assert DayFromYear(y + 1) - DayFromYear(y) == 365 + q - c + e;
    DivisorChain(y);
  }

  /** A multiple of 400 is a multiple of 100, and a multiple of 100 one of 4. */
  lemma DivisorChain(y: int)
    ensures y % 400 == 0 ==> y % 100 == 0
    ensures y % 100 == 0 ==> y % 4 == 0
  {
    var k, j := y / 400, y / 100;
    assert y == 400 * k + y % 400 && y == 100 * j + y % 100;
    if y % 400 == 0 {
      assert y == 100 * (4 * k) + 0;
    }
    if y % 100 == 0 {
      assert y == 4 * (25 * j) + 0;
    }
  }

  /** `(y - 1969) / 4` rises from `y` to `y + 1` exactly when 4 divides `y`. */
  lemma QuadStep(y: int)
    ensures (y + 1 - 1969) / 4 - (y - 1969) / 4 == if y % 4 == 0 then 1 else 0
  {
  }

  lemma CenturyStep(y: int)
    ensures (y + 1 - 1901) / 100 - (y - 1901) / 100 == if y % 100 == 0 then 1 else 0
  {
  }

  lemma EraStep(y: int)
    ensures (y + 1 - 1601) / 400 - (y - 1601) / 400 == if y % 400 == 0 then 1 else 0
  {
  }

  /** The reference count of a date, measured from the January 1 that
      starts its March-based year's January (the next calendar year for
      March to December). */
  lemma {:induction false} DaysFromCivilOffset(year: int, month: int, day: int)
    requires 1 <= month <= 12
    ensures DaysFromCivil(year, month, day)
      == DayFromYear(if month <= 2 then year else year + 1) + DayOfMarchYear(month, day) - 306
  {
    var y := if month <= 2 then year else year + 1;
    DaysFromCivilIsDayFromYear(y);
    assert DayOfMarchYear(1, 1) == 306;
  }

  /** Consecutive dates have consecutive day numbers: the day after a valid
      date is valid and its count is one more. */
  lemma {:induction false} NextDateCount(c: Civil)
    requires IsValidDate(c)
    ensures IsValidDate(NextDate(c))
    ensures DaysFromCivil(NextDate(c).year, NextDate(c).month, NextDate(c).day)
      == DaysFromCivil(c.year, c.month, c.day) + 1
  {
    var n := NextDate(c);
    if c.day < DaysInMonth(c.year, c.month) {
      assert n == Civil(c.year, c.month, c.day + 1);
      NextInMonth(c.year, c.month, c.day);
    } else if c.month == 2 {
      assert n == Civil(c.year, 3, 1);
      NextAfterFebruary(c.year, c.day);
    } else if c.month < 12 {
      assert n == Civil(c.year, c.month + 1, 1);
      NextAfterMonth(c.year, c.month);
    } else {
      assert n == Civil(c.year + 1, 1, 1);
      NextAfterDecember(c.year);
    }
  }

  lemma NextInMonth(year: int, month: int, day: int)
    requires 1 <= month <= 12
    ensures DaysFromCivil(year, month, day + 1) == DaysFromCivil(year, month, day) + 1
  {
  }

  lemma NextAfterFebruary(year: int, day: int)
    requires day == DaysInMonth(year, 2)
    ensures DaysFromCivil(year, 3, 1) == DaysFromCivil(year, 2, day) + 1
  {
    DaysFromCivilOffset(year, 2, day);
    DaysFromCivilOffset(year, 3, 1);
    DayFromYearStep(year);
    assert DayOfMarchYear(2, day) == 336 + day && DayOfMarchYear(3, 1) == 0;
  }

  lemma NextAfterMonth(year: int, month: int)
    requires 1 <= month < 12 && month != 2
    ensures DaysFromCivil(year, month + 1, 1) == DaysFromCivil(year, month, MonthLimit(month)) + 1
  {
    MonthStep(month);
  }

  lemma NextAfterDecember(year: int)
    ensures DaysFromCivil(year + 1, 1, 1) == DaysFromCivil(year, 12, 31) + 1
  {
    DaysFromCivilOffset(year, 12, 31);
    DaysFromCivilOffset(year + 1, 1, 1);
    assert DayOfMarchYear(12, 31) == 305 && DayOfMarchYear(1, 1) == 306;
  }

  /** The day after a valid date is the date of the next day number. */
  lemma NextDateIsNextDay(c: Civil)
    requires IsValidDate(c)
    ensures CivilFromDays(DaysFromCivil(c.year, c.month, c.day) + 1) == NextDate(c)
  {
    NextDateCount(c);
    DaysFromCivilRoundTrip(NextDate(c));
  }

  /** The first of the next month follows the last day of a month other
      than February and December by one March-based day. */
  lemma MonthStep(month: int)
    requires 1 <= month < 12 && month != 2
    ensures DayOfMarchYear(month + 1, 1) == DayOfMarchYear(month, MonthLimit(month)) + 1
  {
  }

  /** Hours and minutes of a time of day give it back to the minute. */
  lemma {:induction false} ClockSplit(msInDay: int)
    requires 0 <= msInDay < 86400000
    ensures msInDay / 3600000 * 3600000 + (msInDay / 60000) % 60 * 60000 == msInDay - msInDay % 60000
  {
    var minutes := msInDay / 60000;
    assert minutes / 60 == msInDay / 3600000;
  }

  /** The fields of a time value determine it to the minute: rebuilding the
      time from year, month, day, hour and minute gives `t` rounded down to a
      whole minute. */
  lemma {:induction false} UtcFieldsRoundTrip(t: int)
    ensures var u := UtcFieldsOf(t);
      DaysFromCivil(u.year, u.month, u.day) * MsPerDay + u.hour * MsPerHour + u.minute * MsPerMinute
        == t - t % MsPerMinute
  {
    var days := t / 86400000;
    var msInDay := t % 86400000;
    CivilFromDaysRoundTrip(days);
    ClockSplit(msInDay);
    assert t == days * 86400000 + msInDay;
    SameMinuteOffset(t);
  }

  /** The date fields of a time value form a date that exists. */
  lemma {:induction false} UtcFieldsAreValid(t: int)
    ensures var u := UtcFieldsOf(t); IsValidDate(Civil(u.year, u.month, u.day))
  {
    CivilFromDaysIsValid(t / MsPerDay);
  }

  /** The date fields of a time value are the one existing date whose day
      number is the day of `t`: whatever valid date counts to that day, it is
      the date `UtcFieldsOf` reports. */
  lemma {:induction false} UtcDateIsUnique(t: int, c: Civil)
    requires IsValidDate(c) && DaysFromCivil(c.year, c.month, c.day) == t / MsPerDay
    ensures var u := UtcFieldsOf(t); Civil(u.year, u.month, u.day) == c
  {
    DaysFromCivilRoundTrip(c);
  }

  /** The remainder by a minute is the one left after whole minutes. */
  lemma MinuteRemainder(a: int, q: int, r: int)
    requires 0 <= r < 60000 && a == q * 60000 + r
    ensures a % 60000 == r
  {
  }

  /** A day is a whole number of minutes, so the milliseconds past the
      minute are the same counted from the epoch or from midnight. */
  lemma SameMinuteOffset(t: int)
    ensures t % 60000 == (t % 86400000) % 60000
  {
    var msInDay := t % 86400000;
    var days := t / 86400000;
    assert t == days * 86400000 + msInDay;
    MinuteRemainder(msInDay, msInDay / 60000, msInDay % 60000);
    MinuteRemainder(t, days * 1440 + msInDay / 60000, msInDay % 60000);
  }
}

/**
 * The image viewer's conversion of a file's modification time to a `time_t`:
 * the time is turned into a calendar date (in local time, which is an input
 * here), dates before 1970 give 0, a 4-byte `time_t` is clamped for years
 * after 2038, and otherwise the result is the number of seconds from
 * 1970-01-01 to the start of that date.
 */
module EogTime {

  /** A calendar date as the toolkit's date type holds it (16-bit year). */
  datatype Date = Date(year: int, month: int, day: int)

  predicate IsLeapYear(y: int) {
    (y % 4 == 0 && y % 100 != 0) || y % 400 == 0
  }

  function DaysInMonth(y: int, m: int): int
    requires 1 <= m <= 12
  {
    if m == 2 then (if IsLeapYear(y) then 29 else 28)
    else if m == 4 || m == 6 || m == 9 || m == 11 then 30
    else 31
  }

  function YearLength(y: int): int {
    if IsLeapYear(y) then 366 else 365
  }

  predicate ValidDate(d: Date) {
    1 <= d.year <= 65535 && 1 <= d.month <= 12 && 1 <= d.day <= DaysInMonth(d.year, d.month)
  }

  /** Days of year `y` before the first of month `m`. */
  function DaysBeforeMonth(y: int, m: int): (r: int)
    requires 1 <= m <= 12
    ensures 0 <= r && r + DaysInMonth(y, m) <= YearLength(y)
    ensures m == 12 ==> r + DaysInMonth(y, m) == YearLength(y)
  {
    var leap := if IsLeapYear(y) then 1 else 0;
    match m
    case 1 => 0
    case 2 => 31
    case 3 => 59 + leap
    case 4 => 90 + leap
    case 5 => 120 + leap
    case 6 => 151 + leap
    case 7 => 181 + leap
    case 8 => 212 + leap
    case 9 => 243 + leap
    case 10 => 273 + leap
    case 11 => 304 + leap
    case _ => 334 + leap
  }

  /** Consecutive months follow each other without gap or overlap. */
  lemma NextMonth(y: int, m: int)
    requires 1 <= m < 12
    ensures DaysBeforeMonth(y, m + 1) == DaysBeforeMonth(y, m) + DaysInMonth(y, m)
  {
  }

  /** The day number of a date counted from 0001-01-01 (day 1), as the date type computes it. */
  function JulianDay(d: Date): int
    requires 1 <= d.month <= 12
  {
    var y := d.year - 1;
    365 * y + y / 4 - y / 100 + y / 400 + DaysBeforeMonth(d.year, d.month) + d.day
  }

  const Epoch: Date := Date(1970, 1, 1)

  /** `g_date_days_between (epoch, date)`. */
  function DaysSinceEpoch(d: Date): int
    requires 1 <= d.month <= 12
  {
    JulianDay(d) - JulianDay(Epoch)
  }

  /** The reference count: the lengths of the whole years from 1970 up to `y`. */
  function DaysBeforeYear(y: int): int
    requires y >= 1970
    decreases y
  {
    if y == 1970 then 0 else DaysBeforeYear(y - 1) + YearLength(y - 1)
  }

  const Int32Max := 0x7fff_ffff

  /** Two's-complement truncation of an integer to 32 bits. */
  function WrapInt32(x: int): (r: int)
    ensures -0x8000_0000 <= r <= Int32Max
    ensures (r - x) % 0x1_0000_0000 == 0
    ensures -0x8000_0000 <= x <= Int32Max ==> r == x
  {
    var m := x % 0x1_0000_0000;
    if m > Int32Max then m - 0x1_0000_0000 else m
  }

  /**
   * The conversion as written: the seconds are computed as a product of
   * `int`s, so the day count times 86400 is truncated to 32 bits before it
   * is widened to `time_t`.
   */
  function TimeValToTimeTAsWritten(d: Date, timeT32: bool): (r: int)
    requires ValidDate(d)
    ensures d.year < 1970 ==> r == 0
    ensures d.year >= 1970 && timeT32 && d.year > 2038 ==> r == Int32Max
    ensures d.year >= 1970 && !(timeT32 && d.year > 2038) ==> r == WrapInt32(86400 * DaysSinceEpoch(d))
  {
    if d.year < 1970 then 0
    else if timeT32 && d.year > 2038 then Int32Max
    else WrapInt32(24 * 3600 * DaysSinceEpoch(d))
  }

  /**
   * The conversion as intended: the seconds from the epoch to the start of
   * the date, clamped to the largest 4-byte `time_t` whenever they do not fit.
   */
  function TimeValToTimeT(d: Date, timeT32: bool): (r: int)
    requires ValidDate(d)
    ensures r >= 0
    ensures r % 86400 == 0 || r == Int32Max
    ensures timeT32 ==> r <= Int32Max
    ensures d.year < 1970 ==> r == 0
    ensures d.year >= 1970 && timeT32 && d.year > 2038 ==> r == Int32Max
  {
    if d.year < 1970 then 0
    else
      DaysSinceEpochNonNegative(d);
      var seconds := 24 * 3600 * DaysSinceEpoch(d);
      if timeT32 && (d.year > 2038 || seconds > Int32Max) then Int32Max
      else seconds
  }

  // ---------------------------------------------------------------- lemmas

  /** The closed form counts whole years exactly as adding up their lengths does. */
  lemma {:induction false} JulianDayCountsYears(y: int)
    requires y >= 1970
    ensures DaysSinceEpoch(Date(y, 1, 1)) == DaysBeforeYear(y)
  {
    if y > 1970 {
      JulianDayCountsYears(y - 1);
      NewYear(y - 1);
    }
  }

  /** From one first of January to the next is one year length. */
  lemma NewYear(y: int)
    ensures JulianDay(Date(y + 1, 1, 1)) == JulianDay(Date(y, 1, 1)) + YearLength(y)
  {
    FirstOfJanuary(y + 1, y);
    FirstOfJanuary(y, y - 1);
    LeapDays(y);
  }

  /** The leap days counted up to `y` exceed those up to `y - 1` exactly when `y` is a leap year. */
  lemma LeapDays(y: int)
    ensures (y / 4 - y / 100 + y / 400) - ((y - 1) / 4 - (y - 1) / 100 + (y - 1) / 400) == YearLength(y) - 365
  {
    StepOver4(y);
    StepOver100(y);
    StepOver400(y);
  }

  /** The day number of the first of January of `y`, whose preceding year is `a`. */
  lemma FirstOfJanuary(y: int, a: int)
    requires a == y - 1
    ensures JulianDay(Date(y, 1, 1)) == 365 * a + a / 4 - a / 100 + a / 400 + 1
  {
  }

  // Going from `y - 1` to `y` passes one more multiple of 4, 100 or 400 exactly when it divides `y`.
  lemma StepOver4(y: int)
    ensures y / 4 - (y - 1) / 4 == (if y % 4 == 0 then 1 else 0)
  {
  }

  lemma StepOver100(y: int)
    ensures y / 100 - (y - 1) / 100 == (if y % 100 == 0 then 1 else 0)
  {
  }

  lemma StepOver400(y: int)
    ensures y / 400 - (y - 1) / 400 == (if y % 400 == 0 then 1 else 0)
  {
  }

  /** Every date of 1970 or later is on or after the epoch. */
  lemma DaysSinceEpochNonNegative(d: Date)
    requires ValidDate(d) && d.year >= 1970
    ensures DaysSinceEpoch(d) >= 0
  {
    YearStartsAscend(1970, d.year);
  }

  lemma {:induction false} YearStartsAscend(y0: int, y1: int)
    requires y0 <= y1
    ensures JulianDay(Date(y0, 1, 1)) <= JulianDay(Date(y1, 1, 1))
    decreases y1 - y0
  {
    if y0 < y1 {
      YearStartsAscend(y0, y1 - 1);
      NewYear(y1 - 1);
    }
  }

  /** Calendar order of dates. */
  predicate Before(d1: Date, d2: Date) {
    d1.year < d2.year
    || (d1.year == d2.year && d1.month < d2.month)
    || (d1.year == d2.year && d1.month == d2.month && d1.day < d2.day)
  }

  /** The day count is strictly increasing in calendar order. */
  lemma DayCountAscends(d1: Date, d2: Date)
    requires ValidDate(d1) && ValidDate(d2) && Before(d1, d2)
    ensures JulianDay(d1) < JulianDay(d2)
  {
    if d1.year < d2.year {
      // d1 is before the next first of January, which is no later than d2
      var next := Date(d1.year + 1, 1, 1);
      LastDayOfYear(d1);
      NewYear(d1.year);
      assert JulianDay(d1) < JulianDay(next);
      YearStartsAscend(d1.year + 1, d2.year);
      DayOfYear(d2);
    } else if d1.month < d2.month {
      MonthsAscend(d1.year, d1.month, d2.month);
      DayOfYear(d1);
      DayOfYear(d2);
    } else {
      DayOfYear(d1);
      DayOfYear(d2);
    }
  }

  /** A date's day number is its first of January's plus its position in the year. */
  lemma DayOfYear(d: Date)
    requires 1 <= d.month <= 12
    ensures JulianDay(d) == JulianDay(Date(d.year, 1, 1)) + DaysBeforeMonth(d.year, d.month) + d.day - 1
  {
  }

  /** Every date is before the first of January of the following year. */
  lemma LastDayOfYear(d: Date)
    requires ValidDate(d)
    ensures JulianDay(d) < JulianDay(Date(d.year, 1, 1)) + YearLength(d.year)
  {
    DayOfYear(d);
  }

  lemma {:induction false} MonthsAscend(y: int, m1: int, m2: int)
    requires 1 <= m1 <= m2 <= 12
    ensures DaysBeforeMonth(y, m2) - DaysBeforeMonth(y, m1) >= (if m1 < m2 then DaysInMonth(y, m1) else 0)
    decreases m2 - m1
  {
    if m1 < m2 {
      MonthsAscend(y, m1 + 1, m2);
      NextMonth(y, m1);
    }
  }

  /** The intended conversion never goes backwards in time. */
  lemma TimeValToTimeTMonotonic(d1: Date, d2: Date, timeT32: bool)
    requires ValidDate(d1) && ValidDate(d2) && Before(d1, d2)
    ensures TimeValToTimeT(d1, timeT32) <= TimeValToTimeT(d2, timeT32)
  {
    if d1.year >= 1970 {
      // d2 is no earlier, so neither conversion takes the pre-epoch branch
      DayCountAscends(d1, d2);
      DaysSinceEpochNonNegative(d1);
      assert 86400 * DaysSinceEpoch(d1) < 86400 * DaysSinceEpoch(d2);
    }
  }

  /** When the seconds fit, the intended conversion is exactly 86400 seconds per day since the epoch. */
  lemma TimeValToTimeTIsMidnight(d: Date, timeT32: bool)
    requires ValidDate(d) && d.year >= 1970
    requires !timeT32 || (d.year <= 2038 && 86400 * DaysSinceEpoch(d) <= Int32Max)
    ensures TimeValToTimeT(d, timeT32) == 86400 * DaysSinceEpoch(d)
    ensures TimeValToTimeT(d, timeT32) == 86400 * (DaysBeforeYear(d.year) + DaysBeforeMonth(d.year, d.month) + d.day - 1)
  {
    JulianDayCountsYears(d.year);
  }

  /** Up to 2038-01-19 the code as written agrees with the intended conversion. */
  lemma AsWrittenAgreesBeforeOverflow(d: Date, timeT32: bool)
    requires ValidDate(d) && (d.year < 1970 || 86400 * DaysSinceEpoch(d) <= Int32Max)
    ensures TimeValToTimeTAsWritten(d, timeT32) == TimeValToTimeT(d, timeT32)
  {
    if d.year >= 1970 {
      DaysSinceEpochNonNegative(d);
    }
  }

  /**
   * The day after the last representable one: for 2038-01-20 the code as
   * written returns a time before 1970 with a `time_t` of either width, one
   * day after returning a time close to the largest 32-bit value.
   */
  lemma AsWrittenOverflowsAfter2038()
    ensures DaysSinceEpoch(Date(2038, 1, 20)) == 24856
    ensures TimeValToTimeTAsWritten(Date(2038, 1, 19), false) == 2147472000
    ensures TimeValToTimeTAsWritten(Date(2038, 1, 20), false) == -2147408896
    ensures TimeValToTimeT(Date(2038, 1, 20), false) == 2147558400
    ensures TimeValToTimeTAsWritten(Date(2038, 1, 20), true) == -2147408896
    ensures TimeValToTimeT(Date(2038, 1, 20), true) == Int32Max
  {
    assert JulianDay(Epoch) == 719163;
    assert JulianDay(Date(2038, 1, 19)) == 744018;
    assert JulianDay(Date(2038, 1, 20)) == 744019;
  }
}

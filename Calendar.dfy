/**
 * The part of JavaScript's `Date` the core relies on, in the host's local time.
 *
 * A `Date` is either invalid (its time value is `NaN`) or a calendar time:
 * a year of the proleptic Gregorian calendar, a month 1-12 (`getMonth() + 1`),
 * a day of the month, hours, minutes, seconds and milliseconds. Its time value
 * (`getTime()`) is the number of milliseconds since 1970-01-01 00:00:00.000
 * of the same calendar, and ECMAScript keeps it within 8.64e15 ms of that
 * instant. The local time zone is taken to be fixed (no daylight-saving jumps).
 */
module Calendar {
  import opened Wrappers

  const MsPerSecond: int := 1000
  const MsPerMinute: int := 60_000
  const MsPerHour: int := 3_600_000
  const MsPerDay: int := 86_400_000
  const SecondsPerDay: int := 86400
  /** The largest distance from the epoch a valid time value may have (ECMAScript TimeClip). */
  const MaxTimeValue: int := 8_640_000_000_000_000

  predicate IsLeapYear(y: int) {
    y % 4 == 0 && (y % 100 != 0 || y % 400 == 0)
  }

  function DaysInMonth(y: int, m: int): (n: int)
    requires 1 <= m <= 12
    ensures 28 <= n <= 31
    ensures n == 29 <==> m == 2 && IsLeapYear(y)
  {
    if m == 2 then (if IsLeapYear(y) then 29 else 28)
    else if m == 4 || m == 6 || m == 9 || m == 11 then 30
    else 31
  }

  /** Leap years among the years 1..y (a count that keeps going for y <= 0). */
  function LeapYearsThrough(y: int): int {
    y / 4 - y / 100 + y / 400
  }

  /** Days from 1970-01-01 to January 1st of year `y`. */
  function DaysBeforeYear(y: int): int {
    365 * (y - 1970) + LeapYearsThrough(y - 1) - LeapYearsThrough(1969)
  }

  /**
   * Days from January 1st to the first day of month `m` of year `y`:
   * `(367 * m - 362) / 12` counts them as if February had 30 days, so after
   * February two days come off, or one in a leap year.
   */
  function DaysBeforeMonth(y: int, m: int): int
    requires 1 <= m <= 12
  {
    (367 * m - 362) / 12 + (if m <= 2 then 0 else if IsLeapYear(y) then -1 else -2)
  }

  /** The day number of a calendar date: 0 for 1970-01-01, negative before it. */
  function DayNumber(y: int, m: int, d: int): int
    requires 1 <= m <= 12
  {
    DaysBeforeYear(y) + DaysBeforeMonth(y, m) + d - 1
  }

  function NextMonth(y: int, m: int): (r: (int, int))
    requires 1 <= m <= 12
    ensures 1 <= r.1 <= 12
  {
    if m == 12 then (y + 1, 1) else (y, m + 1)
  }

  function PreviousMonth(y: int, m: int): (r: (int, int))
    requires 1 <= m <= 12
    ensures 1 <= r.1 <= 12 && NextMonth(r.0, r.1) == (y, m)
  {
    if m == 1 then (y - 1, 12) else (y, m - 1)
  }

  lemma LeapYearsStep(y: int)
    ensures LeapYearsThrough(y) - LeapYearsThrough(y - 1) == if IsLeapYear(y) then 1 else 0
  {
    QuotientStep(y, 4);
    QuotientStep(y, 100);
    QuotientStep(y, 400);
    assert y % 400 == 0 ==> y % 100 == 0 && y % 4 == 0;
    assert y % 100 == 0 ==> y % 4 == 0;
  }

  /** Going from `y - 1` to `y` raises the quotient by `n` exactly when `y` is a multiple of `n`. */
  lemma QuotientStep(y: int, n: int)
    requires n > 0
    ensures y / n - (y - 1) / n == if y % n == 0 then 1 else 0
  {
    var q, r := (y - 1) / n, (y - 1) % n;
    assert y - 1 == q * n + r && 0 <= r < n;
    if r == n - 1 {
      assert y == (q + 1) * n + 0;
      DivModUnique(y, n, q + 1, 0);
    } else {
      assert y == q * n + (r + 1);
      DivModUnique(y, n, q, r + 1);
    }
  }

  lemma DivModUnique(y: int, n: int, q: int, r: int)
    requires n > 0 && 0 <= r < n && y == q * n + r
    ensures y / n == q && y % n == r
  {
    var q', r' := y / n, y % n;
    assert y == q' * n + r' && 0 <= r' < n;
    assert (q - q') * n == r' - r;
    if q != q' {
      var d := if q > q' then q - q' else q' - q;
      assert d * n == (q - q') * n || d * n == -((q - q') * n);
      AtLeastOnce(d, n);
    }
  }

  lemma AtLeastOnce(d: int, n: int)
    requires d >= 1 && n > 0
    ensures d * n >= n
  {
    assert d * n == (d - 1) * n + n;
  }

  /** The first day of the next month comes `DaysInMonth` days after the first of this one. */
  lemma MonthStep(y: int, m: int)
    requires 1 <= m <= 12
    ensures var (ny, nm) := NextMonth(y, m);
      DayNumber(ny, nm, 1) == DayNumber(y, m, 1) + DaysInMonth(y, m)
  {
    if m == 12 {
      LeapYearsStep(y);
    } else {
      MonthGap(y, m);
    }
  }

  /** Within a year, each month starts `DaysInMonth` days after the one before. */
  lemma MonthGap(y: int, m: int)
    requires 1 <= m < 12
    ensures DaysBeforeMonth(y, m + 1) == DaysBeforeMonth(y, m) + DaysInMonth(y, m)
  {
    match m
    case 1 => case 2 => case 3 => case 4 => case 5 => case 6 =>
    case 7 => case 8 => case 9 => case 10 => case 11 =>
  }

  /**
   * ECMAScript's MakeDay for a day that may fall outside month `m`: the calendar
   * date `d - 1` days after the first of month `m` of year `y`.
   */
  function NormalizeDay(y: int, m: int, d: int): (r: (int, int, int))
    requires 1 <= m <= 12
    ensures 1 <= r.1 <= 12 && 1 <= r.2 <= DaysInMonth(r.0, r.1)
    ensures DayNumber(r.0, r.1, r.2) == DayNumber(y, m, 1) + d - 1
    decreases if d < 1 then 1 - d else 0, d
  {
    if d < 1 then
      var (py, pm) := PreviousMonth(y, m);
      MonthStep(py, pm);
      NormalizeDay(py, pm, d + DaysInMonth(py, pm))
    else if d > DaysInMonth(y, m) then
      var (ny, nm) := NextMonth(y, m);
      MonthStep(y, m);
      NormalizeDay(ny, nm, d - DaysInMonth(y, m))
    else
      (y, m, d)
  }

  datatype DateTime = DateTime(year: int, month: int, day: int,
                               hour: int, minute: int, second: int, millisecond: int)
  {
    predicate FieldsInRange() {
      && 1 <= month <= 12 && 1 <= day <= DaysInMonth(year, month)
      && 0 <= hour < 24 && 0 <= minute < 60 && 0 <= second < 60 && 0 <= millisecond < 1000
    }

    function Epoch(): int
      requires FieldsInRange()
    {
      DayNumber(year, month, day) * MsPerDay
      + hour * MsPerHour + minute * MsPerMinute + second * MsPerSecond + millisecond
    }

    predicate WellFormed() {
      FieldsInRange() && -MaxTimeValue <= Epoch() <= MaxTimeValue
    }
  }

  /** The calendar reading of a valid `Date`. */
  type CivilTime = t: DateTime | t.WellFormed() witness DateTime(1970, 1, 1, 0, 0, 0, 0)

  /** A JavaScript `Date`: `None` is the invalid date whose `getTime()` is `NaN`. */
  type JsDate = Option<CivilTime>

  /** `getTime()` of a valid date. */
  function TimeValue(t: CivilTime): (ms: int)
    ensures -MaxTimeValue <= ms <= MaxTimeValue
    ensures DayNumber(t.year, t.month, t.day) * MsPerDay <= ms < (DayNumber(t.year, t.month, t.day) + 1) * MsPerDay
  {
    t.Epoch()
  }

  /**
   * `new Date(year, monthIndex, day, hours, minutes, seconds)` in local time:
   * a two-digit year means 19xx, a month index outside 0..11 moves into another
   * year, a day or a time outside its range moves into another day or month,
   * and a result farther than `MaxTimeValue` from the epoch is the invalid date.
   */
  function MakeLocalDate(year: int, monthIndex: int, day: int,
                         hours: int, minutes: int, seconds: int): (r: JsDate)
    ensures var y, m := FullYear(year) + monthIndex / 12, monthIndex % 12 + 1;
      var ms := LocalTime(y, m, day, hours * 3600 + minutes * 60 + seconds);
      && (r.Some? <==> -MaxTimeValue <= ms <= MaxTimeValue)
      && (r.Some? ==> TimeValue(r.value) == ms)
  {
    DateAtTimeValue(FullYear(year) + monthIndex / 12, monthIndex % 12 + 1, day, hours * 3600 + minutes * 60 + seconds);
    DateAt(FullYear(year) + monthIndex / 12, monthIndex % 12 + 1, day, hours * 3600 + minutes * 60 + seconds)
  }

  /** The `Date` constructor reads the years 0-99 as 1900-1999. */
  function FullYear(year: int): int {
    if 0 <= year <= 99 then 1900 + year else year
  }

  /** The date `secs` seconds into day `day` of month `m` of year `y`, or the invalid date out of range. */
  function DateAt(y: int, m: int, day: int, secs: int): JsDate
    requires 1 <= m <= 12
  {
    if -MaxTimeValue <= LocalTime(y, m, day, secs) <= MaxTimeValue then
      LocalDateTimeEpoch(y, m, day, secs);
      Some(LocalDateTime(y, m, day, secs))
    else None
  }

  lemma DateAtTimeValue(y: int, m: int, day: int, secs: int)
    requires 1 <= m <= 12
    ensures var r := DateAt(y, m, day, secs);
      && (r.Some? <==> -MaxTimeValue <= LocalTime(y, m, day, secs) <= MaxTimeValue)
      && (r.Some? ==> TimeValue(r.value) == LocalTime(y, m, day, secs))
  {
    if DateAt(y, m, day, secs).Some? {
      LocalDateTimeEpoch(y, m, day, secs);
    }
  }

  /**
   * ECMAScript's MakeDate(MakeDay(y, m - 1, day), MakeTime(0, 0, secs, 0)):
   * the time value `secs` seconds into day `day` of month `m` of year `y`,
   * both counted on from the first of the month and midnight.
   */
  function LocalTime(y: int, m: int, day: int, secs: int): int
    requires 1 <= m <= 12
  {
    (DayNumber(y, m, 1) + day - 1) * MsPerDay + secs * MsPerSecond
  }

  /**
   * The calendar reading of the instant `secs` seconds into day `day` of month
   * `m` of year `y`, both possibly outside their ranges.
   */
  function LocalDateTime(y: int, m: int, day: int, secs: int): (t: DateTime)
    requires 1 <= m <= 12
    ensures t.FieldsInRange()
  {
    var rem := secs % SecondsPerDay;
    var (ny, nm, nd) := NormalizeDay(y, m, day + secs / SecondsPerDay);
    SecondsSplit(secs);
    DateTime(ny, nm, nd, rem / 3600, rem % 3600 / 60, rem % 60, 0)
  }

  /** The calendar reading of `LocalDateTime` has the time value `LocalTime`. */
  lemma LocalDateTimeEpoch(y: int, m: int, day: int, secs: int)
    requires 1 <= m <= 12
    ensures LocalDateTime(y, m, day, secs).Epoch() == LocalTime(y, m, day, secs)
  {
    SecondsSplit(secs);
    DayShift(DayNumber(y, m, 1) + day - 1, secs / SecondsPerDay, secs % SecondsPerDay, secs);
  }

  /** Moving a day number by whole days moves its time value by as many days' milliseconds. */
  lemma DayShift(dayNumber: int, days: int, rem: int, secs: int)
    requires days * SecondsPerDay + rem == secs
    ensures (dayNumber + days) * MsPerDay + rem * MsPerSecond == dayNumber * MsPerDay + secs * MsPerSecond
  {
    assert (dayNumber + days) * 86_400_000 == dayNumber * 86_400_000 + days * 86_400_000;
  }

  /** Whole days and the seconds left over, in milliseconds, add back up to the seconds. */
  lemma SecondsSplit(secs: int)
    ensures var rem := secs % SecondsPerDay;
      && 0 <= rem / 3600 < 24 && 0 <= rem % 3600 / 60 < 60 && 0 <= rem % 60 < 60
      && (rem / 3600) * MsPerHour + (rem % 3600 / 60) * MsPerMinute + (rem % 60) * MsPerSecond == rem * MsPerSecond
      && (secs / SecondsPerDay) * MsPerDay + rem * MsPerSecond == secs * MsPerSecond
  {
    var rem := secs % SecondsPerDay;
    assert rem == (rem / 3600) * 3600 + (rem % 3600 / 60) * 60 + rem % 60;
    assert secs == (secs / SecondsPerDay) * SecondsPerDay + rem;
  }
}

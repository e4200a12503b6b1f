/**
 * `buildDateFilter` of `src/services/procedureDetailService.server.ts`: the
 * `startDate`/`date` range a year, a month or a day of the drill-down selects.
 * Each query parameter is an optional string; JavaScript's truthiness makes
 * an empty string count as absent.
 */
module DateFilter {
  import opened Wrappers
  import opened Strings
  import opened Calendar
  import opened DateUtils

  /** The empty filter `{}`, or `{ $gte, $lte }`. */
  datatype DateFilter = NoFilter | Range(gte: JsDate, lte: JsDate)

  /** A query parameter is truthy when it is present and not the empty string. */
  predicate Truthy(s: Option<string>) {
    s.Some? && s.value != ""
  }

  /** `x - k`, where `NaN - k` is `NaN`. */
  function Minus(x: Option<int>, k: int): (r: Option<int>)
    ensures r.Some? <==> x.Some?
    ensures r.Some? ==> r.value + k == x.value
  {
    match x
    case None => None
    case Some(v) => Some(v - k)
  }

  /** `new Date(year, monthIndex, day, hours, minutes, seconds)`, where a `NaN` argument gives the invalid date. */
  function NewDate(year: Option<int>, monthIndex: Option<int>, day: Option<int>,
                   hours: int, minutes: int, seconds: int): (r: JsDate)
    ensures year.None? || monthIndex.None? || day.None? ==> r.None?
    ensures year.Some? && monthIndex.Some? && day.Some? ==>
      r == MakeLocalDate(year.value, monthIndex.value, day.value, hours, minutes, seconds)
  {
    if year.Some? && monthIndex.Some? && day.Some? then
      MakeLocalDate(year.value, monthIndex.value, day.value, hours, minutes, seconds)
    else None
  }

  /** The filter for one day: from its 00:00:00 to its 23:59:59. */
  function DayFilter(yearNum: Option<int>, monthNum: Option<int>, dayNum: Option<int>): DateFilter {
    Range(NewDate(yearNum, Minus(monthNum, 1), dayNum, 0, 0, 0),
          NewDate(yearNum, Minus(monthNum, 1), dayNum, 23, 59, 59))
  }

  /** The filter for one month: from 00:00:00 of day 1 to 23:59:59 of day 0 of the next month. */
  function MonthFilter(yearNum: Option<int>, monthNum: Option<int>): DateFilter {
    Range(NewDate(yearNum, Minus(monthNum, 1), Some(1), 0, 0, 0),
          NewDate(yearNum, monthNum, Some(0), 23, 59, 59))
  }

  /** The filter for one year: from January 1st, 00:00:00 to December 31st, 23:59:59. */
  function YearFilter(yearNum: Option<int>): DateFilter {
    Range(NewDate(yearNum, Some(0), Some(1), 0, 0, 0),
          NewDate(yearNum, Some(11), Some(31), 23, 59, 59))
  }

  /**
   * `buildDateFilter`: no filter without a year; a day range when both a
   * month and a day are given; a month range when a month is given without a
   * day; and otherwise, a day without a month included, the year range.
   */
  function BuildDateFilter(year: Option<string>, month: Option<string>, day: Option<string>): (f: DateFilter)
    ensures f.NoFilter? <==> !Truthy(year)
    ensures Truthy(year) && Truthy(month) && Truthy(day) ==>
      f == DayFilter(ParseInt(year.value), ParseInt(month.value), ParseInt(day.value))
    ensures Truthy(year) && Truthy(month) && !Truthy(day) ==>
      f == MonthFilter(ParseInt(year.value), ParseInt(month.value))
    ensures Truthy(year) && !Truthy(month) ==> f == YearFilter(ParseInt(year.value))
    ensures Truthy(year) && ParseInt(year.value).None? ==> f == Range(None, None)
  {
    if !Truthy(year) then NoFilter
    else
      var yearNum := ParseInt(year.value);
      if Truthy(day) && Truthy(month) then
        DayFilter(yearNum, ParseInt(month.value), ParseInt(day.value))
      else if Truthy(month) then
        MonthFilter(yearNum, ParseInt(month.value))
      else
        YearFilter(yearNum)
  }

  /** The date `d` reads as the calendar time `t`. */
  predicate Reads(d: JsDate, t: DateTime) {
    d.Some? && d.value == t
  }

  // ------------------------------------------------------------------ lemmas

  /**
   * For the years 100-9999, a time of day on a day (possibly outside month
   * `m`) is a valid date, read on the day `NormalizeDay` gives.
   */
  lemma DateAtReading(y: int, m: int, day: int, hours: int, minutes: int, seconds: int, ny: int, nm: int, nd: int)
    requires 1 <= m <= 12 && 0 <= hours < 24 && 0 <= minutes < 60 && 0 <= seconds < 60
    requires NormalizeDay(y, m, day) == (ny, nm, nd) && 100 <= ny <= 9999
    ensures Reads(DateAt(y, m, day, hours * 3600 + minutes * 60 + seconds), DateTime(ny, nm, nd, hours, minutes, seconds, 0))
  {
    LocalDateTimeWithinDay(y, m, day, hours, minutes, seconds, ny, nm, nd);
    EpochInRange(DateTime(ny, nm, nd, hours, minutes, seconds, 0));
  }

  lemma LocalDateTimeWithinDay(y: int, m: int, day: int, hours: int, minutes: int, seconds: int, ny: int, nm: int, nd: int)
    requires 1 <= m <= 12 && 0 <= hours < 24 && 0 <= minutes < 60 && 0 <= seconds < 60
    requires NormalizeDay(y, m, day) == (ny, nm, nd)
    ensures LocalDateTime(y, m, day, hours * 3600 + minutes * 60 + seconds) == DateTime(ny, nm, nd, hours, minutes, seconds, 0)
  {
    var secs := hours * 3600 + minutes * 60 + seconds;
    SecondsOfDay(hours, minutes, seconds);
    assert secs / SecondsPerDay == 0 && secs % SecondsPerDay == secs;
    assert day + secs / SecondsPerDay == day;
  }

  lemma SecondsOfDay(hours: int, minutes: int, seconds: int)
    requires 0 <= hours < 24 && 0 <= minutes < 60 && 0 <= seconds < 60
    ensures var secs := hours * 3600 + minutes * 60 + seconds;
      && 0 <= secs < SecondsPerDay
      && secs / 3600 == hours && secs % 3600 / 60 == minutes && secs % 60 == seconds
  {
    var secs := hours * 3600 + minutes * 60 + seconds;
    var r := minutes * 60 + seconds;
    assert 0 <= r < 3600;
    assert secs == hours * 3600 + r;
    assert secs / 3600 == hours && secs % 3600 == r;
    assert r / 60 == minutes && r % 60 == seconds;
    assert secs == (hours * 60 + minutes) * 60 + seconds;
  }

  /** `new Date(...)` with a year of 100 or more: the date at the given month, day and second. */
  lemma MakeLocalDateAt(year: int, monthIndex: int, day: int, hours: int, minutes: int, seconds: int, y: int, m: int)
    requires year >= 100 && y == year + monthIndex / 12 && m == monthIndex % 12 + 1
    ensures MakeLocalDate(year, monthIndex, day, hours, minutes, seconds) == DateAt(y, m, day, hours * 3600 + minutes * 60 + seconds)
  {
    assert FullYear(year) == year;
  }

  /**
   * `new Date(year, monthIndex, day, hours, minutes, seconds)` with a year of
   * 100 or more and a time of day within range reads as that time on the day
   * `NormalizeDay` gives, when that day is in the years 100-9999.
   */
  lemma MakeLocalDateReads(year: int, monthIndex: int, day: int, hours: int, minutes: int, seconds: int,
                           y: int, m: int, ny: int, nm: int, nd: int)
    requires year >= 100 && y == year + monthIndex / 12 && m == monthIndex % 12 + 1
    requires 0 <= hours < 24 && 0 <= minutes < 60 && 0 <= seconds < 60
    requires NormalizeDay(y, m, day) == (ny, nm, nd) && 100 <= ny <= 9999
    ensures Reads(MakeLocalDate(year, monthIndex, day, hours, minutes, seconds), DateTime(ny, nm, nd, hours, minutes, seconds, 0))
  {
    MakeLocalDateAt(year, monthIndex, day, hours, minutes, seconds, y, m);
    DateAtReading(y, m, day, hours, minutes, seconds, ny, nm, nd);
  }

  /** `new Date(y, m - 1, d, ...)` for a day `d` of month `m` reads as that very day. */
  lemma MakeLocalDateInMonth(y: int, m: int, d: int, hours: int, minutes: int, seconds: int)
    requires 100 <= y <= 9999 && 1 <= m <= 12 && 1 <= d <= DaysInMonth(y, m)
    requires 0 <= hours < 24 && 0 <= minutes < 60 && 0 <= seconds < 60
    ensures Reads(MakeLocalDate(y, m - 1, d, hours, minutes, seconds), DateTime(y, m, d, hours, minutes, seconds, 0))
  {
    assert NormalizeDay(y, m, d) == (y, m, d);
    MakeLocalDateReads(y, m - 1, d, hours, minutes, seconds, y, m, y, m, d);
  }

  /** A calendar time in the years 100-9999 is far inside the range of valid time values. */
  lemma EpochInRange(t: DateTime)
    requires t.FieldsInRange() && 100 <= t.year <= 9999
    ensures -MaxTimeValue <= t.Epoch() <= MaxTimeValue
  {
    DayWithinYear(t.year, t.month, t.day);
    DaysBeforeYearGrows(100, t.year);
    DaysBeforeYearGrows(t.year + 1, 10000);
    assert DaysBeforeYear(100) == -683003;
    assert DaysBeforeYear(10000) == 2932897;
  }

  /** Day 0 of the month after `m` is the last day of `m`. */
  lemma DayZeroOfNextMonth(y: int, m: int)
    requires 1 <= m <= 12
    ensures var (ny, nm) := NextMonth(y, m);
      NormalizeDay(ny, nm, 0) == (y, m, DaysInMonth(y, m))
  {
    var (ny, nm) := NextMonth(y, m);
    assert PreviousMonth(ny, nm) == (y, m);
    assert NormalizeDay(y, m, DaysInMonth(y, m)) == (y, m, DaysInMonth(y, m));
  }

  /** With all three numbers present, a day filter is `new Date(y, m - 1, d)` to `new Date(y, m - 1, d, 23, 59, 59)`. */
  lemma DayFilterBounds(y: int, m: int, d: int)
    ensures DayFilter(Some(y), Some(m), Some(d)) ==
      Range(MakeLocalDate(y, m - 1, d, 0, 0, 0), MakeLocalDate(y, m - 1, d, 23, 59, 59))
  {
    assert Minus(Some(m), 1) == Some(m - 1);
  }

  /**
   * A day filter (a day number within its month) runs from 00:00:00 to
   * 23:59:59 of that day.
   */
  lemma DayRange(y: int, m: int, d: int)
    requires 100 <= y <= 9999 && 1 <= m <= 12 && 1 <= d <= DaysInMonth(y, m)
    ensures var f := DayFilter(Some(y), Some(m), Some(d));
      && Reads(f.gte, DateTime(y, m, d, 0, 0, 0, 0))
      && Reads(f.lte, DateTime(y, m, d, 23, 59, 59, 0))
  {
    DayFilterBounds(y, m, d);
    MakeLocalDateInMonth(y, m, d, 0, 0, 0);
    MakeLocalDateInMonth(y, m, d, 23, 59, 59);
  }

  /**
   * A month filter runs from 00:00:00 of the first day of the month to
   * 23:59:59 of its last day.
   */
  lemma MonthRange(y: int, m: int)
    requires 100 <= y <= 9999 && 1 <= m <= 12
    ensures var f := MonthFilter(Some(y), Some(m));
      && Reads(f.gte, DateTime(y, m, 1, 0, 0, 0, 0))
      && Reads(f.lte, DateTime(y, m, DaysInMonth(y, m), 23, 59, 59, 0))
  {
    assert Minus(Some(m), 1) == Some(m - 1);
    assert NormalizeDay(y, m, 1) == (y, m, 1);
    MakeLocalDateReads(y, m - 1, 1, 0, 0, 0, y, m, y, m, 1);
    var (ny, nm) := NextMonth(y, m);
    DayZeroOfNextMonth(y, m);
    MakeLocalDateReads(y, m, 0, 23, 59, 59, ny, nm, y, m, DaysInMonth(y, m));
  }

  /** A year filter runs from January 1st, 00:00:00 to December 31st, 23:59:59. */
  lemma YearRange(y: int)
    requires 100 <= y <= 9999
    ensures var f := YearFilter(Some(y));
      && Reads(f.gte, DateTime(y, 1, 1, 0, 0, 0, 0))
      && Reads(f.lte, DateTime(y, 12, 31, 23, 59, 59, 0))
  {
    assert NormalizeDay(y, 1, 1) == (y, 1, 1);
    MakeLocalDateReads(y, 0, 1, 0, 0, 0, y, 1, y, 1, 1);
    assert NormalizeDay(y, 12, 31) == (y, 12, 31);
    MakeLocalDateReads(y, 11, 31, 23, 59, 59, y, 12, y, 12, 31);
  }

  /**
   * The upper bound 23:59:59 of a period's last day is one second before the
   * next period starts: an instant within that last second, after its first
   * millisecond, falls outside the range.
   */
  lemma UpperBoundLastSecond(y: int, m: int)
    requires 1 <= m <= 12
    ensures var (ny, nm) := NextMonth(y, m);
      DateTime(y, m, DaysInMonth(y, m), 23, 59, 59, 0).Epoch() == DayNumber(ny, nm, 1) * MsPerDay - MsPerSecond
  {
    MonthStep(y, m);
  }
}

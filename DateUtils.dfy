/** The date helpers of `src/utils/dateUtils.ts`, over the `Date` model of `Calendar`. */
module DateUtils {
  import opened Wrappers
  import opened Strings
  import opened Calendar

  const MinutesPerDay: int := 1440

  function Abs(x: int): nat {
    if x < 0 then -x else x
  }

  /** `formatTime`: the local time of day as "HH:mm", or "--:--" for an invalid date. */
  function FormatTime(date: JsDate): (r: string)
    ensures date.None? ==> r == "--:--"
    ensures date.Some? ==>
      && |r| == 5 && r[2] == ':' && AllDigits(r[..2]) && AllDigits(r[3..])
      && DecimalValue(r[..2]) == date.value.hour && DecimalValue(r[3..]) == date.value.minute
  {
    match date
    case None => "--:--"
    case Some(t) =>
      var r := TwoDigits(t.hour) + ":" + TwoDigits(t.minute);
      assert r[..2] == TwoDigits(t.hour) && r[3..] == TwoDigits(t.minute);
      r
  }

  /**
   * `calculateTimeDifference`: the whole minutes between two dates, whichever
   * comes first; 0 when either date is invalid.
   */
  function CalculateTimeDifference(date1: JsDate, date2: JsDate): (minutes: int)
    ensures minutes >= 0
    ensures date1.None? || date2.None? ==> minutes == 0
    ensures date1.Some? && date2.Some? ==>
      var diffMs := Abs(TimeValue(date1.value) - TimeValue(date2.value));
      minutes * MsPerMinute <= diffMs < (minutes + 1) * MsPerMinute
  {
    if date1.None? || date2.None? then 0
    else Abs(TimeValue(date1.value) - TimeValue(date2.value)) / MsPerMinute
  }

  /** `isSameDay`: both dates are valid and fall on the same local calendar date. */
  predicate IsSameDay(date1: JsDate, date2: JsDate)
    ensures IsSameDay(date1, date2) <==>
      && date1.Some? && date2.Some?
      && DayNumber(date1.value.year, date1.value.month, date1.value.day)
         == DayNumber(date2.value.year, date2.value.month, date2.value.day)
  {
    match (date1, date2)
    case (Some(d1), Some(d2)) =>
      SameDateIffSameDayNumber(d1, d2);
      d1.year == d2.year && d1.month == d2.month && d1.day == d2.day
    case _ => false
  }

  /** Two calendar dates coincide exactly when their day numbers do. */
  lemma SameDateIffSameDayNumber(d1: CivilTime, d2: CivilTime)
    ensures (d1.year == d2.year && d1.month == d2.month && d1.day == d2.day) <==>
      DayNumber(d1.year, d1.month, d1.day) == DayNumber(d2.year, d2.month, d2.day)
  {
    if DayNumber(d1.year, d1.month, d1.day) == DayNumber(d2.year, d2.month, d2.day) {
      DayNumberInjective(d1.year, d1.month, d1.day, d2.year, d2.month, d2.day);
    }
  }

  /** `formatISODate`: "YYYY-MM-DD" with a two-digit month and day, or "" for an invalid date. */
  function FormatISODate(date: JsDate): (r: string)
    ensures r == "" <==> date.None?
  {
    match date
    case None => ""
    case Some(t) =>
      YearLength(t.year);
      IntToString(t.year) + "-" + TwoDigits(t.month) + "-" + TwoDigits(t.day)
  }

  /**
   * What "YYYY-MM-DD" reads back as: the year before the last six characters
   * (four digits for the years 1000-9999), then the two-digit month and day,
   * each after a dash.
   */
  lemma FormatISODateReadsBack(t: CivilTime)
    ensures var r := FormatISODate(Some(t));
      && |r| >= 7 && r[|r| - 6] == '-' && r[|r| - 3] == '-'
      && AllDigits(r[|r| - 5..|r| - 3]) && DecimalValue(r[|r| - 5..|r| - 3]) == t.month
      && AllDigits(r[|r| - 2..]) && DecimalValue(r[|r| - 2..]) == t.day
      && ParseInt(r[..|r| - 6]) == Some(t.year)
      && (1000 <= t.year <= 9999 ==> |r| == 10)
  {
    var y, mm, dd := IntToString(t.year), TwoDigits(t.month), TwoDigits(t.day);
    DashedParts(y, mm, dd);
    var r := y + "-" + mm + "-" + dd;
    assert FormatISODate(Some(t)) == r;
    assert r[..|r| - 6] == y;
    assert r[|r| - 5..|r| - 3] == mm;
    assert r[|r| - 2..] == dd;
    ParseIntRoundTrip(t.year);
    YearLength(t.year);
  }

  lemma YearLength(year: int)
    ensures |IntToString(year)| >= 1
    ensures 1000 <= year <= 9999 ==> |IntToString(year)| == 4
  {
    if 1000 <= year <= 9999 {
      NatToStringLength(year);
    }
  }

  // ------------------------------------------------------------------ lemmas

  lemma DashedParts(year: string, mm: string, dd: string)
    requires |mm| == 2 && |dd| == 2
    ensures var r := year + "-" + mm + "-" + dd;
      && |r| == |year| + 6 && r[..|r| - 6] == year && r[|r| - 6] == '-' && r[|r| - 3] == '-'
      && r[|r| - 5..|r| - 3] == mm && r[|r| - 2..] == dd
  {
  }

  lemma TimeDifferenceSymmetric(date1: JsDate, date2: JsDate)
    ensures CalculateTimeDifference(date1, date2) == CalculateTimeDifference(date2, date1)
  {
  }

  lemma SameDaySymmetric(date1: JsDate, date2: JsDate)
    ensures IsSameDay(date1, date2) <==> IsSameDay(date2, date1)
  {
  }

  lemma SameDayReflexive(date: JsDate)
    ensures IsSameDay(date, date) <==> date.Some?
  {
  }

  /** Two dates on the same calendar day are less than a day (1440 minutes) apart. */
  lemma SameDayWithinADay(date1: JsDate, date2: JsDate)
    requires IsSameDay(date1, date2)
    ensures CalculateTimeDifference(date1, date2) < MinutesPerDay
  {
    var t1, t2 := TimeValue(date1.value), TimeValue(date2.value);
    assert Abs(t1 - t2) < MsPerDay;
  }

  /**
   * `isSameDay` holds exactly when both dates are valid and their time values
   * fall in the same 24-hour window counted from the epoch.
   */
  lemma SameDayIffSameDayWindow(date1: JsDate, date2: JsDate)
    ensures IsSameDay(date1, date2) <==>
      date1.Some? && date2.Some? && TimeValue(date1.value) / MsPerDay == TimeValue(date2.value) / MsPerDay
  {
    if date1.Some? && date2.Some? {
      var a, b := date1.value, date2.value;
      var na, nb := DayNumber(a.year, a.month, a.day), DayNumber(b.year, b.month, b.day);
      DayOfTimeValue(TimeValue(a), na);
      DayOfTimeValue(TimeValue(b), nb);
      if na == nb {
        DayNumberInjective(a.year, a.month, a.day, b.year, b.month, b.day);
      }
    }
  }

  lemma DayOfTimeValue(ms: int, n: int)
    requires n * MsPerDay <= ms < (n + 1) * MsPerDay
    ensures ms / MsPerDay == n
  {
  }

  /** Different calendar dates have different day numbers. */
  lemma DayNumberInjective(y1: int, m1: int, d1: int, y2: int, m2: int, d2: int)
    requires 1 <= m1 <= 12 && 1 <= d1 <= DaysInMonth(y1, m1)
    requires 1 <= m2 <= 12 && 1 <= d2 <= DaysInMonth(y2, m2)
    requires DayNumber(y1, m1, d1) == DayNumber(y2, m2, d2)
    ensures y1 == y2 && m1 == m2 && d1 == d2
  {
    if y1 < y2 {
      EarlierYear(y1, m1, d1, y2, m2, d2);
    } else if y2 < y1 {
      EarlierYear(y2, m2, d2, y1, m1, d1);
    } else if m1 < m2 {
      DaysBeforeMonthGap(y1, m1, m2);
    } else if m2 < m1 {
      DaysBeforeMonthGap(y1, m2, m1);
    }
  }

  /** A date in an earlier year has a smaller day number. */
  lemma EarlierYear(y1: int, m1: int, d1: int, y2: int, m2: int, d2: int)
    requires 1 <= m1 <= 12 && 1 <= d1 <= DaysInMonth(y1, m1)
    requires 1 <= m2 <= 12 && 1 <= d2 <= DaysInMonth(y2, m2)
    requires y1 < y2
    ensures DayNumber(y1, m1, d1) < DayNumber(y2, m2, d2)
  {
    DayWithinYear(y1, m1, d1);
    DaysBeforeYearGrows(y1 + 1, y2);
    DayWithinYear(y2, m2, d2);
    var n1, n2 := DayNumber(y1, m1, d1), DayNumber(y2, m2, d2);
    var next, later := DaysBeforeYear(y1 + 1), DaysBeforeYear(y2);
    assert n1 < next <= later <= n2;
  }

  /** A date's day number lies within its year. */
  lemma DayWithinYear(y: int, m: int, d: int)
    requires 1 <= m <= 12 && 1 <= d <= DaysInMonth(y, m)
    ensures DaysBeforeYear(y) <= DayNumber(y, m, d) < DaysBeforeYear(y + 1)
  {
    LeapYearsStep(y);
    if m < 12 {
      DaysBeforeMonthGap(y, m, 12);
    }
  }

  /** Every month ends before the next one starts. */
  lemma DaysBeforeMonthGap(y: int, m1: int, m2: int)
    requires 1 <= m1 < m2 <= 12
    ensures DaysBeforeMonth(y, m1) + DaysInMonth(y, m1) <= DaysBeforeMonth(y, m2)
  {
  }

  lemma {:induction false} DaysBeforeYearGrows(y1: int, y2: int)
    requires y1 <= y2
    ensures DaysBeforeYear(y1) <= DaysBeforeYear(y2)
    decreases y2 - y1
  {
    if y1 < y2 {
      DaysBeforeYearGrows(y1, y2 - 1);
      LeapYearsStep(y2 - 1);
    }
  }
}

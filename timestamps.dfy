/**
 * Wall-clock times in the single zone the scheduler uses (Asia/Tokyo, +09:00 from 1952 on),
 * to the minute, as `datetime` holds them after `strptime(..., '%Y-%m-%dT%H:%M')`.
 */
module Timestamps {

  datatype Timestamp = Timestamp(year: nat, month: nat, day: nat, hour: nat, minute: nat)

  /** Gregorian leap-year rule. */
  predicate IsLeapYear(y: nat) {
    y % 4 == 0 && (y % 100 != 0 || y % 400 == 0)
  }

  function DaysInMonth(y: nat, m: nat): (r: nat)
    requires 1 <= m <= 12
    ensures 28 <= r <= 31
    ensures r == 31 <==> m in {1, 3, 5, 7, 8, 10, 12}
    ensures r == 29 <==> m == 2 && IsLeapYear(y)
  {
    if m == 2 then (if IsLeapYear(y) then 29 else 28)
    else if m == 4 || m == 6 || m == 9 || m == 11 then 30
    else 31
  }

  function YearLength(y: nat): nat {
    if IsLeapYear(y) then 366 else 365
  }

  /** The fields `datetime` accepts: years 1..9999, real months, days that exist in that month. */
  predicate IsCalendarValid(t: Timestamp) {
    && 1 <= t.year <= 9999
    && 1 <= t.month <= 12
    && 1 <= t.day <= DaysInMonth(t.year, t.month)
    && t.hour < 24
    && t.minute < 60
  }

  /**
   * `a < b` on two datetimes that share one tzinfo object: Python compares them field by
   * field, most significant first, without consulting the UTC offset.
   */
  predicate Less(a: Timestamp, b: Timestamp) {
    if a.year != b.year then a.year < b.year
    else if a.month != b.month then a.month < b.month
    else if a.day != b.day then a.day < b.day
    else if a.hour != b.hour then a.hour < b.hour
    else a.minute < b.minute
  }

  /** `a <= b` on the same datetimes. */
  predicate LessEq(a: Timestamp, b: Timestamp) {
    if a.year != b.year then a.year < b.year
    else if a.month != b.month then a.month < b.month
    else if a.day != b.day then a.day < b.day
    else if a.hour != b.hour then a.hour < b.hour
    else a.minute <= b.minute
  }

  /** `<` is a strict total order and `<=` is its reflexive closure. */
  lemma LessIsStrictTotalOrder(a: Timestamp, b: Timestamp, c: Timestamp)
    ensures !Less(a, a)
    ensures Less(a, b) && Less(b, c) ==> Less(a, c)
    ensures Less(a, b) || a == b || Less(b, a)
    ensures LessEq(a, b) <==> Less(a, b) || a == b
    ensures LessEq(a, b) <==> !Less(b, a)
  {
  }

  lemma LessEqTransitive(a: Timestamp, b: Timestamp, c: Timestamp)
    ensures LessEq(a, b) && LessEq(b, c) ==> LessEq(a, c)
    ensures LessEq(a, b) && Less(b, c) ==> Less(a, c)
    ensures Less(a, b) && LessEq(b, c) ==> Less(a, c)
  {
  }

  /*
   * An independent reading of a timestamp: the number of minutes since 0001-01-01T00:00 at a
   * fixed offset. Asia/Tokyo has kept +09:00 since 1952 (it had daylight saving time from 1948
   * to 1951 and local mean time before 1888), so from 1952 on this is the instant up to a
   * constant, and the field-by-field comparison above agrees with it.
   */

  /** Days in the years before `y` (year 1 starts at day 0). */
  function DaysBeforeYear(y: nat): nat {
    if y <= 1 then 0 else DaysBeforeYear(y - 1) + YearLength(y - 1)
  }

  /** Days in the months of year `y` before month `m`; month 13 stands for the end of the year. */
  function DaysBeforeMonth(y: nat, m: nat): nat
    requires 1 <= m <= 13
  {
    var common :=
      if m == 1 then 0 else if m == 2 then 31 else if m == 3 then 59
      else if m == 4 then 90 else if m == 5 then 120 else if m == 6 then 151
      else if m == 7 then 181 else if m == 8 then 212 else if m == 9 then 243
      else if m == 10 then 273 else if m == 11 then 304 else if m == 12 then 334
      else 365;
    if m > 2 && IsLeapYear(y) then common + 1 else common
  }

  function MinutesSinceEpoch(t: Timestamp): nat
    requires IsCalendarValid(t)
  {
    var days := DaysBeforeYear(t.year) + DaysBeforeMonth(t.year, t.month) + (t.day - 1);
    days * 1440 + t.hour * 60 + t.minute
  }

  lemma {:induction false} DaysBeforeYearGrows(y1: nat, y2: nat)
    requires 1 <= y1 < y2
    ensures DaysBeforeYear(y1) + YearLength(y1) <= DaysBeforeYear(y2)
  {
    if y1 + 1 < y2 {
      DaysBeforeYearGrows(y1, y2 - 1);
    }
  }

  lemma DaysBeforeMonthStep(y: nat, m: nat)
    requires 1 <= m <= 12
    ensures DaysBeforeMonth(y, m) + DaysInMonth(y, m) == DaysBeforeMonth(y, m + 1)
    ensures DaysBeforeMonth(y, 13) == YearLength(y)
  {
  }

  lemma {:induction false} DaysBeforeMonthGrows(y: nat, m1: nat, m2: nat)
    requires 1 <= m1 < m2 <= 13
    ensures DaysBeforeMonth(y, m1) + DaysInMonth(y, m1) <= DaysBeforeMonth(y, m2)
    decreases m2 - m1
  {
    DaysBeforeMonthStep(y, m1);
    if m1 + 1 < m2 {
      DaysBeforeMonthGrows(y, m1 + 1, m2);
    }
  }

  /** The day of the year, counted from 0, stays inside the year. */
  lemma DayOfYearBound(t: Timestamp)
    requires IsCalendarValid(t)
    ensures DaysBeforeMonth(t.year, t.month) + t.day <= YearLength(t.year)
  {
    DaysBeforeMonthStep(t.year, t.month);
    if t.month < 12 {
      DaysBeforeMonthGrows(t.year, t.month + 1, 13);
    }
  }

  /** Day numbers order valid timestamps exactly as the year, month and day fields do. */
  lemma DayNumberOrder(a: Timestamp, b: Timestamp)
    requires IsCalendarValid(a) && IsCalendarValid(b)
    requires a.year < b.year || (a.year == b.year && (a.month < b.month || (a.month == b.month && a.day < b.day)))
    ensures DaysBeforeYear(a.year) + DaysBeforeMonth(a.year, a.month) + a.day
          <= DaysBeforeYear(b.year) + DaysBeforeMonth(b.year, b.month) + b.day - 1
  {
    if a.year < b.year {
      DayOfYearBound(a);
      DaysBeforeYearGrows(a.year, b.year);
    } else if a.month < b.month {
      DaysBeforeMonthGrows(a.year, a.month, b.month);
    }
  }

  /**
   * Comparing the fields, as Python does, is comparing the instants: for calendar-valid
   * timestamps at one fixed offset, `a < b` exactly when `a` is the earlier minute.
   */
  lemma LessIsInstantOrder(a: Timestamp, b: Timestamp)
    requires IsCalendarValid(a) && IsCalendarValid(b)
    ensures Less(a, b) <==> MinutesSinceEpoch(a) < MinutesSinceEpoch(b)
    ensures a == b <==> MinutesSinceEpoch(a) == MinutesSinceEpoch(b)
  {
    if a.year != b.year || a.month != b.month || a.day != b.day {
      if Less(a, b) {
        DayNumberOrder(a, b);
      } else {
        DayNumberOrder(b, a);
      }
    }
  }
}

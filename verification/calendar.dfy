/** Gregorian dates as Python's `datetime.date` holds them, their order, and
    the optional inclusive date bounds the reports filter on. */
module Calendar {
  import opened Wrappers

  /** The Gregorian leap-year rule. */
  predicate IsLeapYear(year: int) {
    year % 4 == 0 && (year % 100 != 0 || year % 400 == 0)
  }

  /** Days in `month` of `year`: 31 for the long months, February by the
      leap-year rule, 30 for every other month number. */
  function DaysInMonth(year: int, month: int): (n: int)
    ensures 28 <= n <= 31
  {
    if month in {1, 3, 5, 7, 8, 10, 12} then 31
    else if month == 2 then (if IsLeapYear(year) then 29 else 28)
    else 30
  }

  datatype Date = Date(year: int, month: int, day: int) {
    /** What `date(year, month, day)` accepts without raising `ValueError`. */
    predicate Valid() {
      && 1 <= year <= 9999
      && 1 <= month <= 12
      && 1 <= day <= DaysInMonth(year, month)
    }
  }

  /** A date that exists in the Gregorian calendar between years 1 and 9999. */
  type CalendarDate = d: Date | d.Valid() witness Date(1, 1, 1)

  /** Python's date comparison: by year, then month, then day. */
  predicate DateLe(a: Date, b: Date) {
    || a.year < b.year
    || (a.year == b.year && a.month < b.month)
    || (a.year == b.year && a.month == b.month && a.day <= b.day)
  }

  /** Optional report bounds: an absent bound does not filter. */
  datatype DateRange = DateRange(start: Option<Date>, end: Option<Date>)

  /** `entry_date >= start` when a start is given, and `entry_date <= end` when an end is given. */
  predicate InRange(d: Date, r: DateRange) {
    && (r.start.Some? ==> DateLe(r.start.value, d))
    && (r.end.Some? ==> DateLe(d, r.end.value))
  }

  /** The lengths of the twelve months of `year`, January first, as a table. */
  function MonthTable(year: int): seq<int> {
    [31, if IsLeapYear(year) then 29 else 28, 31, 30, 31, 30, 31, 31, 30, 31, 30, 31]
  }

  /** The branch-by-branch month length agrees with the calendar table for every month. */
  lemma DaysInMonthMatchesTable(year: int)
    ensures forall m :: 1 <= m <= 12 ==> DaysInMonth(year, m) == MonthTable(year)[m - 1]
  {
  }

  /** Leap years are those divisible by 400, or by 4 but not by 100; so 2000
      and 2024 are leap years and 1900 and 2023 are not. */
  lemma LeapYearRule(year: int)
    ensures IsLeapYear(year) <==> (year % 400 == 0 || (year % 4 == 0 && year % 100 != 0))
    ensures IsLeapYear(2000) && IsLeapYear(2024) && !IsLeapYear(1900) && !IsLeapYear(2023)
  {
    if year % 400 == 0 {
      assert year == 4 * (100 * (year / 400));
    }
  }
}

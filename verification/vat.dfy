/** `_period_bounds`: the inclusive date range of a VAT declaration period,
    a month or the calendar quarter containing it. */
module Vat {
  import opened Wrappers
  import opened Calendar

  /** `date(...)` rejected the year or month. */
  datatype PeriodError = InvalidDate

  datatype Period = Period(start: CalendarDate, end: CalendarDate)

  /** First month of the quarter holding `month`. Python's `//` floors;
      Dafny's `/` agrees with it for the positive divisor 3. */
  function QuarterStart(month: int): int {
    ((month - 1) / 3) * 3 + 1
  }

  /** The period named by `year`-`month`: the whole month, or for the
      frequency "quarterly" (and no other string) the whole quarter. It
      starts on the 1st and ends on the last day of its last month. */
  function PeriodBounds(year: int, month: int, frequency: string): (r: Result<Period, PeriodError>)
    ensures r.Failure? <==> !(1 <= year <= 9999 && 1 <= month <= 12)
    ensures r.Success? ==>
      var p := r.value;
      && p.start.year == year && p.end.year == year
      && p.start.day == 1
      && !Date(year, p.end.month, p.end.day + 1).Valid()
      && p.start.month <= month <= p.end.month
      && DateLe(p.start, p.end)
      && (frequency == "quarterly" ==> p.start.month in {1, 4, 7, 10} && p.end.month == p.start.month + 2)
      && (frequency != "quarterly" ==> p.start.month == month && p.end.month == month)
  {
    if !(1 <= year <= 9999 && 1 <= month <= 12) then Failure(InvalidDate)
    else
      var startMonth := if frequency == "quarterly" then QuarterStart(month) else month;
      var endMonth := if frequency == "quarterly" then startMonth + 2 else month;
      Success(Period(Date(year, startMonth, 1), Date(year, endMonth, DaysInMonth(year, endMonth))))
  }

  /** A period holds exactly the dates of its year whose month lies between
      its first and last month: no day of those months is left out and no
      other day is let in. */
  lemma PeriodCovers(year: int, month: int, frequency: string, d: CalendarDate)
    requires PeriodBounds(year, month, frequency).Success?
    ensures var p := PeriodBounds(year, month, frequency).value;
            InRange(d, DateRange(Some(p.start), Some(p.end)))
            <==> d.year == year && p.start.month <= d.month <= p.end.month
  {
  }

  /** Every valid date falls in the monthly period and the quarterly period
      of its own year and month. */
  lemma DateInOwnPeriod(d: CalendarDate, frequency: string)
    ensures PeriodBounds(d.year, d.month, frequency).Success?
    ensures var p := PeriodBounds(d.year, d.month, frequency).value;
            InRange(d, DateRange(Some(p.start), Some(p.end)))
  {
    PeriodCovers(d.year, d.month, frequency, d);
  }

  /** The four quarters of a year, and February's end in leap and common years. */
  lemma PeriodExamples()
    ensures PeriodBounds(2024, 5, "quarterly") == Success(Period(Date(2024, 4, 1), Date(2024, 6, 30)))
    ensures PeriodBounds(2024, 2, "monthly") == Success(Period(Date(2024, 2, 1), Date(2024, 2, 29)))
    ensures PeriodBounds(2023, 2, "quarterly") == Success(Period(Date(2023, 1, 1), Date(2023, 3, 31)))
    ensures PeriodBounds(1900, 2, "Monthly") == Success(Period(Date(1900, 2, 1), Date(1900, 2, 28)))
    ensures PeriodBounds(2024, 12, "quarterly") == Success(Period(Date(2024, 10, 1), Date(2024, 12, 31)))
    ensures PeriodBounds(2024, 13, "monthly") == Failure(InvalidDate)
  {
  }
}

/** Trading dates, with the month-number comparison the simulation and the
    principal baseline both use. */
module Calendar {

  /** A calendar month number, as `datetime.date.month` gives it. */
  type Month = m: int | 1 <= m <= 12 witness 1

  /** A trading date. The simulation consults only `month`; `year` and `day`
      matter only for ordering. */
  datatype Date = Date(year: int, month: Month, day: int)

  /** The value `last_invested_month` starts from before anything was invested;
      no month number equals it. */
  const NoMonth: int := -1

  /** Strict chronological order, as Python compares `date` values. */
  predicate Earlier(a: Date, b: Date)
  {
    a.year < b.year
    || (a.year == b.year && a.month < b.month)
    || (a.year == b.year && a.month == b.month && a.day < b.day)
  }

  /** Position `i` of a date index starts a new run of month numbers: it is the
      first position, or its month number differs from the previous date's.
      The year is not compared, so January of one year directly followed by
      January of the next year is one run. */
  predicate IsNewMonth(dates: seq<Date>, i: nat)
    requires i < |dates|
  {
    i == 0 || dates[i].month != dates[i - 1].month
  }
}

/** .NET `DateTime` values: a calendar day plus a time of day, ordered chronologically. */
module Calendar {

  /** A `DateTime`: year, month and day of the calendar date, and the ticks elapsed since midnight. */
  datatype DateTime = DateTime(year: int, month: int, day: int, timeOfDay: nat)
  {
    /** `DateTime.Date`: the same calendar day at midnight. */
    function Date(): (d: DateTime)
      ensures d.timeOfDay == 0 && SameDay(d, this)
    {
      DateTime(year, month, day, 0)
    }
  }

  /** `default(DateTime)`: midnight on 1 January of year 1. */
  const DefaultDateTime := DateTime(1, 1, 1, 0)

  /** Midnight on the given calendar day (`new DateTime(year, month, day)`). */
  function Day(year: int, month: int, day: int): DateTime {
    DateTime(year, month, day, 0)
  }

  predicate SameDay(a: DateTime, b: DateTime) {
    a.year == b.year && a.month == b.month && a.day == b.day
  }

  /** `a < b` on `DateTime`: `a` is strictly earlier than `b`. */
  predicate Before(a: DateTime, b: DateTime) {
    a.year < b.year
    || (a.year == b.year && (a.month < b.month
    || (a.month == b.month && (a.day < b.day
    || (a.day == b.day && a.timeOfDay < b.timeOfDay)))))
  }

  /** `a <= b` on `DateTime`. */
  predicate NotAfter(a: DateTime, b: DateTime) {
    !Before(b, a)
  }

  /** `Before` is a strict total order. */
  lemma BeforeIsStrictTotalOrder(a: DateTime, b: DateTime, c: DateTime)
    ensures !Before(a, a)
    ensures Before(a, b) && Before(b, c) ==> Before(a, c)
    ensures Before(a, b) || Before(b, a) || a == b
  {
  }
}

/**
 The proleptic Gregorian calendar in UTC. A month is counted from January of year 0, so that
 month 12 * y + m - 1 is month m of year y; a date normalises by counting its days from there.
 */
module Calendar {
  /** A month and a day of the month, the first being 1. */
  datatype Date = Date(month: int, day: int)

  predicate IsLeap(year: int) {
    year % 4 == 0 && (year % 100 != 0 || year % 400 == 0)
  }

  function MonthLength(month: int): (days: int)
    ensures 28 <= days <= 31
  {
    match month % 12
    case 1 => if IsLeap(month / 12) then 29 else 28
    case 3 => 30
    case 5 => 30
    case 8 => 30
    case 10 => 30
    case _ => 31
  }

  predicate IsDate(d: Date) {
    1 <= d.day <= MonthLength(d.month)
  }

  /** The number of days from the first of January of year 0 to the first of the month. */
  function DaysBefore(month: int): int
    decreases if month < 0 then -month else month
  {
    if month == 0 then 0
    else if month > 0 then DaysBefore(month - 1) + MonthLength(month - 1)
    else DaysBefore(month + 1) - MonthLength(month)
  }

  /** The day number of a month and a day, which need not be a day of that month. */
  function DayNumber(month: int, day: int): int {
    DaysBefore(month) + day - 1
  }

  /** The date `rest` days after the first of the month. */
  function DateAfter(month: int, rest: int): Date
    decreases if rest < 0 then 100 - rest else rest
  {
    if rest < 0 then DateAfter(month - 1, rest + MonthLength(month - 1))
    else if rest >= MonthLength(month) then DateAfter(month + 1, rest - MonthLength(month))
    else Date(month, rest + 1)
  }

  function DateOf(dayNumber: int): Date {
    DateAfter(0, dayNumber)
  }

  /** Adding months keeps the day and lets it overflow into the following month. */
  function AddMonths(d: Date, months: int): Date {
    DateOf(DayNumber(d.month + months, d.day))
  }

  lemma DaysBeforeNext(month: int)
    ensures DaysBefore(month + 1) == DaysBefore(month) + MonthLength(month)
  {
  }

  /** The walk through the calendar arrives at a real date with the right day number. */
  lemma {:induction false} DateAfterIsRight(month: int, rest: int)
    ensures var d := DateAfter(month, rest); IsDate(d) && DayNumber(d.month, d.day) == DaysBefore(month) + rest
    decreases if rest < 0 then 100 - rest else rest
  {
    if rest < 0 {
      DaysBeforeNext(month - 1);
      DateAfterIsRight(month - 1, rest + MonthLength(month - 1));
    } else if rest >= MonthLength(month) {
      DaysBeforeNext(month);
      DateAfterIsRight(month + 1, rest - MonthLength(month));
    }
  }

  lemma {:induction false} MonthsAscend(a: int, b: int)
    requires a < b
    ensures DaysBefore(a) + MonthLength(a) <= DaysBefore(b)
    decreases b - a
  {
    DaysBeforeNext(a);
    if a + 1 < b {
      MonthsAscend(a + 1, b);
    }
  }

  /** Different dates have different day numbers, in the order of the calendar. */
  lemma DayNumbersAreUnique(x: Date, y: Date)
    requires IsDate(x) && IsDate(y) && DayNumber(x.month, x.day) == DayNumber(y.month, y.day)
    ensures x == y
  {
    if x.month < y.month {
      MonthsAscend(x.month, y.month);
    } else if y.month < x.month {
      MonthsAscend(y.month, x.month);
    }
  }

  /** Dates and day numbers are in one-to-one correspondence. */
  lemma DateOfDayNumber(d: Date)
    requires IsDate(d)
    ensures DateOf(DayNumber(d.month, d.day)) == d
  {
    DateAfterIsRight(0, DayNumber(d.month, d.day));
    DayNumbersAreUnique(DateOf(DayNumber(d.month, d.day)), d);
  }
}

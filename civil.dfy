/**
 * Dates and local times as Go's `time` package hands them to the renderer:
 * proleptic Gregorian calendar dates, an already-computed weekday, and the
 * hour and minute of the local wall clock.
 */
module Civil {

  datatype Date = Date(year: int, month: int, day: int)

  /** Leap years of the Gregorian calendar (Go's `isLeap`; a zero test of `%` is the same for Go's and Dafny's remainder). */
  predicate IsLeapYear(year: int) {
    year % 4 == 0 && (year % 100 != 0 || year % 400 == 0)
  }

  function DaysIn(year: int, month: int): (n: int)
    requires 1 <= month <= 12
    ensures 28 <= n <= 31
    ensures n == 29 <==> month == 2 && IsLeapYear(year)
  {
    if month == 2 then (if IsLeapYear(year) then 29 else 28)
    else if month == 4 || month == 6 || month == 9 || month == 11 then 30
    else 31
  }

  predicate ValidDate(d: Date) {
    1 <= d.month <= 12 && 1 <= d.day <= DaysIn(d.year, d.month)
  }

  /** A date that exists on the calendar; `time.Parse` yields no other. */
  type CivilDate = d: Date | ValidDate(d) witness Date(1, 1, 1)

  /** Calendar order of dates. */
  predicate Before(a: Date, b: Date) {
    a.year < b.year || (a.year == b.year && (a.month < b.month || (a.month == b.month && a.day < b.day)))
  }

  /**
   * `t.AddDate(0, 0, -1)` on a date at midnight: the day before, rolling over
   * month and year boundaries. It is the latest calendar date before `d`.
   */
  function DayBefore(d: CivilDate): (r: CivilDate)
    ensures Before(r, d)
    ensures forall e: CivilDate :: Before(e, d) ==> e == r || Before(e, r)
  {
    if d.day > 1 then Date(d.year, d.month, d.day - 1)
    else if d.month > 1 then Date(d.year, d.month - 1, DaysIn(d.year, d.month - 1))
    else Date(d.year - 1, 12, 31)
  }

  /** `t.AddDate(0, 0, 1)` on a date at midnight: the earliest calendar date after `d`. */
  function DayAfter(d: CivilDate): (r: CivilDate)
    ensures Before(d, r)
    ensures forall e: CivilDate :: Before(d, e) ==> e == r || Before(r, e)
  {
    if d.day < DaysIn(d.year, d.month) then Date(d.year, d.month, d.day + 1)
    else if d.month < 12 then Date(d.year, d.month + 1, 1)
    else Date(d.year + 1, 1, 1)
  }

  /** Stepping back a day undoes stepping forward a day, and the other way round. */
  lemma DayBeforeUndoesDayAfter(d: CivilDate)
    ensures DayBefore(DayAfter(d)) == d
    ensures DayAfter(DayBefore(d)) == d
  {
  }

  datatype Weekday = Sunday | Monday | Tuesday | Wednesday | Thursday | Friday | Saturday

  /** A wall-clock reading in the local zone, as `t.In(time.Local)` shows it. */
  datatype LocalTime = LocalTime(date: Date, weekday: Weekday, hour: int, minute: int)

  predicate ValidLocalTime(t: LocalTime) {
    ValidDate(t.date) && 0 <= t.hour < 24 && 0 <= t.minute < 60
  }

  type Stamp = t: LocalTime | ValidLocalTime(t) witness LocalTime(Date(1, 1, 1), Monday, 0, 0)
}

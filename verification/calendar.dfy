/** The proleptic Gregorian calendar the Python `datetime` module uses:
    dates, their ordinal day numbers (0001-01-01 is day 1) and ISO weekdays
    (Monday is 1, Sunday is 7). */
module Calendar {

  const MinYear := 1
  const MaxYear := 9999

  predicate IsLeap(y: int) {
    y % 4 == 0 && (y % 100 != 0 || y % 400 == 0)
  }

  function DaysInMonth(y: int, m: int): (n: int)
    requires 1 <= m <= 12
    ensures 28 <= n <= 31
  {
    if m == 2 then (if IsLeap(y) then 29 else 28)
    else if m == 4 || m == 6 || m == 9 || m == 11 then 30
    else 31
  }

  datatype Date = Date(year: int, month: int, day: int) {
    /** The dates `datetime.date` can represent. */
    predicate Valid() {
      MinYear <= year <= MaxYear && 1 <= month <= 12 && 1 <= day <= DaysInMonth(year, month)
    }
  }

  /** A timestamp: a date and the microseconds elapsed since its midnight. */
  datatype DateTime = DateTime(date: Date, microsecond: int)

  /** Days in the years before `y`. */
  function DaysBeforeYear(y: int): int
    requires y >= 1
  {
    var p := y - 1;
    p * 365 + p / 4 - p / 100 + p / 400
  }

  /** Days in the months of year `y` before month `m`. */
  function DaysBeforeMonth(y: int, m: int): int
    requires 1 <= m <= 12
  {
    var common :=
      if m == 1 then 0 else if m == 2 then 31 else if m == 3 then 59
      else if m == 4 then 90 else if m == 5 then 120 else if m == 6 then 151
      else if m == 7 then 181 else if m == 8 then 212 else if m == 9 then 243
      else if m == 10 then 273 else if m == 11 then 304 else 334;
    common + (if m > 2 && IsLeap(y) then 1 else 0)
  }

  /** Python's `date.toordinal()`. */
  function Ordinal(d: Date): int
    requires d.Valid()
  {
    DaysBeforeYear(d.year) + DaysBeforeMonth(d.year, d.month) + d.day
  }

  /** Python's `date.isoweekday()`: `toordinal() % 7 or 7`. */
  function IsoWeekday(d: Date): (w: int)
    requires d.Valid()
    ensures 1 <= w <= 7
  {
    WeekdayOfOrdinal(Ordinal(d))
  }

  function WeekdayOfOrdinal(o: int): (w: int)
    ensures 1 <= w <= 7
  {
    var r := o % 7;
    if r == 0 then 7 else r
  }

  lemma WeekdayOfNextOrdinal(o: int)
    ensures WeekdayOfOrdinal(o + 1) == WeekdayOfOrdinal(o) % 7 + 1
  {
  }

  predicate IsLastDate(d: Date) {
    d.year == MaxYear && d.month == 12 && d.day == 31
  }

  /** The calendar day after `d`. */
  function NextDay(d: Date): (n: Date)
    requires d.Valid() && !IsLastDate(d)
    ensures n.Valid()
  {
    if d.day < DaysInMonth(d.year, d.month) then Date(d.year, d.month, d.day + 1)
    else if d.month < 12 then Date(d.year, d.month + 1, 1)
    else Date(d.year + 1, 1, 1)
  }

  lemma DivStep(y: int)
    requires y >= 1
    ensures y / 4 - (y - 1) / 4 == (if y % 4 == 0 then 1 else 0)
    ensures y / 100 - (y - 1) / 100 == (if y % 100 == 0 then 1 else 0)
    ensures y / 400 - (y - 1) / 400 == (if y % 400 == 0 then 1 else 0)
  {
  }

  /** A year contributes 366 days to the ordinal count when it is leap and
      365 otherwise. */
  lemma DaysBeforeNextYear(y: int)
    requires y >= 1
    ensures DaysBeforeYear(y + 1) == DaysBeforeYear(y) + (if IsLeap(y) then 366 else 365)
  {
    DivStep(y);
    if y % 100 == 0 {
      assert y == 4 * (25 * (y / 100));
    }
    if y % 400 == 0 {
      assert y == 100 * (4 * (y / 400));
    }
  }

  /** Ordinals count days: the day after `d` has the next ordinal. */
  lemma {:induction false} NextDayOrdinal(d: Date)
    requires d.Valid() && !IsLastDate(d)
    ensures Ordinal(NextDay(d)) == Ordinal(d) + 1
  {
    if d.day == DaysInMonth(d.year, d.month) && d.month == 12 {
      DaysBeforeNextYear(d.year);
    }
  }

  /** ISO weekdays cycle Monday (1) to Sunday (7) and back to Monday. */
  lemma NextDayWeekday(d: Date)
    requires d.Valid() && !IsLastDate(d)
    ensures IsoWeekday(NextDay(d)) == IsoWeekday(d) % 7 + 1
  {
    NextDayOrdinal(d);
    WeekdayOfNextOrdinal(Ordinal(d));
  }

  /** The calendar starts on a Monday. */
  lemma FirstDateIsMonday()
    ensures Date(MinYear, 1, 1).Valid() && IsoWeekday(Date(MinYear, 1, 1)) == 1
  {
    assert DaysBeforeYear(1) == 0;
  }
}

/** The two date conditions: "every month on day N" and "every week on ISO
    weekday N", each guarded so that it is met at most once per calendar
    day. */
module Dates {
  import opened Wrappers
  import opened Calendar
  import opened Strings

  /** The upper bound of the day-of-month validator. */
  const MaxDay := 31

  /** The once-per-day guard: the condition has not run on `today`. A null
      `last_executed` has never run. Only the date of the timestamp counts. */
  predicate NotRunOn(lastExecuted: Option<DateTime>, today: Date) {
    lastExecuted.None? || lastExecuted.value.date != today
  }

  /** `DayOfMonthCondition.is_met()`, with `now` standing for the clock. */
  predicate DayOfMonthIsMet(day: nat, lastExecuted: Option<DateTime>, now: DateTime) {
    day == now.date.day && NotRunOn(lastExecuted, now.date)
  }

  /** `DayOfWeekCondition.is_met()`: the weekday is compared with the ISO
      weekday of today, Monday being 1 and Sunday 7. */
  predicate DayOfWeekIsMet(weekday: nat, lastExecuted: Option<DateTime>, now: DateTime)
    requires now.date.Valid()
  {
    weekday == IsoWeekday(now.date) && NotRunOn(lastExecuted, now.date)
  }

  /** On a day of the month other than `day` the condition is not met, whatever
      it last ran on; in particular a day beyond the length of the current
      month (29 to 31) skips that month, and day 0, which the field accepts,
      is never met. */
  lemma DayOfMonthOnlyOnItsDay(day: nat, lastExecuted: Option<DateTime>, now: DateTime)
    requires now.date.Valid()
    ensures DayOfMonthIsMet(day, lastExecuted, now) ==> day == now.date.day
    ensures day == 0 || day > DaysInMonth(now.date.year, now.date.month) ==> !DayOfMonthIsMet(day, lastExecuted, now)
  {
  }

  /** Once `last_executed` records a run on today's date, the condition is
      not met again that day; on any other date with the right day it is. */
  lemma DayOfMonthOncePerDay(day: nat, ran: DateTime, now: DateTime)
    requires day == now.date.day
    ensures DayOfMonthIsMet(day, Some(ran), now) <==> ran.date != now.date
  {
  }

  lemma DayOfWeekOnlyOnItsWeekday(weekday: nat, lastExecuted: Option<DateTime>, now: DateTime)
    requires now.date.Valid()
    ensures DayOfWeekIsMet(weekday, lastExecuted, now) ==> weekday == IsoWeekday(now.date)
    ensures weekday == 0 || weekday > 7 ==> !DayOfWeekIsMet(weekday, lastExecuted, now)
  {
  }

  lemma DayOfWeekOncePerDay(weekday: nat, ran: DateTime, now: DateTime)
    requires now.date.Valid() && weekday == IsoWeekday(now.date)
    ensures DayOfWeekIsMet(weekday, Some(ran), now) <==> ran.date != now.date
  {
  }

  function Midnight(d: Date): DateTime {
    DateTime(d, 0)
  }

  /** The day-of-month scenario: day 2, evaluated on 2016-01-01 (not met),
      2016-01-02 (met), again on 2016-01-02 after recording a run there (not
      met), 2016-02-01 (not met) and 2016-02-02 (met). */
  lemma DayOfMonthScenario()
    ensures !DayOfMonthIsMet(2, None, Midnight(Date(2016, 1, 1)))
    ensures DayOfMonthIsMet(2, None, Midnight(Date(2016, 1, 2)))
    ensures !DayOfMonthIsMet(2, Some(Midnight(Date(2016, 1, 2))), Midnight(Date(2016, 1, 2)))
    ensures !DayOfMonthIsMet(2, Some(Midnight(Date(2016, 1, 2))), Midnight(Date(2016, 2, 1)))
    ensures DayOfMonthIsMet(2, Some(Midnight(Date(2016, 1, 2))), Midnight(Date(2016, 2, 2)))
  {
  }

  /** 2007-01-01 is a Monday and 2007-01-07 a Sunday. */
  lemma Weekdays2007()
    ensures Date(2007, 1, 1).Valid() && IsoWeekday(Date(2007, 1, 1)) == 1
    ensures Date(2007, 1, 7).Valid() && IsoWeekday(Date(2007, 1, 7)) == 7
    ensures Date(2007, 1, 10).Valid() && IsoWeekday(Date(2007, 1, 10)) == 3
    ensures Date(2007, 1, 14).Valid() && IsoWeekday(Date(2007, 1, 14)) == 7
  {
    assert DaysBeforeYear(2007) == 732676;
  }

  /** The day-of-week scenario with weekday 7 (Sunday): 2007-01-01 (not
      met), 2007-01-07 (met), 2007-01-07 again after recording a run there
      (not met), 2007-01-10 (not met) and 2007-01-14 (met). */
  lemma DayOfWeekScenario()
    ensures Date(2007, 1, 1).Valid() && !DayOfWeekIsMet(7, None, Midnight(Date(2007, 1, 1)))
    ensures Date(2007, 1, 7).Valid() && DayOfWeekIsMet(7, None, Midnight(Date(2007, 1, 7)))
    ensures !DayOfWeekIsMet(7, Some(Midnight(Date(2007, 1, 7))), Midnight(Date(2007, 1, 7)))
    ensures Date(2007, 1, 10).Valid() && !DayOfWeekIsMet(7, Some(Midnight(Date(2007, 1, 7))), Midnight(Date(2007, 1, 10)))
    ensures Date(2007, 1, 14).Valid() && DayOfWeekIsMet(7, Some(Midnight(Date(2007, 1, 7))), Midnight(Date(2007, 1, 14)))
  {
    Weekdays2007();
  }

  /** The display label of a weekday value AS WRITTEN in the choices table,
      which gives 6 the label Sunday and 7 the label Saturday. A value outside
      the choices is displayed as the number itself. */
  function WeekdayChoiceLabel(weekday: nat): string {
    if weekday == 1 then "Monday"
    else if weekday == 2 then "Tuesday"
    else if weekday == 3 then "Wednesday"
    else if weekday == 4 then "Thursday"
    else if weekday == 5 then "Friday"
    else if weekday == 6 then "Sunday"
    else if weekday == 7 then "Saturday"
    else NatToString(weekday)
  }

  /** The display label the ISO numbering calls for: 6 is Saturday and 7 is
      Sunday. A value outside the choices is displayed as the number. */
  function IsoWeekdayName(weekday: nat): (name: string)
    ensures 1 <= weekday <= 5 ==> name == WeekdayChoiceLabel(weekday)
    ensures weekday == 0 || weekday > 7 ==> name == WeekdayChoiceLabel(weekday)
  {
    if weekday == 6 then "Saturday"
    else if weekday == 7 then "Sunday"
    else WeekdayChoiceLabel(weekday)
  }

  /** The order of the days of the week, by name. */
  function NextDayName(name: string): string {
    if name == "Monday" then "Tuesday"
    else if name == "Tuesday" then "Wednesday"
    else if name == "Wednesday" then "Thursday"
    else if name == "Thursday" then "Friday"
    else if name == "Friday" then "Saturday"
    else if name == "Saturday" then "Sunday"
    else if name == "Sunday" then "Monday"
    else name
  }

  /** The corrected labels name the calendar's days: the label of each next
      day is the next name of the week (and the first date is a Monday, see
      `FirstDateNamedMonday`). */
  lemma IsoWeekdayNameFollowsCalendar(d: Date)
    requires d.Valid() && !IsLastDate(d)
    ensures IsoWeekdayName(IsoWeekday(NextDay(d))) == NextDayName(IsoWeekdayName(IsoWeekday(d)))
  {
    var w, w' := IsoWeekday(d), IsoWeekday(NextDay(d));
    NextDayWeekday(d);
    assert w' == w % 7 + 1;
    NextNameOfNextWeekday(w);
  }

  /** The first date of the calendar is labelled Monday. */
  lemma FirstDateNamedMonday()
    ensures Date(MinYear, 1, 1).Valid() && IsoWeekdayName(IsoWeekday(Date(MinYear, 1, 1))) == "Monday"
  {
    FirstDateIsMonday();
  }

  lemma NextNameOfNextWeekday(w: int)
    requires 1 <= w <= 7
    ensures IsoWeekdayName(w % 7 + 1) == NextDayName(IsoWeekdayName(w))
  {
  }

  /** The labels as written do not follow the calendar: 2007-01-05 is
      labelled Friday, yet the day after it is labelled Sunday; and 2007-01-07,
      a Sunday (weekday 7), is labelled Saturday. */
  lemma WeekdayChoiceLabelSwapsWeekend()
    ensures Date(2007, 1, 5).Valid() && !IsLastDate(Date(2007, 1, 5))
    ensures WeekdayChoiceLabel(IsoWeekday(Date(2007, 1, 5))) == "Friday"
    ensures NextDay(Date(2007, 1, 5)) == Date(2007, 1, 6)
    ensures WeekdayChoiceLabel(IsoWeekday(Date(2007, 1, 6))) == "Sunday" != NextDayName("Friday")
    ensures WeekdayChoiceLabel(IsoWeekday(Date(2007, 1, 7))) == "Saturday"
    ensures IsoWeekdayName(IsoWeekday(Date(2007, 1, 7))) == "Sunday"
  {
    Weekdays2007();
    NextDayWeekday(Date(2007, 1, 5));
    NextDayWeekday(Date(2007, 1, 6));
  }

  /** `str()` of a day-of-month condition. */
  function DayOfMonthStr(day: nat): (s: string)
    ensures Contains(s, NatToString(day))
    ensures IsPrefix("Day of month condition", s)
  {
    var s := "Day of month condition (day: " + NatToString(day) + ")";
    assert OccursAt(s, NatToString(day), 29);
    s
  }

  /** `str()` of a day-of-week condition: the display label of its weekday,
      as the choices table gives it. */
  function DayOfWeekStr(weekday: nat): (s: string)
    ensures Contains(s, WeekdayChoiceLabel(weekday))
    ensures IsPrefix("Day of week condition", s)
  {
    var s := "Day of week condition (day: " + WeekdayChoiceLabel(weekday) + ")";
    assert OccursAt(s, WeekdayChoiceLabel(weekday), 28);
    s
  }
}

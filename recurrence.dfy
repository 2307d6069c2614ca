/**
 * Recurring dates (src/lib/recurrence.logic.ts).
 *
 * Dates are day numbers.  The day and week operations of `DateOps` are
 * exact on day numbers (`addDays`, `addWeeks`, `isAfter`, `getDay`,
 * `nextDay`, the last as date-fns defines it); the month and year
 * operations are the fields of `Calendar`, and the lemmas use nothing of
 * them but the laws they state.  Formatting with `format(d, 'yyyy-MM-dd')` is
 * left to the caller: the result is the list of days.
 */
module Recurrence {
  import opened Types

  datatype Frequency = Daily | Weekly | Monthly | Yearly | OtherFrequency

  /** `RecurrenceConfig`; an absent optional field is `None`. */
  datatype RecurrenceConfig = RecurrenceConfig(
    frequency: Frequency,
    interval: int,
    monthDay: Option<int>,
    monthWeek: Option<int>,
    monthWeekDay: Option<int>,
    endDate: Option<Day>)

  /** The month and year operations of `DateOps`. */
  datatype Calendar = Calendar(
    addMonths: (Day, int) -> Day,
    addYears: (Day, int) -> Day,
    startOfMonth: Day -> Day,
    endOfMonth: Day -> Day,
    setDate: (Day, int) -> Day)

  /** The safety cap on the number of dates. */
  const MaxCount := 366

  /** `getDay`: 0 is Sunday; day 0 (1970-01-01) was a Thursday. */
  function GetDay(d: Day): (w: int)
    ensures 0 <= w < 7
  {
    (d + 4) % 7
  }

  /** date-fns `nextDay(d, day)`: the first day after `d` whose weekday is `day`, for `day` in 0..6. */
  function NextDay(d: Day, day: int): Day
  {
    var delta := day - GetDay(d);
    d + (if delta <= 0 then delta + 7 else delta)
  }

  /** `endOfMonth(d).getDate()`: the number of days in `d`'s month. */
  function DaysInMonth(cal: Calendar, d: Day): int
  {
    cal.endOfMonth(d) - cal.startOfMonth(cal.endOfMonth(d)) + 1
  }

  /** The inner `while (true)`: from `candidate`, step a week at a time while the next step stays on or before `monthEnd`. */
  function LastStepBefore(candidate: Day, monthEnd: Day): (r: Day)
    decreases monthEnd - candidate
  {
    if candidate + 7 > monthEnd then candidate else LastStepBefore(candidate + 7, monthEnd)
  }

  /** The first day of the month's target weekday: `monthStart` itself or `nextDay(monthStart, weekday)`. */
  function FirstWeekday(monthStart: Day, weekday: int): Day
  {
    if GetDay(monthStart) != weekday then NextDay(monthStart, weekday) else monthStart
  }

  /** The `switch (config.frequency)`: the date after `cur`. */
  function NextDate(cal: Calendar, cfg: RecurrenceConfig, cur: Day): Day
  {
    match cfg.frequency
    case Daily => cur + cfg.interval
    case Weekly => cur + 7 * cfg.interval
    case Monthly =>
      if cfg.monthWeek.Some? && cfg.monthWeekDay.Some? then
        var base := cal.addMonths(cur, cfg.interval);
        var first := FirstWeekday(cal.startOfMonth(base), cfg.monthWeekDay.value);
        if cfg.monthWeek.value == -1 then LastStepBefore(first, cal.endOfMonth(base))
        else first + 7 * (cfg.monthWeek.value - 1)
      else if cfg.monthDay.Some? && cfg.monthDay.value != 0 then
        var tentative := cal.addMonths(cur, cfg.interval);
        var desired := if cfg.monthDay.value <= DaysInMonth(cal, tentative) then cfg.monthDay.value
                       else DaysInMonth(cal, tentative);
        cal.setDate(tentative, desired)
      else cal.addMonths(cur, cfg.interval)
    case Yearly => cal.addYears(cur, cfg.interval)
    case OtherFrequency => cur + 1
  }

  /** The last day any occurrence may fall on: the user's end date, capped at one year after the start. */
  function EndDate(cal: Calendar, start: Day, cfg: RecurrenceConfig): Day
  {
    var hardLimit := cal.addYears(start, 1);
    var userEnd := if cfg.endDate.Some? then cfg.endDate.value else hardLimit;
    if userEnd > hardLimit then hardLimit else userEnd
  }

  /** The dates the outer loop pushes from the state `(cur, count)`. */
  function Occurrences(cal: Calendar, cfg: RecurrenceConfig, end: Day, limit: int, cur: Day, count: nat): seq<Day>
    decreases MaxCount - count
  {
    if count < limit && count < MaxCount && cur <= end then
      [cur] + Occurrences(cal, cfg, end, limit, NextDate(cal, cfg, cur), count + 1)
    else []
  }

  /** `generateRecurringDatesLogic(deps, start, config, limit)` as a list of days. */
  function RecurringDates(cal: Calendar, start: Day, cfg: RecurrenceConfig, limit: int): seq<Day>
  {
    Occurrences(cal, cfg, EndDate(cal, start, cfg), limit, start, 0)
  }

  // ---- the loops ----

  /** The inner loop of the last-weekday case. */
  method LastMatching(first: Day, monthEnd: Day) returns (valid: Day)
    ensures valid == LastStepBefore(first, monthEnd)
  {
    var candidate := first;
    valid := candidate;
    while true
      invariant valid == candidate
      invariant LastStepBefore(candidate, monthEnd) == LastStepBefore(first, monthEnd)
      decreases monthEnd - candidate
    {
      var next := candidate + 7;
      if next > monthEnd {
        break;
      }
      candidate := next;
      valid := next;
    }
  }

  /** One pass through the `switch`. */
  method Next(cal: Calendar, cfg: RecurrenceConfig, cur: Day) returns (nextDate: Day)
    ensures nextDate == NextDate(cal, cfg, cur)
  {
    match cfg.frequency {
      case Daily =>
        nextDate := cur + cfg.interval;
      case Weekly =>
        nextDate := cur + 7 * cfg.interval;
      case Monthly =>
        if cfg.monthWeek.Some? && cfg.monthWeekDay.Some? {
          var nextMonthBase := cal.addMonths(cur, cfg.interval);
          var monthStart := cal.startOfMonth(nextMonthBase);
          var first := monthStart;
          if GetDay(monthStart) != cfg.monthWeekDay.value {
            first := NextDay(monthStart, cfg.monthWeekDay.value);
          }
          if cfg.monthWeek.value == -1 {
            nextDate := LastMatching(first, cal.endOfMonth(nextMonthBase));
          } else {
            nextDate := first + 7 * (cfg.monthWeek.value - 1);
          }
        } else if cfg.monthDay.Some? && cfg.monthDay.value != 0 {
          var tentative := cal.addMonths(cur, cfg.interval);
          var daysInMonth := DaysInMonth(cal, tentative);
          var desiredDay := if cfg.monthDay.value <= daysInMonth then cfg.monthDay.value else daysInMonth;
          nextDate := cal.setDate(tentative, desiredDay);
        } else {
          nextDate := cal.addMonths(cur, cfg.interval);
        }
      case Yearly =>
        nextDate := cal.addYears(cur, cfg.interval);
      case OtherFrequency =>
        nextDate := cur + 1;
    }
  }

  /** `generateRecurringDatesLogic`: the outer loop. */
  method GenerateRecurringDates(cal: Calendar, start: Day, cfg: RecurrenceConfig, limit: int) returns (dates: seq<Day>)
    ensures dates == RecurringDates(cal, start, cfg, limit)
  {
    dates := [];
    var currentDate := start;
    var end := EndDate(cal, start, cfg);
    var count: nat := 0;
    ghost var spec := RecurringDates(cal, start, cfg, limit);
    while count < limit && count < MaxCount
      invariant count <= MaxCount
      invariant dates + Occurrences(cal, cfg, end, limit, currentDate, count) == spec
      decreases MaxCount - count
    {
      if currentDate > end {
        break;
      }
      ghost var rest := Occurrences(cal, cfg, end, limit, NextDate(cal, cfg, currentDate), count + 1);
      assert Occurrences(cal, cfg, end, limit, currentDate, count) == [currentDate] + rest;
      assert (dates + [currentDate]) + rest == dates + ([currentDate] + rest);
      dates := dates + [currentDate];
      count := count + 1;
      currentDate := Next(cal, cfg, currentDate);
    }
    assert Occurrences(cal, cfg, end, limit, currentDate, count) == [];
    assert dates + [] == dates;
  }

  // ---- properties ----

  /** At most `limit` dates, at most 366, and none after the end date. */
  lemma {:induction false} OccurrencesBounded(cal: Calendar, cfg: RecurrenceConfig, end: Day, limit: int, cur: Day, count: nat)
    ensures |Occurrences(cal, cfg, end, limit, cur, count)| + count <= (if limit > count then limit else count)
    ensures |Occurrences(cal, cfg, end, limit, cur, count)| + count <= (if MaxCount > count then MaxCount else count)
    ensures forall d :: d in Occurrences(cal, cfg, end, limit, cur, count) ==> d <= end
    decreases MaxCount - count
  {
    if count < limit && count < MaxCount && cur <= end {
      OccurrencesBounded(cal, cfg, end, limit, NextDate(cal, cfg, cur), count + 1);
    }
  }

  /**
   * The result holds at most `limit` and at most 366 dates, none after the
   * user's end date or a year after the start, and starts with the start
   * date whenever that is in range and `limit` is positive.
   */
  lemma RecurringDatesBounded(cal: Calendar, start: Day, cfg: RecurrenceConfig, limit: int)
    ensures var ds := RecurringDates(cal, start, cfg, limit);
      && |ds| <= (if limit > 0 then limit else 0) && |ds| <= MaxCount
      && (forall d :: d in ds ==> d <= cal.addYears(start, 1))
      && (forall d :: d in ds && cfg.endDate.Some? ==> d <= cfg.endDate.value)
      && (0 < limit && start <= EndDate(cal, start, cfg) ==> ds != [] && ds[0] == start)
      && (start > EndDate(cal, start, cfg) ==> ds == [])
  {
    OccurrencesBounded(cal, cfg, EndDate(cal, start, cfg), limit, start, 0);
  }

  /** Daily dates step by `interval` days, weekly dates by `7 * interval` days. */
  lemma {:induction false} FixedSteps(cal: Calendar, cfg: RecurrenceConfig, end: Day, limit: int, cur: Day, count: nat, i: nat)
    requires cfg.frequency.Daily? || cfg.frequency.Weekly?
    requires i < |Occurrences(cal, cfg, end, limit, cur, count)|
    ensures Occurrences(cal, cfg, end, limit, cur, count)[i] ==
      cur + i * (if cfg.frequency.Daily? then cfg.interval else 7 * cfg.interval)
    decreases i
  {
    if i > 0 {
      FixedSteps(cal, cfg, end, limit, NextDate(cal, cfg, cur), count + 1, i - 1);
    }
  }

  /** The `i`-th date of a daily or weekly series is `start + i * step`. */
  lemma DailyAndWeeklyDates(cal: Calendar, start: Day, cfg: RecurrenceConfig, limit: int, i: nat)
    requires cfg.frequency.Daily? || cfg.frequency.Weekly?
    requires i < |RecurringDates(cal, start, cfg, limit)|
    ensures RecurringDates(cal, start, cfg, limit)[i] ==
      start + i * (if cfg.frequency.Daily? then cfg.interval else 7 * cfg.interval)
  {
    FixedSteps(cal, cfg, EndDate(cal, start, cfg), limit, start, 0, i);
  }

  /** What the lemmas rely on about `addYears`: adding at least one year moves forward. */
  ghost predicate YearsMoveForward(cal: Calendar)
  {
    forall d: Day, n: int {:trigger cal.addYears(d, n)} :: n >= 1 ==> cal.addYears(d, n) > d
  }

  /**
   * Yearly with interval 1 and no end date gives exactly the start and the
   * same day a year later: the one-year cap stops the series.
   */
  lemma YearlyStopsAfterOneYear(cal: Calendar, start: Day, cfg: RecurrenceConfig, limit: int)
    requires YearsMoveForward(cal)
    requires cfg.frequency.Yearly? && cfg.interval == 1 && cfg.endDate.None? && limit >= 2
    ensures RecurringDates(cal, start, cfg, limit) == [start, cal.addYears(start, 1)]
  {
    var y1 := cal.addYears(start, 1);
    var end := EndDate(cal, start, cfg);
    assert end == y1;
    assert cal.addYears(y1, 1) > y1;
    assert Occurrences(cal, cfg, end, limit, cal.addYears(y1, 1), 2) == [];
    assert Occurrences(cal, cfg, end, limit, y1, 1) == [y1];
  }

  /** What the lemmas rely on about the month operations. */
  ghost predicate MonthLaws(cal: Calendar)
  {
    && (forall d: Day {:trigger cal.startOfMonth(d)} :: cal.startOfMonth(d) <= d)
    && (forall d: Day {:trigger cal.endOfMonth(d)} ::
          d <= cal.endOfMonth(d) && cal.startOfMonth(cal.endOfMonth(d)) == cal.startOfMonth(d))
    && (forall d: Day, k: int {:trigger cal.setDate(d, k)} ::
          1 <= k <= DaysInMonth(cal, d) ==> cal.setDate(d, k) == cal.startOfMonth(d) + k - 1)
  }

  /**
   * Monthly by day of month: the next date falls in the target month on day
   * `min(monthDay, daysInMonth)`.
   */
  lemma MonthDaySnaps(cal: Calendar, cfg: RecurrenceConfig, cur: Day)
    requires MonthLaws(cal)
    requires cfg.frequency.Monthly? && !(cfg.monthWeek.Some? && cfg.monthWeekDay.Some?)
    requires cfg.monthDay.Some? && cfg.monthDay.value >= 1
    ensures var t := cal.addMonths(cur, cfg.interval);
      var n := DaysInMonth(cal, t);
      NextDate(cal, cfg, cur) == cal.startOfMonth(t) + (if cfg.monthDay.value <= n then cfg.monthDay.value else n) - 1
  {
    var t := cal.addMonths(cur, cfg.interval);
    assert cal.endOfMonth(t) >= t >= cal.startOfMonth(t);
    assert DaysInMonth(cal, t) >= 1;
  }

  /** The first occurrence of a weekday on or after `monthStart` lies within its first seven days. */
  lemma FirstWeekdayIsFirst(monthStart: Day, weekday: int)
    requires 0 <= weekday < 7
    ensures var f := FirstWeekday(monthStart, weekday);
      monthStart <= f < monthStart + 7 && GetDay(f) == weekday
  {
    var f := FirstWeekday(monthStart, weekday);
    var delta := weekday - GetDay(monthStart);
    if GetDay(monthStart) != weekday {
      var step := if delta <= 0 then delta + 7 else delta;
      assert f == monthStart + step && 0 < step < 7;
      assert (monthStart + step + 4) % 7 == ((monthStart + 4) % 7 + step) % 7;
    }
  }

  /** The inner loop ends on the last day `first + 7k` that is not after `monthEnd`. */
  lemma {:induction false} LastStepBeforeIsLast(first: Day, monthEnd: Day)
    ensures var r := LastStepBefore(first, monthEnd);
      && r >= first && (r - first) % 7 == 0 && r + 7 > monthEnd
      && (first <= monthEnd ==> r <= monthEnd)
    decreases monthEnd - first
  {
    if first + 7 <= monthEnd {
      LastStepBeforeIsLast(first + 7, monthEnd);
    }
  }

  /** Weekdays repeat every seven days. */
  lemma {:induction false} WeekdayPeriodic(d: Day, k: int)
    ensures GetDay(d + 7 * k) == GetDay(d)
    decreases if k < 0 then -k else k
  {
    if k > 0 {
      WeekdayPeriodic(d, k - 1);
      assert d + 7 * k == (d + 7 * (k - 1)) + 7;
    } else if k < 0 {
      WeekdayPeriodic(d, k + 1);
      assert d + 7 * k + 7 == d + 7 * (k + 1);
    }
  }

  /**
   * Monthly by weekday, N-th occurrence: the month's first such weekday
   * plus N-1 weeks, which is that weekday in the N-th seven days of the month.
   */
  lemma NthWeekdayOfMonth(cal: Calendar, cfg: RecurrenceConfig, cur: Day)
    requires cfg.frequency.Monthly? && cfg.monthWeek.Some? && cfg.monthWeekDay.Some?
    requires cfg.monthWeek.value != -1 && 0 <= cfg.monthWeekDay.value < 7
    ensures var ms := cal.startOfMonth(cal.addMonths(cur, cfg.interval));
      var n := NextDate(cal, cfg, cur);
      && n == FirstWeekday(ms, cfg.monthWeekDay.value) + 7 * (cfg.monthWeek.value - 1)
      && GetDay(n) == cfg.monthWeekDay.value
      && ms + 7 * (cfg.monthWeek.value - 1) <= n < ms + 7 * cfg.monthWeek.value
  {
    var ms := cal.startOfMonth(cal.addMonths(cur, cfg.interval));
    var f := FirstWeekday(ms, cfg.monthWeekDay.value);
    FirstWeekdayIsFirst(ms, cfg.monthWeekDay.value);
    WeekdayPeriodic(f, cfg.monthWeek.value - 1);
  }

  /**
   * Monthly by weekday, `-1`: the last such weekday of the month — on or
   * before the month's end with the next one after it (when the month has
   * one at all).
   */
  lemma LastWeekdayOfMonth(cal: Calendar, cfg: RecurrenceConfig, cur: Day)
    requires cfg.frequency.Monthly? && cfg.monthWeek == Some(-1) && cfg.monthWeekDay.Some?
    requires 0 <= cfg.monthWeekDay.value < 7
    ensures var base := cal.addMonths(cur, cfg.interval);
      var ms := cal.startOfMonth(base);
      var me := cal.endOfMonth(base);
      var n := NextDate(cal, cfg, cur);
      && GetDay(n) == cfg.monthWeekDay.value
      && n >= FirstWeekday(ms, cfg.monthWeekDay.value) >= ms
      && n + 7 > me
      && (FirstWeekday(ms, cfg.monthWeekDay.value) <= me ==> n <= me)
  {
    var base := cal.addMonths(cur, cfg.interval);
    var ms := cal.startOfMonth(base);
    var me := cal.endOfMonth(base);
    var f := FirstWeekday(ms, cfg.monthWeekDay.value);
    FirstWeekdayIsFirst(ms, cfg.monthWeekDay.value);
    LastStepBeforeIsLast(f, me);
    var n := LastStepBefore(f, me);
    var k := (n - f) / 7;
    assert n == f + 7 * k;
    WeekdayPeriodic(f, k);
  }
}

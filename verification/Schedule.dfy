/** When a scheduled task runs next (scheduler/scheduler.go), in a zone at a fixed offset from UTC. */
module Schedule {
  import opened Calendar
  import opened DataRequest

  datatype IntervalType = Once | Seconds | Minutes | Hours | Days | Weeks | Months | Years | UnknownInterval

  datatype TaskSchedule = TaskSchedule(
    interval: int,
    intervalType: IntervalType,
    runLastUnix: int,
    atDay: int,
    atHour: int,
    atMinute: int,
    atSecond: int)

  const STOPPED := -1

  predicate IsDated(t: IntervalType) {
    t.Days? || t.Weeks? || t.Months? || t.Years?
  }

  function AtSeconds(s: TaskSchedule): int {
    s.atHour * 3600 + s.atMinute * 60 + s.atSecond
  }

  // the local date of the last run
  function LastDate(f: Starts, s: TaskSchedule, offset: int): Date
    requires AllApart(f)
  {
    DateOf(f, ToLocal(s.runLastUnix, offset).day)
  }

  // the last run's date moved by the interval
  function MovedDay(f: Starts, s: TaskSchedule, offset: int): int
    requires AllApart(f) && IsDated(s.intervalType)
  {
    var d := LastDate(f, s, offset);
    match s.intervalType
    case Days => AddDate(f, d, 0, 0, s.interval)
    case Weeks => AddDate(f, d, 0, 0, s.interval * 7)
    case Months => AddDate(f, d, 0, s.interval, 0)
    case Years => AddDate(f, d, s.interval, 0, 0)
  }

  // the day of the next run
  function TargetDay(f: Starts, s: TaskSchedule, offset: int): int
    requires AllApart(f) && IsDated(s.intervalType)
  {
    var moved := MovedDay(f, s, offset);
    var d := DateOf(f, moved);
    match s.intervalType
    case Days => DayNumber(f, d)
    case Weeks => DayNumber(f, d.(day := d.day + if s.atDay <= 6 then s.atDay - Weekday(moved) else 0))
    case Months => DayNumber(f, d.(day := s.atDay))
    case Years => DayNumber(f, d.(month := 1, day := s.atDay))
  }

  function NextRun(f: Starts, s: TaskSchedule, offset: int, now: int): int
    requires AllApart(f)
  {
    match s.intervalType
    case Once => if s.runLastUnix != 0 then STOPPED else now
    case Seconds => s.runLastUnix + s.interval
    case Minutes => s.runLastUnix + s.interval * 60
    case Hours => s.runLastUnix + s.interval * 3600
    case UnknownInterval => 0
    case _ => TargetDay(f, s, offset) * DAY + AtSeconds(s) - offset
  }

  method GetNextRunFromSchedule(f: Starts, s: TaskSchedule, offset: int, now: int) returns (r: int)
    requires AllApart(f)
    ensures r == NextRun(f, s, offset, now)
  {
    if s.intervalType.Once? {
      if s.runLastUnix != 0 {
        return STOPPED;
      }
      return now;
    }
    match s.intervalType {
      case Seconds => return s.runLastUnix + s.interval;
      case Minutes => return s.runLastUnix + s.interval * 60;
      case Hours => return s.runLastUnix + s.interval * 60 * 60;
      case _ =>
    }
    var tm := DateOf(f, ToLocal(s.runLastUnix, offset).day);
    var day;
    match s.intervalType {
      case Days => day := AddDate(f, tm, 0, 0, s.interval);
      case Weeks => day := AddDate(f, tm, 0, 0, s.interval * 7);
      case Months => day := AddDate(f, tm, 0, s.interval, 0);
      case Years => day := AddDate(f, tm, s.interval, 0, 0);
      case _ => return 0;
    }
    tm := DateOf(f, day);
    var targetDay, targetMonth := tm.day, tm.month;
    match s.intervalType {
      case Weeks =>
        if s.atDay <= 6 {
          targetDay := targetDay + s.atDay - Weekday(day);
        }
      case Months =>
        targetDay := s.atDay;
      case Years =>
        targetMonth := 1;
        targetDay := s.atDay;
      case _ =>
    }
    var target := DayNumber(f, Date(tm.year, targetMonth, targetDay));
    return target * DAY + s.atHour * 3600 + s.atMinute * 60 + s.atSecond - offset;
  }

  // ---- properties

  predicate IsRecurring(s: TaskSchedule) {
    !s.intervalType.Once? && !s.intervalType.UnknownInterval?
  }

  // what a valid schedule states at least: an interval, no negative time of day, and a day of the month
  // or year that exists
  predicate IsValid(s: TaskSchedule) {
    && s.interval >= 1
    && s.atHour >= 0 && s.atMinute >= 0 && s.atSecond >= 0
    && (s.intervalType.Weeks? ==> s.atDay >= 0)
    && (s.intervalType.Months? || s.intervalType.Years? ==> s.atDay >= 1)
  }

  // a later month starts after the last day of an earlier one
  lemma LaterMonth(f: Starts, d: Date, day: int, k: int)
    requires AllApart(f) && d == DateOf(f, day) && MonthIndex(d) < k
    ensures day < f(k)
  {
    StartsInOrder(f, MonthIndex(d) + 1, k);
  }

  lemma SameOrLaterMonth(f: Starts, day: int, k: int)
    requires AllApart(f) && f(k) <= day
    ensures k <= MonthIndex(DateOf(f, day))
  {
    var m := MonthIndex(DateOf(f, day));
    if m < k {
      LaterMonth(f, DateOf(f, day), day, k);
    }
  }

  lemma TargetDayIsLater(f: Starts, s: TaskSchedule, offset: int)
    requires AllApart(f) && IsDated(s.intervalType) && IsValid(s)
    ensures ToLocal(s.runLastUnix, offset).day < TargetDay(f, s, offset)
  {
    var last := ToLocal(s.runLastUnix, offset).day;
    var d := LastDate(f, s, offset);
    var moved := MovedDay(f, s, offset);
    var m := DateOf(f, moved);
    match s.intervalType {
      case Days =>
      case Weeks =>
      case Months =>
        SameOrLaterMonth(f, moved, MonthIndex(d) + s.interval);
        LaterMonth(f, d, last, MonthIndex(m));
      case Years =>
        SameOrLaterMonth(f, moved, MonthIndex(d) + 12 * s.interval);
        LaterMonth(f, d, last, 12 * m.year);
      case _ =>
    }
  }

  // Every recurring schedule runs strictly later than it did last.
  lemma NextRunIsLater(f: Starts, s: TaskSchedule, offset: int, now: int)
    requires AllApart(f) && IsRecurring(s) && IsValid(s)
    ensures s.runLastUnix < NextRun(f, s, offset, now)
  {
    if IsDated(s.intervalType) {
      TargetDayIsLater(f, s, offset);
      LocalRoundTrip(s.runLastUnix, offset);
    }
  }

  predicate TimeInRange(s: TaskSchedule) {
    0 <= s.atHour < 24 && 0 <= s.atMinute < 60 && 0 <= s.atSecond < 60
  }

  // the local time of the next run is the scheduled one
  lemma RunsAtTime(f: Starts, s: TaskSchedule, offset: int, now: int)
    requires AllApart(f) && IsDated(s.intervalType) && TimeInRange(s)
    ensures var local := ToLocal(NextRun(f, s, offset, now), offset);
            && local.day == TargetDay(f, s, offset)
            && local.second / 3600 == s.atHour && local.second % 3600 / 60 == s.atMinute
            && local.second % 60 == s.atSecond
  {
    DaysAndSeconds(TargetDay(f, s, offset), AtSeconds(s));
  }

  lemma DaysAndSeconds(day: int, second: int)
    requires 0 <= second < DAY
    ensures (day * DAY + second) / DAY == day && (day * DAY + second) % DAY == second
  {
  }

  // the week of a day, from Sunday to Saturday
  function WeekOf(day: int): int {
    (day + 4) / 7
  }

  // A weekly schedule runs on its weekday, in the week that is as many weeks later as its interval says;
  // without a weekday it runs on the weekday of the last run.
  lemma WeeklyRun(f: Starts, s: TaskSchedule, offset: int, now: int)
    requires AllApart(f) && s.intervalType.Weeks? && IsValid(s) && TimeInRange(s)
    ensures var last, next := ToLocal(s.runLastUnix, offset).day, ToLocal(NextRun(f, s, offset, now), offset).day;
            && WeekOf(next) == WeekOf(last) + s.interval
            && Weekday(next) == if s.atDay <= 6 then s.atDay else Weekday(last)
  {
    RunsAtTime(f, s, offset, now);
    var last := ToLocal(s.runLastUnix, offset).day;
    var moved := MovedDay(f, s, offset);
    assert moved == last + 7 * s.interval;
    WeeksLater(last, s.interval);
    if s.atDay <= 6 {
      assert TargetDay(f, s, offset) == moved + s.atDay - Weekday(moved);
      WeekdayShift(moved, s.atDay);
    } else {
      assert TargetDay(f, s, offset) == moved;
    }
  }

  lemma WeeksLater(day: int, n: int)
    ensures WeekOf(day + 7 * n) == WeekOf(day) + n && Weekday(day + 7 * n) == Weekday(day)
  {
  }

  lemma WeekdayShift(day: int, weekday: int)
    requires 0 <= weekday <= 6
    ensures var d := day + weekday - Weekday(day); Weekday(d) == weekday && WeekOf(d) == WeekOf(day)
  {
    var w := (day + 4) / 7;
    assert day + 4 == 7 * w + Weekday(day);
    assert day + weekday - Weekday(day) + 4 == 7 * w + weekday;
  }

  // the time of the k-th run after the last one, if every run is on time
  function RunAgain(f: Starts, s: TaskSchedule, offset: int, now: int, k: nat): int
    requires AllApart(f)
  {
    if k == 0 then s.runLastUnix
    else NextRun(f, s.(runLastUnix := RunAgain(f, s, offset, now, k - 1)), offset, now)
  }

  // Runs by the second, minute or hour are evenly spaced, whatever the zone and the time at which the next
  // run is planned: sixty of one unit take as long as one of the next.
  lemma {:induction false} EvenlySpaced(f: Starts, s: TaskSchedule, offset: int, now: int, k: nat)
    requires AllApart(f)
    ensures s.intervalType.Seconds? ==> RunAgain(f, s, offset, now, k) == s.runLastUnix + k * s.interval
    ensures s.intervalType.Minutes? ==> RunAgain(f, s, offset, now, k) == s.runLastUnix + 60 * (k * s.interval)
    ensures s.intervalType.Hours? ==> RunAgain(f, s, offset, now, k) == s.runLastUnix + 60 * 60 * (k * s.interval)
  {
    if k > 0 {
      EvenlySpaced(f, s, offset, now, k - 1);
      assert k * s.interval == (k - 1) * s.interval + s.interval;
    }
  }

  // What runs once is planned for the moment it is looked at, and once it has run there is no next time. An
  // interval of another kind gives time 0.
  lemma OnceRunsOnce(f: Starts, s: TaskSchedule, offset: int, now: int, later: int)
    requires AllApart(f) && now != 0
    ensures s.intervalType.Once? ==> NextRun(f, s.(runLastUnix := 0), offset, now) == now
    ensures s.intervalType.Once? ==> NextRun(f, s.(runLastUnix := now), offset, later) == -1
    ensures s.intervalType.UnknownInterval? ==> NextRun(f, s, offset, now) == 0
  {
  }

  lemma DailyRun(f: Starts, s: TaskSchedule, offset: int, now: int)
    requires AllApart(f) && s.intervalType.Days? && TimeInRange(s)
    ensures ToLocal(NextRun(f, s, offset, now), offset).day == ToLocal(s.runLastUnix, offset).day + s.interval
    ensures NextRun(f, s, offset, now) + offset ==
            ((s.runLastUnix + offset) / (24 * 3600) + s.interval) * (24 * 3600) +
            s.atHour * 3600 + s.atMinute * 60 + s.atSecond
  {
    RunsAtTime(f, s, offset, now);
  }

  // A monthly schedule runs in the month its interval points to if and only if that month has the day of
  // the last run; otherwise it runs in the month after.
  lemma MonthlyRun(f: Starts, s: TaskSchedule, offset: int)
    requires AllApart(f) && s.intervalType.Months? && IsValid(s)
    ensures var d := LastDate(f, s, offset);
            var k := MonthIndex(d) + s.interval;
            TargetDay(f, s, offset) == (if d.day <= f(k + 1) - f(k) then f(k) else f(k + 1)) + s.atDay - 1
  {
    var d := LastDate(f, s, offset);
    var k := MonthIndex(d) + s.interval;
    var moved := MovedDay(f, s, offset);
    var m := MonthIndex(DateOf(f, moved));
    assert moved == f(k) + d.day - 1;
    assert Apart(f, k) && Apart(f, k + 1);
    FoundOnce(f, moved, m, if d.day <= f(k + 1) - f(k) then k else k + 1);
  }

  // So it runs on its day of the month the interval points to if and only if that month has both this day
  // and the day of the last run. Days beyond the end of a month carry over into the next.
  lemma MonthlyRunOnDay(f: Starts, s: TaskSchedule, offset: int)
    requires AllApart(f) && s.intervalType.Months? && IsValid(s)
    ensures var d, date := LastDate(f, s, offset), DateOf(f, TargetDay(f, s, offset));
            var k := MonthIndex(d) + s.interval;
            (MonthIndex(date) == k && date.day == s.atDay) <==> d.day <= f(k + 1) - f(k) && s.atDay <= f(k + 1) - f(k)
  {
    var d := LastDate(f, s, offset);
    var k := MonthIndex(d) + s.interval;
    MonthlyRun(f, s, offset);
    var target := TargetDay(f, s, offset);
    var m := MonthIndex(DateOf(f, target));
    assert Apart(f, k);
    if d.day <= f(k + 1) - f(k) && s.atDay <= f(k + 1) - f(k) {
      FoundOnce(f, target, m, k);
    }
  }

  // A run on the 31st of a month before one with 28 days, with an interval of one month: the next run is two
  // months later.
  lemma RunSkipsShortMonth(f: Starts, year: int) returns (s: TaskSchedule)
    requires AllApart(f) && f(12 * year + 1) - f(12 * year) == 31
    requires f(12 * year + 2) - f(12 * year + 1) == 28 && f(12 * year + 3) - f(12 * year + 2) == 31
    ensures s.intervalType.Months? && s.interval == 1 && IsValid(s)
    ensures LastDate(f, s, 0) == Date(year, 1, 31)
    ensures DateOf(f, TargetDay(f, s, 0)) == Date(year, 3, 31)
  {
    var january, march := Date(year, 1, 31), Date(year, 3, 31);
    var last := DayNumber(f, january);
    s := TaskSchedule(1, Months, last * DAY, 31, 0, 0, 0);
    assert ToLocal(last * DAY, 0).day == last;
    DatesRoundTrip(f, january);
    DatesRoundTrip(f, march);
    MonthlyRun(f, s, 0);
  }

  // A task that ran on January 31, 2023 and runs every month is planned for March 31.
  lemma RunSkipsFebruary() returns (s: TaskSchedule)
    ensures AllApart(MonthStart) && s.intervalType.Months? && s.interval == 1 && IsValid(s)
    ensures LastDate(MonthStart, s, 0) == Date(2023, 1, 31)
    ensures DateOf(MonthStart, TargetDay(MonthStart, s, 0)) == Date(2023, 3, 31)
  {
    MonthsApart();
    MonthsOf2023();
    s := RunSkipsShortMonth(MonthStart, 2023);
  }

  lemma MonthsOf2023()
    ensures MonthStart(24276) == 19358 && MonthStart(24277) == 19389 && MonthStart(24278) == 19417 &&
            MonthStart(24279) == 19448
  {
    MonthOf2023(0, 0);
    MonthOf2023(1, 31);
    MonthOf2023(2, 59);
    MonthOf2023(3, 90);
  }

  lemma MonthOf2023(m: int, before: int)
    requires 0 <= m < 12 && DaysBefore(m) == before
    ensures MonthStart(24276 + m) == 19358 + before
  {
    assert (24276 + m) / 12 == 2023 && (24276 + m) % 12 == m;
    assert YearStart(2023) == 19358 && !IsLeap(2023);
  }

  ghost predicate December(f: Starts, y: int) {
    f(12 * y + 12) - f(12 * y + 11) == 31
  }

  ghost predicate DecembersEnd(f: Starts) {
    forall y :: December(f, y)
  }

  // A yearly schedule counts its day from January 1 of the year its interval points to.
  lemma YearlyRun(f: Starts, s: TaskSchedule, offset: int)
    requires AllApart(f) && s.intervalType.Years? && IsValid(s)
    requires DecembersEnd(f)
    ensures TargetDay(f, s, offset) == f(12 * (LastDate(f, s, offset).year + s.interval)) + s.atDay - 1
  {
    var d := LastDate(f, s, offset);
    var y := d.year + s.interval;
    var moved := MovedDay(f, s, offset);
    var k := 12 * y + d.month - 1;
    var m := MonthIndex(DateOf(f, moved));
    assert moved == f(k) + d.day - 1;
    assert Apart(f, k) && Apart(f, k + 1);
    if d.month == 12 {
      assert December(f, y);
    }
    FoundOnce(f, moved, m, if d.day <= f(k + 1) - f(k) then k else k + 1);
  }

  lemma GregorianDecember(y: int)
    ensures December(MonthStart, y)
  {
    YearLength(y);
    assert (12 * y + 12) / 12 == y + 1 && (12 * y + 11) / 12 == y;
  }

  // The Gregorian calendar is such a calendar, so all of the above holds with MonthStart.
  lemma GregorianMonths()
    ensures AllApart(MonthStart) && DecembersEnd(MonthStart)
  {
    MonthsApart();
    forall y
      ensures December(MonthStart, y)
    {
      GregorianDecember(y);
    }
  }

  // ---- the schedule of a task that comes first

  // The earliest run of all schedules that are not stopped, whatever order they are looked at.
  method GetNextRunScheduleFromTask(f: Starts, schedules: map<Id, TaskSchedule>, offset: int, now: int)
    returns (nextRun: int, nextRunId: Id)
    requires AllApart(f)
    ensures schedules == map[] ==> nextRun == STOPPED && nextRunId == NIL
    ensures schedules != map[] ==> nextRunId in schedules && NextRun(f, schedules[nextRunId], offset, now) == nextRun
    ensures nextRun == STOPPED <==> forall id :: id in schedules ==> NextRun(f, schedules[id], offset, now) == STOPPED
    ensures nextRun != STOPPED ==>
              forall id :: id in schedules ==>
                NextRun(f, schedules[id], offset, now) == STOPPED || nextRun <= NextRun(f, schedules[id], offset, now)
  {
    nextRun, nextRunId := STOPPED, NIL;
    var left := schedules.Keys;
    while left != {}
      invariant left <= schedules.Keys
      invariant left == schedules.Keys ==> nextRun == STOPPED && nextRunId == NIL
      invariant left != schedules.Keys ==>
                  nextRunId in schedules && NextRun(f, schedules[nextRunId], offset, now) == nextRun
      invariant nextRun == STOPPED ==>
                  forall id :: id in schedules && id !in left ==> NextRun(f, schedules[id], offset, now) == STOPPED
      invariant nextRun != STOPPED ==>
                  forall id :: id in schedules && id !in left ==>
                    NextRun(f, schedules[id], offset, now) == STOPPED ||
                        nextRun <= NextRun(f, schedules[id], offset, now)
    {
      var id :| id in left;
      var next := GetNextRunFromSchedule(f, schedules[id], offset, now);
      if nextRun == STOPPED || (next != STOPPED && next < nextRun) {
        nextRun, nextRunId := next, id;
      }
      left := left - {id};
    }
  }
}

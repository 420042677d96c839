/** Dates of the Gregorian calendar as day numbers (0 is 1970-01-01), with the normalization that a
    date's month and day may lie outside of their usual range. */
module Calendar {

  const DAY := 86400

  // days before January 1 of a year
  function YearStart(y: int): int {
    365 * (y - 1970) + Leaps(y - 1) - Leaps(1969)
  }

  // leap years up to and including y
  function Leaps(y: int): int {
    y / 4 - y / 100 + y / 400
  }

  predicate IsLeap(y: int) {
    y % 4 == 0 && (y % 100 != 0 || y % 400 == 0)
  }

  // days of a common year before month m of 0..12
  function DaysBefore(m: int): int
    requires 0 <= m <= 12
  {
    [0, 31, 59, 90, 120, 151, 181, 212, 243, 273, 304, 334, 365][m]
  }

  // Months are counted through: month k belongs to year k / 12 and is its month k % 12 + 1.
  function MonthStart(k: int): int {
    YearStart(k / 12) + DaysBefore(k % 12) + if k % 12 >= 2 && IsLeap(k / 12) then 1 else 0
  }

  lemma YearLength(y: int)
    ensures YearStart(y + 1) == YearStart(y) + 365 + if IsLeap(y) then 1 else 0
  {
    LeapStep(y);
  }

  lemma LeapStep(y: int)
    ensures Leaps(y) == Leaps(y - 1) + if IsLeap(y) then 1 else 0
  {
    Step(y, 4);
    Step(y, 100);
    Step(y, 400);
  }

  lemma Step(y: int, n: int)
    requires n == 4 || n == 100 || n == 400
    ensures y / n == (y - 1) / n + if y % n == 0 then 1 else 0
  {
  }

  lemma MonthLength(k: int)
    ensures 28 <= MonthStart(k + 1) - MonthStart(k) <= 31
  {
    var y, m := k / 12, k % 12;
    YearLength(y);
    if m < 11 {
      assert (k + 1) / 12 == y && (k + 1) % 12 == m + 1;
    } else {
      assert (k + 1) / 12 == y + 1 && (k + 1) % 12 == 0;
    }
  }

  // ---- finding a day among starts that lie 28 to 31 days apart

  type Starts = int -> int

  ghost predicate Apart(f: Starts, k: int) {
    28 <= f(k + 1) - f(k) <= 31
  }

  ghost predicate AllApart(f: Starts) {
    forall k :: Apart(f, k)
  }

  lemma {:induction false} StartsInOrder(f: Starts, k: int, l: int)
    requires AllApart(f) && k <= l
    ensures f(k) + 28 * (l - k) <= f(l)
    decreases l - k
  {
    if k < l {
      StartsInOrder(f, k, l - 1);
      assert Apart(f, l - 1);
    }
  }

  function Find(f: Starts, day: int, k: int): (r: int)
    requires AllApart(f)
    ensures f(r) <= day < f(r + 1)
    decreases if day < f(k) then f(k) - day + 31 else day - f(k)
  {
    assert Apart(f, k) && Apart(f, k - 1);
    if day < f(k) then Find(f, day, k - 1) else if day >= f(k + 1) then Find(f, day, k + 1) else k
  }

  lemma FoundOnce(f: Starts, day: int, k: int, l: int)
    requires AllApart(f)
    requires f(k) <= day < f(k + 1) && f(l) <= day < f(l + 1)
    ensures k == l
  {
    if k < l {
      StartsInOrder(f, k + 1, l);
    } else if l < k {
      StartsInOrder(f, l + 1, k);
    }
  }

  lemma MonthsApart()
    ensures AllApart(MonthStart)
  {
    forall k
      ensures Apart(MonthStart, k)
    {
      MonthLength(k);
    }
  }

  // ---- dates, given where months start (MonthStart)

  // a date, months 1..12 and days 1..31 unless it is to be normalized
  datatype Date = Date(year: int, month: int, day: int)

  function MonthIndex(d: Date): int {
    12 * d.year + d.month - 1
  }

  // the day number of a date; months and days out of range carry over
  function DayNumber(f: Starts, d: Date): int {
    f(MonthIndex(d)) + d.day - 1
  }

  function DateOf(f: Starts, day: int): (d: Date)
    requires AllApart(f)
    ensures DayNumber(f, d) == day && day < f(MonthIndex(d) + 1)
    ensures 1 <= d.month <= 12 && 1 <= d.day <= 31
  {
    var k := Find(f, day, 12 * 1970);
    assert Apart(f, k);
    Date(k / 12, k % 12 + 1, day - f(k) + 1)
  }

  ghost predicate IsRegular(f: Starts, d: Date) {
    1 <= d.month <= 12 && 1 <= d.day <= f(MonthIndex(d) + 1) - f(MonthIndex(d))
  }

  // Regular dates and day numbers correspond one to one.
  lemma DatesRoundTrip(f: Starts, d: Date)
    requires AllApart(f) && IsRegular(f, d)
    ensures DateOf(f, DayNumber(f, d)) == d
  {
    var e := DateOf(f, DayNumber(f, d));
    FoundOnce(f, DayNumber(f, d), MonthIndex(d), MonthIndex(e));
  }

  // a date moved by years, months and days
  function AddDate(f: Starts, d: Date, years: int, months: int, days: int): int {
    DayNumber(f, Date(d.year + years, d.month + months, d.day + days))
  }

  // 0 is Sunday
  function Weekday(day: int): int {
    (day + 4) % 7
  }

  // ---- points in time, in a zone at a fixed offset from UTC

  datatype Local = Local(day: int, second: nat)

  function ToLocal(unix: int, offset: int): (l: Local)
    ensures l.second < DAY
  {
    Local((unix + offset) / DAY, (unix + offset) % DAY)
  }

  function ToUnix(l: Local, offset: int): int {
    l.day * DAY + l.second - offset
  }

  lemma LocalRoundTrip(unix: int, offset: int)
    ensures ToUnix(ToLocal(unix, offset), offset) == unix
  {
  }
}

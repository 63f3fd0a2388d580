/**
 * Naive proleptic Gregorian calendar dates: the part of date-fns the views
 * rely on (`addDays`, `startOfWeek`, `endOfWeek`, `startOfMonth`,
 * `endOfMonth`, `eachDayOfInterval`, `addMonths`, `isSameMonth`), stated on
 * (year, month, day) triples without time of day or time zone.
 */
module Dates {

  datatype Date = Date(year: int, month: int, day: int)

  predicate IsLeapYear(y: int) {
    y % 4 == 0 && (y % 100 != 0 || y % 400 == 0)
  }

  function DaysInMonth(y: int, m: int): (n: int)
    requires 1 <= m <= 12
    ensures 28 <= n <= 31
    ensures m == 2 ==> (n == 29 <==> IsLeapYear(y))
  {
    if m == 2 then (if IsLeapYear(y) then 29 else 28)
    else if m == 4 || m == 6 || m == 9 || m == 11 then 30
    else 31
  }

  predicate ValidDate(d: Date) {
    1 <= d.month <= 12 && 1 <= d.day <= DaysInMonth(d.year, d.month)
  }

  /** A date that exists on the calendar; every JavaScript `Date` the views handle is one. */
  type CalendarDate = d: Date | ValidDate(d) witness Date(1970, 1, 1)

  function DaysInYear(y: int): int {
    if IsLeapYear(y) then 366 else 365
  }

  /** Days from 1 January of year 1 to 1 January of year `y` (negative before year 1). */
  function DaysBeforeYear(y: int): int {
    var p := y - 1;
    365 * p + p / 4 - p / 100 + p / 400
  }

  /** Days from 1 January to the first day of month `m` in year `y`. */
  function DaysBeforeMonth(y: int, m: int): int
    requires 1 <= m <= 12
  {
    var common :=
      if m == 1 then 0 else if m == 2 then 31 else if m == 3 then 59
      else if m == 4 then 90 else if m == 5 then 120 else if m == 6 then 151
      else if m == 7 then 181 else if m == 8 then 212 else if m == 9 then 243
      else if m == 10 then 273 else if m == 11 then 304 else 334;
    common + (if m > 2 && IsLeapYear(y) then 1 else 0)
  }

  /** The day number: 0 for 1 January of year 1, consecutive across month and year ends. */
  function DayNumber(d: CalendarDate): int {
    DaysBeforeYear(d.year) + DaysBeforeMonth(d.year, d.month) + d.day - 1
  }

  lemma DaysBeforeYearStep(y: int)
    ensures DaysBeforeYear(y + 1) == DaysBeforeYear(y) + DaysInYear(y)
  {
    FloorStep(y);
  }

  /** How each of the three leap-year quotients changes from `y - 1` to `y`. */
  lemma FloorStep(y: int)
    ensures y / 4 - (y - 1) / 4 == if y % 4 == 0 then 1 else 0
    ensures y / 100 - (y - 1) / 100 == if y % 100 == 0 then 1 else 0
    ensures y / 400 - (y - 1) / 400 == if y % 400 == 0 then 1 else 0
    ensures y % 400 == 0 ==> y % 100 == 0
    ensures y % 100 == 0 ==> y % 4 == 0
  {
  }

  lemma {:induction false} DaysBeforeYearMonotone(a: int, b: int)
    requires a < b
    ensures DaysBeforeYear(a + 1) <= DaysBeforeYear(b)
    decreases b - a
  {
    if a + 1 < b {
      DaysBeforeYearMonotone(a, b - 1);
      DaysBeforeYearStep(b - 1);
    }
  }

  lemma DayNumberWithinYear(d: CalendarDate)
    ensures DaysBeforeYear(d.year) <= DayNumber(d) < DaysBeforeYear(d.year + 1)
  {
    DaysBeforeYearStep(d.year);
  }

  lemma DaysBeforeMonthMonotone(y: int, m: int, n: int)
    requires 1 <= m < n <= 12
    ensures DaysBeforeMonth(y, m) + DaysInMonth(y, m) <= DaysBeforeMonth(y, n)
  {
  }

  /** Two calendar dates with the same day number are the same date. */
  lemma DayNumberInjective(a: CalendarDate, b: CalendarDate)
    requires DayNumber(a) == DayNumber(b)
    ensures a == b
  {
    DayNumberWithinYear(a);
    DayNumberWithinYear(b);
    if a.year < b.year {
      DaysBeforeYearMonotone(a.year, b.year);
    } else if b.year < a.year {
      DaysBeforeYearMonotone(b.year, a.year);
    } else if a.month < b.month {
      DaysBeforeMonthMonotone(a.year, a.month, b.month);
    } else if b.month < a.month {
      DaysBeforeMonthMonotone(a.year, b.month, a.month);
    }
  }

  /** Month `m + 1` starts `DaysInMonth(y, m)` days after month `m`. */
  lemma DaysBeforeMonthStep(y: int, m: int)
    requires 1 <= m < 12
    ensures DaysBeforeMonth(y, m + 1) == DaysBeforeMonth(y, m) + DaysInMonth(y, m)
  {
  }

  /** The calendar day after `d`. */
  function NextDay(d: CalendarDate): (r: CalendarDate)
    ensures DayNumber(r) == DayNumber(d) + 1
  {
    if d.day < DaysInMonth(d.year, d.month) then Date(d.year, d.month, d.day + 1)
    else if d.month < 12 then
      DaysBeforeMonthStep(d.year, d.month);
      Date(d.year, d.month + 1, 1)
    else
      DaysBeforeYearStep(d.year);
      Date(d.year + 1, 1, 1)
  }

  /** The calendar day before `d`. */
  function PrevDay(d: CalendarDate): (r: CalendarDate)
    ensures DayNumber(r) == DayNumber(d) - 1
  {
    if d.day > 1 then Date(d.year, d.month, d.day - 1)
    else if d.month > 1 then
      DaysBeforeMonthStep(d.year, d.month - 1);
      Date(d.year, d.month - 1, DaysInMonth(d.year, d.month - 1))
    else
      DaysBeforeYearStep(d.year - 1);
      Date(d.year - 1, 12, 31)
  }


  /** date-fns `addDays(d, n)`, for any sign of `n`. */
  function AddDays(d: CalendarDate, n: int): (r: CalendarDate)
    ensures DayNumber(r) == DayNumber(d) + n
    decreases if n < 0 then -n else n
  {
    if n == 0 then d
    else if n > 0 then AddDays(NextDay(d), n - 1)
    else AddDays(PrevDay(d), n + 1)
  }

  /** The date whose day number is `n`: the inverse of `DayNumber`. */
  function FromDayNumber(n: int): (r: CalendarDate)
    ensures DayNumber(r) == n
  {
    AddDays(Date(1, 1, 1), n)
  }

  lemma FromDayNumberOfDayNumber(d: CalendarDate)
    ensures FromDayNumber(DayNumber(d)) == d
  {
    DayNumberInjective(FromDayNumber(DayNumber(d)), d);
  }

  lemma AddDaysAdditive(d: CalendarDate, a: int, b: int)
    ensures AddDays(AddDays(d, a), b) == AddDays(d, a + b)
  {
    DayNumberInjective(AddDays(AddDays(d, a), b), AddDays(d, a + b));
  }

  /** The day of the week, Sunday = 0 to Saturday = 6 (date-fns `getDay`); 1 January of year 1 is a Monday. */
  function Weekday(d: CalendarDate): (w: int)
    ensures 0 <= w < 7
  {
    (DayNumber(d) + 1) % 7
  }

  lemma WeekdayAddDays(d: CalendarDate, n: int)
    ensures Weekday(AddDays(d, n)) == (Weekday(d) + n) % 7
  {
    WeekdayShift(d, AddDays(d, n), n);
  }

  // Arithmetic on plain integers, kept apart from DayNumber so that the solver
  // does not mix these remainders with the leap-year divisions.

  lemma ShiftMod7(x: int, n: int)
    ensures (x + n) % 7 == (x % 7 + n) % 7
  {
  }

  lemma SundayBefore(x: int, w: int, r: int)
    requires w == (x + 1) % 7 && r == x - w
    ensures (r + 1) % 7 == 0
  {
  }

  lemma SaturdayAfter(x: int, w: int, r: int)
    requires w == (x + 1) % 7 && r == x + 6 - w
    ensures (r + 1) % 7 == 6
  {
  }

  lemma SundayInWindow(x: int, w: int, y: int)
    requires w == (x + 1) % 7 && (y + 1) % 7 == 0 && x - 6 <= y <= x
    ensures y == x - w
  {
  }

  lemma SaturdayInWindow(x: int, w: int, y: int)
    requires w == (x + 1) % 7 && (y + 1) % 7 == 6 && x <= y <= x + 6
    ensures y == x + 6 - w
  {
  }

  /** date-fns `startOfWeek(d, { weekStartsOn: 0 })`: the Sunday on or before `d`. */
  function StartOfWeek(d: CalendarDate): (r: CalendarDate)
    ensures Weekday(r) == 0
    ensures DayNumber(r) == DayNumber(d) - Weekday(d)
    ensures DayNumber(d) - 6 <= DayNumber(r) <= DayNumber(d)
  {
    ToSunday(d);
    AddDays(d, -Weekday(d))
  }

  lemma ToSunday(d: CalendarDate)
    ensures var r := AddDays(d, -Weekday(d));
      Weekday(r) == 0 && DayNumber(r) == DayNumber(d) - Weekday(d)
  {
    var r := AddDays(d, -Weekday(d));
    SundayOf(d, r);
  }

  lemma SundayOf(d: CalendarDate, r: CalendarDate)
    requires DayNumber(r) == DayNumber(d) - Weekday(d)
    ensures Weekday(r) == 0
  {
    SundayBefore(DayNumber(d), Weekday(d), DayNumber(r));
  }

  /** date-fns `endOfWeek(d)` with weeks starting on Sunday: the Saturday on or after `d`. */
  function EndOfWeek(d: CalendarDate): (r: CalendarDate)
    ensures Weekday(r) == 6
    ensures DayNumber(r) == DayNumber(d) + 6 - Weekday(d)
    ensures DayNumber(d) <= DayNumber(r) <= DayNumber(d) + 6
  {
    ToSaturday(d);
    AddDays(d, 6 - Weekday(d))
  }

  lemma ToSaturday(d: CalendarDate)
    ensures var r := AddDays(d, 6 - Weekday(d));
      Weekday(r) == 6 && DayNumber(r) == DayNumber(d) + 6 - Weekday(d)
  {
    var r := AddDays(d, 6 - Weekday(d));
    SaturdayOf(d, r);
  }

  lemma SaturdayOf(d: CalendarDate, r: CalendarDate)
    requires DayNumber(r) == DayNumber(d) + 6 - Weekday(d)
    ensures Weekday(r) == 6
  {
    SaturdayAfter(DayNumber(d), Weekday(d), DayNumber(r));
  }

  /** Only one Sunday lies in the seven days ending on `d`, so `StartOfWeek` is the Sunday on or before `d`. */
  lemma StartOfWeekUnique(d: CalendarDate, s: CalendarDate)
    requires Weekday(s) == 0 && DayNumber(d) - 6 <= DayNumber(s) <= DayNumber(d)
    ensures s == StartOfWeek(d)
  {
    SundayInWindow(DayNumber(d), Weekday(d), DayNumber(s));
    DayNumberInjective(s, StartOfWeek(d));
  }

  /** Only one Saturday lies in the seven days starting on `d`. */
  lemma EndOfWeekUnique(d: CalendarDate, s: CalendarDate)
    requires Weekday(s) == 6 && DayNumber(d) <= DayNumber(s) <= DayNumber(d) + 6
    ensures s == EndOfWeek(d)
  {
    SaturdayInWindow(DayNumber(d), Weekday(d), DayNumber(s));
    DayNumberInjective(s, EndOfWeek(d));
  }

  /** Two dates `n` days apart are `n` weekdays apart, modulo 7. */
  lemma WeekdayShift(a: CalendarDate, b: CalendarDate, n: int)
    requires DayNumber(b) == DayNumber(a) + n
    ensures Weekday(b) == (Weekday(a) + n) % 7
  {
    ShiftMod7(DayNumber(a) + 1, n);
  }

  function StartOfMonth(d: CalendarDate): (r: CalendarDate)
    ensures r.year == d.year && r.month == d.month && r.day == 1
  {
    Date(d.year, d.month, 1)
  }

  function EndOfMonth(d: CalendarDate): (r: CalendarDate)
    ensures r.year == d.year && r.month == d.month && r.day == DaysInMonth(d.year, d.month)
  {
    Date(d.year, d.month, DaysInMonth(d.year, d.month))
  }

  /** date-fns `isSameMonth`. */
  predicate SameMonth(a: CalendarDate, b: CalendarDate) {
    a.year == b.year && a.month == b.month
  }

  /** The days of a month occupy exactly the day numbers from its first day to its last. */
  lemma {:induction false} InMonthIffInRange(x: CalendarDate, y: int, m: int)
    requires 1 <= m <= 12
    ensures var first := Date(y, m, 1);
      (x.year == y && x.month == m) <==>
      DayNumber(first) <= DayNumber(x) < DayNumber(first) + DaysInMonth(y, m)
  {
    var first: CalendarDate := Date(y, m, 1);
    var k := DayNumber(x) - DayNumber(first);
    if 0 <= k < DaysInMonth(y, m) {
      var same: CalendarDate := Date(y, m, k + 1);
      DayNumberInjective(x, same);
    }
  }

  /**
   * date-fns `eachDayOfInterval({ start, end })`: every day from `start`
   * through `end`. For an `end` before `start` the model gives no days; date-fns
   * throws there (version 2) or lists the days backwards (version 3). The month
   * grid never asks for such an interval.
   */
  function EachDayOfInterval(start: CalendarDate, end: CalendarDate): (days: seq<CalendarDate>)
    ensures |days| == if DayNumber(start) <= DayNumber(end) then DayNumber(end) - DayNumber(start) + 1 else 0
    ensures forall i :: 0 <= i < |days| ==> DayNumber(days[i]) == DayNumber(start) + i
    decreases DayNumber(end) - DayNumber(start)
  {
    if DayNumber(start) > DayNumber(end) then []
    else [start] + EachDayOfInterval(NextDay(start), end)
  }

  function Min(a: int, b: int): int {
    if a <= b then a else b
  }

  /** Months since January of year 0: consecutive calendar months have consecutive indices. */
  function MonthIndex(d: Date): int {
    d.year * 12 + d.month - 1
  }

  /**
   * date-fns `addMonths(d, n)`: the same day `n` calendar months later (earlier
   * for negative `n`), clamped to the last day of a shorter target month.
   */
  function AddMonths(d: CalendarDate, n: int): (r: CalendarDate)
    ensures MonthIndex(r) == MonthIndex(d) + n
    ensures r.day == Min(d.day, DaysInMonth(r.year, r.month))
  {
    var t := MonthIndex(d) + n;
    var y := t / 12;
    var m := t % 12 + 1;
    Date(y, m, Min(d.day, DaysInMonth(y, m)))
  }

  /** A month index names one (year, month) pair. */
  lemma MonthIndexInjective(a: CalendarDate, b: CalendarDate)
    requires MonthIndex(a) == MonthIndex(b)
    ensures a.year == b.year && a.month == b.month
  {
  }
}

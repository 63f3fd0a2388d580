/**
 * The data the month view computes: the Sunday-to-Saturday grid of days
 * covering the displayed month, each cell's events (matched on the
 * `dd-MM-yyyy` rendering of its day), whether the cell belongs to the month,
 * and the first two events with an overflow count.
 */
module MonthView {
  import opened Wrappers
  import opened Seqs
  import opened Dates
  import opened DateFormat
  import opened EventContext

  /** `eachDayOfInterval({ start: startOfWeek(monthStart), end: endOfWeek(monthEnd) })`. */
  function MonthGrid(currentMonth: CalendarDate): seq<CalendarDate> {
    var monthStart := StartOfMonth(currentMonth);
    var monthEnd := EndOfMonth(monthStart);
    EachDayOfInterval(StartOfWeek(monthStart), EndOfWeek(monthEnd))
  }

  /** `getEventsForDay`: the events whose date string is the cell's day as `dd-MM-yyyy`. */
  function GetEventsForDay(events: seq<Event>, date: CalendarDate): (r: seq<Event>)
    ensures forall ev :: ev in r <==> ev in events && ev.date == FormatDMY(date)
  {
    var d := FormatDMY(date);
    FilterComplete(events, (ev: Event) => ev.date == d);
    Filter(events, (ev: Event) => ev.date == d)
  }

  /** The lookup keeps the input order: it acts piece by piece on a split list. */
  lemma GetEventsForDayKeepsOrder(a: seq<Event>, b: seq<Event>, date: CalendarDate)
    ensures GetEventsForDay(a + b, date) == GetEventsForDay(a, date) + GetEventsForDay(b, date)
  {
    var d := FormatDMY(date);
    FilterConcat(a, b, (ev: Event) => ev.date == d);
  }

  /** `isSameMonth(date, currentMonth)`. */
  predicate IsCurrentMonth(date: CalendarDate, currentMonth: CalendarDate) {
    SameMonth(date, currentMonth)
  }

  /** A cell shows at most this many events (`dayEvents.slice(0, 2)`). */
  const CellCap: nat := 2

  /** What one grid cell displays; `more` is the count in the "+N more" label, when there is one. */
  datatype Cell = Cell(
    date: CalendarDate,
    dayLabel: string,
    inMonth: bool,
    events: seq<Event>,
    shown: seq<Event>,
    more: Option<nat>)

  function DayCell(date: CalendarDate, currentMonth: CalendarDate, events: seq<Event>): (c: Cell)
    ensures c.date == date && c.events == GetEventsForDay(events, date)
    ensures c.inMonth <==> IsCurrentMonth(date, currentMonth)
    ensures c.shown <= c.events && |c.shown| == if |c.events| < CellCap then |c.events| else CellCap
    ensures c.more.Some? <==> |c.events| > CellCap
    ensures c.more.Some? ==> c.more.value == |c.events| - CellCap && c.shown + c.events[CellCap..] == c.events
  {
    var dayEvents := GetEventsForDay(events, date);
    Cell(date, DayLabel(date), IsCurrentMonth(date, currentMonth), dayEvents,
         Take(dayEvents, CellCap), Overflow(|dayEvents|, CellCap))
  }

  /** The cells of the month view, in grid order. */
  function Cells(currentMonth: CalendarDate, events: seq<Event>): (cells: seq<Cell>)
    ensures |cells| == |MonthGrid(currentMonth)|
    ensures forall i :: 0 <= i < |cells| ==> cells[i] == DayCell(MonthGrid(currentMonth)[i], currentMonth, events)
  {
    MapSeq(MonthGrid(currentMonth), (date: CalendarDate) => DayCell(date, currentMonth, events))
  }

  // Plain integer arithmetic on day numbers, kept apart from their definition.

  /** Lead `w1` days, `dim` days of the month and `6 - w2` trailing days make whole weeks. */
  lemma GridRows(w1: int, w2: int, dim: int)
    requires 0 <= w1 < 7 && 28 <= dim <= 31 && w2 == (w1 + dim - 1) % 7
    ensures var n := w1 + dim + 6 - w2; n % 7 == 0 && 28 <= n <= 42
  {
  }

  /**
   * The grid starts on the Sunday on or before the month's first day and ends
   * on the Saturday on or after its last day.
   */
  lemma MonthGridEnds(currentMonth: CalendarDate)
    ensures var g := MonthGrid(currentMonth);
      var first := StartOfMonth(currentMonth);
      var last := EndOfMonth(currentMonth);
      |g| > 0 && g[0] == StartOfWeek(first) && g[|g| - 1] == EndOfWeek(last)
      && Weekday(g[0]) == 0 && DayNumber(first) - 6 <= DayNumber(g[0]) <= DayNumber(first)
      && Weekday(g[|g| - 1]) == 6 && DayNumber(last) <= DayNumber(g[|g| - 1]) <= DayNumber(last) + 6
  {
    var g := MonthGrid(currentMonth);
    var first := StartOfMonth(currentMonth);
    var last := EndOfMonth(currentMonth);
    assert EndOfMonth(first) == last;
    DayNumberInjective(g[0], StartOfWeek(first));
    DayNumberInjective(g[|g| - 1], EndOfWeek(last));
  }

  /** The grid is a run of consecutive days: each cell is the day after the one before it, so none repeats. */
  lemma MonthGridConsecutive(currentMonth: CalendarDate)
    ensures var g := MonthGrid(currentMonth);
      (forall i :: 0 <= i < |g| ==> g[i] == AddDays(g[0], i))
      && (forall i :: 0 < i < |g| ==> g[i] == NextDay(g[i - 1]))
      && (forall i, j :: 0 <= i < j < |g| ==> DayNumber(g[i]) < DayNumber(g[j]))
  {
    var g := MonthGrid(currentMonth);
    MonthGridEnds(currentMonth);
    forall i | 0 <= i < |g| ensures g[i] == AddDays(g[0], i) {
      DayNumberInjective(g[i], AddDays(g[0], i));
    }
    forall i | 0 < i < |g| ensures g[i] == NextDay(g[i - 1]) {
      DayNumberInjective(g[i], NextDay(g[i - 1]));
    }
  }

  /** The grid is whole weeks: between four and six rows of seven. */
  lemma MonthGridLength(currentMonth: CalendarDate)
    ensures var n := |MonthGrid(currentMonth)|; n % 7 == 0 && 28 <= n <= 42
  {
    var g := MonthGrid(currentMonth);
    var first := StartOfMonth(currentMonth);
    var last := EndOfMonth(currentMonth);
    var dim := DaysInMonth(currentMonth.year, currentMonth.month);
    MonthGridEnds(currentMonth);
    assert DayNumber(last) == DayNumber(first) + dim - 1;
    WeekdayShift(first, last, dim - 1);
    var w1 := Weekday(first);
    var w2 := Weekday(last);
    assert |g| == w1 + dim + 6 - w2;
    GridRows(w1, w2, dim);
  }

  /** The grid's first cell lies `lead` days before the 1st, `lead` being the weekday of the 1st. */
  lemma MonthGridLead(currentMonth: CalendarDate)
    ensures var g := MonthGrid(currentMonth);
      var first := StartOfMonth(currentMonth);
      var dim := DaysInMonth(currentMonth.year, currentMonth.month);
      var lead := Weekday(first);
      |g| > 0 && DayNumber(g[0]) == DayNumber(first) - lead
      && lead + dim <= |g| <= lead + dim + 6
  {
    var g := MonthGrid(currentMonth);
    var first := StartOfMonth(currentMonth);
    MonthGridEnds(currentMonth);
    assert DayNumber(EndOfMonth(currentMonth)) - DayNumber(first) == DaysInMonth(currentMonth.year, currentMonth.month) - 1;
  }

  lemma MonthGridCellInMonth(currentMonth: CalendarDate, i: int)
    requires 0 <= i < |MonthGrid(currentMonth)|
    ensures var lead := Weekday(StartOfMonth(currentMonth));
      IsCurrentMonth(MonthGrid(currentMonth)[i], currentMonth)
      <==> lead <= i < lead + DaysInMonth(currentMonth.year, currentMonth.month)
  {
    MonthGridLead(currentMonth);
    InMonthIffInRange(MonthGrid(currentMonth)[i], currentMonth.year, currentMonth.month);
  }

  lemma MonthGridDayAt(currentMonth: CalendarDate, k: int)
    requires 1 <= k <= DaysInMonth(currentMonth.year, currentMonth.month)
    ensures var g := MonthGrid(currentMonth);
      var i := Weekday(StartOfMonth(currentMonth)) + k - 1;
      0 <= i < |g| && g[i] == Date(currentMonth.year, currentMonth.month, k)
  {
    MonthGridLead(currentMonth);
    var g := MonthGrid(currentMonth);
    var day: CalendarDate := Date(currentMonth.year, currentMonth.month, k);
    DayNumberInjective(g[Weekday(StartOfMonth(currentMonth)) + k - 1], day);
  }

  /**
   * The month's own days fill one contiguous stretch of the grid, day k at
   * index `lead + k - 1` where `lead` (the weekday of the 1st) is the number of
   * padding days before; at most six padding days follow. `IsCurrentMonth`
   * holds exactly on that stretch.
   */
  lemma MonthGridFocal(currentMonth: CalendarDate)
    ensures var g := MonthGrid(currentMonth);
      var y := currentMonth.year;
      var m := currentMonth.month;
      var dim := DaysInMonth(y, m);
      var lead := Weekday(StartOfMonth(currentMonth));
      lead <= 6 && lead + dim <= |g| <= lead + dim + 6
      && (forall i :: 0 <= i < |g| ==> (IsCurrentMonth(g[i], currentMonth) <==> lead <= i < lead + dim))
      && (forall k :: 1 <= k <= dim ==> g[lead + k - 1] == Date(y, m, k))
  {
    MonthGridLead(currentMonth);
    forall i | 0 <= i < |MonthGrid(currentMonth)| {
      MonthGridCellInMonth(currentMonth, i);
    }
    forall k | 1 <= k <= DaysInMonth(currentMonth.year, currentMonth.month) {
      MonthGridDayAt(currentMonth, k);
    }
  }

  /** Every day of the displayed month is in the grid. */
  lemma MonthGridCoversMonth(currentMonth: CalendarDate, x: CalendarDate)
    requires IsCurrentMonth(x, currentMonth)
    ensures x in MonthGrid(currentMonth)
  {
    MonthGridDayAt(currentMonth, x.day);
  }

  lemma June2024DayNumbers()
    ensures DayNumber(Date(2024, 6, 1)) == 739037
    ensures DayNumber(Date(2024, 5, 26)) == 739031
    ensures DayNumber(Date(2024, 7, 6)) == 739072
    ensures Weekday(Date(2024, 6, 1)) == 6
  {
  }

  lemma SixRows(n: int)
    requires 36 <= n <= 42 && n % 7 == 0
    ensures n == 42
  {
  }

  lemma June2024Span(june: CalendarDate)
    requires june.year == 2024 && june.month == 6
    ensures var g := MonthGrid(june);
      |g| == 42 && DayNumber(g[0]) == 739031 && DayNumber(g[41]) == 739072
  {
    June2024DayNumbers();
    MonthGridLead(june);
    MonthGridLength(june);
    SixRows(|MonthGrid(june)|);
  }

  /**
   * June 2024: June 1st is a Saturday, so the grid for any day of that month
   * runs from Sunday 26 May to Saturday 6 July, six rows.
   */
  lemma June2024Grid(june: CalendarDate)
    requires june.year == 2024 && june.month == 6
    ensures var g := MonthGrid(june);
      |g| == 42 && g[0] == Date(2024, 5, 26) && g[41] == Date(2024, 7, 6)
  {
    var g := MonthGrid(june);
    June2024Span(june);
    May26(g[0]);
    July6(g[41]);
  }

  lemma May26(x: CalendarDate)
    requires DayNumber(x) == 739031
    ensures x == Date(2024, 5, 26)
  {
    var may26: CalendarDate := Date(2024, 5, 26);
    June2024DayNumbers();
    DayNumberInjective(x, may26);
  }

  lemma July6(x: CalendarDate)
    requires DayNumber(x) == 739072
    ensures x == Date(2024, 7, 6)
  {
    var july6: CalendarDate := Date(2024, 7, 6);
    June2024DayNumbers();
    DayNumberInjective(x, july6);
  }
}

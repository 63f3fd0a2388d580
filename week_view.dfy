/**
 * The data the week view computes: seven consecutive day cells from the week
 * start, each with the events whose date string is the day in `yyyy-MM-dd`
 * form, up to three event dots and a "+N" count; the row of weekday names;
 * the drop guard; and where a click on a cell goes.
 */
module WeekView {
  import opened Wrappers
  import opened Strings
  import opened Seqs
  import opened Dates
  import opened DateFormat
  import opened EventContext

  /** `getEventsForDay`: the events whose date string is the day as `yyyy-MM-dd`. */
  function GetEventsForDay(events: seq<Event>, date: CalendarDate): (r: seq<Event>)
    ensures forall ev :: ev in r <==> ev in events && ev.date == FormatISO(date)
  {
    var d := FormatISO(date);
    FilterComplete(events, (ev: Event) => ev.date == d);
    Filter(events, (ev: Event) => ev.date == d)
  }

  /** The lookup keeps the input order: it acts piece by piece on a split list. */
  lemma GetEventsForDayKeepsOrder(a: seq<Event>, b: seq<Event>, date: CalendarDate)
    ensures GetEventsForDay(a + b, date) == GetEventsForDay(a, date) + GetEventsForDay(b, date)
  {
    var d := FormatISO(date);
    FilterConcat(a, b, (ev: Event) => ev.date == d);
  }

  /** The drop target's `canDrop`: refuse a drop onto the day the event is already on, compared as `yyyy-MM-dd`. */
  predicate CanDrop(day: CalendarDate, event: Event) {
    FormatISO(day) != event.date
  }

  /** A cell draws at most this many event dots (`dayEvents.slice(0, 3)`). */
  const DotCap: nat := 3

  /** What one day cell displays; `more` is the count in the "+N" label, when there is one. */
  datatype Cell = Cell(
    date: CalendarDate,
    dayLabel: string,
    events: seq<Event>,
    dots: seq<Event>,
    more: Option<nat>)

  /** The cell built for `day` in one pass of the loop. */
  function DayCell(day: CalendarDate, events: seq<Event>): (c: Cell)
    ensures c.date == day && c.dayLabel == DayLabel(day) && c.events == GetEventsForDay(events, day)
    ensures c.dots <= c.events && |c.dots| == if |c.events| < DotCap then |c.events| else DotCap
    ensures c.more.Some? <==> |c.events| > DotCap
    ensures c.more.Some? ==> c.more.value == |c.events| - DotCap && c.dots + c.events[DotCap..] == c.events
  {
    var dayEvents := GetEventsForDay(events, day);
    Cell(day, DayLabel(day), dayEvents, Take(dayEvents, DotCap), Overflow(|dayEvents|, DotCap))
  }

  /**
   * The `for` loop that pushes seven cells while `day` advances by
   * `addDays(day, 1)`: cell `i` is the day `i` days after the week start.
   * `day` is declared once, outside the loop; its value after the last step,
   * seven days after the week start, is what every handler of the cells reads.
   */
  method BuildWeek(weekStartDate: CalendarDate, events: seq<Event>) returns (days: seq<Cell>, day: CalendarDate)
    ensures |days| == 7
    ensures forall i :: 0 <= i < 7 ==>
      DayNumber(days[i].date) == DayNumber(weekStartDate) + i && days[i] == DayCell(days[i].date, events)
    ensures DayNumber(day) == DayNumber(weekStartDate) + 7
  {
    days := [];
    day := weekStartDate;
    for i := 0 to 7
      invariant |days| == i
      invariant DayNumber(day) == DayNumber(weekStartDate) + i
      invariant forall k :: 0 <= k < i ==>
        DayNumber(days[k].date) == DayNumber(weekStartDate) + k && days[k] == DayCell(days[k].date, events)
    {
      days := days + [DayCell(day, events)];
      day := AddDays(day, 1);
    }
  }

  /**
   * `renderDays`: the same loop pushing `format(date, 'EEE')`; column `i`
   * names the weekday `i` days after the start, so a Sunday start reads Sun to Sat.
   */
  method RenderDays(weekStartDate: CalendarDate) returns (names: seq<string>)
    ensures |names| == 7
    ensures forall i :: 0 <= i < 7 ==> names[i] == WeekdayName((Weekday(weekStartDate) + i) % 7)
    ensures Weekday(weekStartDate) == 0 ==> names == ["Sun", "Mon", "Tue", "Wed", "Thu", "Fri", "Sat"]
  {
    names := [];
    var date := weekStartDate;
    for i := 0 to 7
      invariant |names| == i
      invariant DayNumber(date) == DayNumber(weekStartDate) + i
      invariant forall k :: 0 <= k < i ==> names[k] == WeekdayName((Weekday(weekStartDate) + k) % 7)
    {
      WeekdayShift(weekStartDate, date, i);
      names := names + [WeekdayName(Weekday(date))];
      date := AddDays(date, 1);
    }
  }

  /** Where a click on a cell is routed. */
  datatype Click = EventClick(day: CalendarDate, dayEvents: seq<Event>) | DayClick(day: CalendarDate)

  /**
   * `dayEvents.length > 0 ? onEventClick(day, dayEvents) : onDayClick(day)`,
   * with `day` read as the cell's own date: the evidently intended routing.
   */
  function RouteClick(cell: Cell): (click: Click)
    ensures click.day == cell.date
    ensures click.EventClick? <==> cell.events != []
    ensures click.EventClick? ==> click.dayEvents == cell.events
  {
    if |cell.events| > 0 then EventClick(cell.date, cell.events) else DayClick(cell.date)
  }

  /**
   * The same routing as the code binds it: the handler closes over the loop's
   * one `day` variable, so it passes `boundDay`, the value `day` holds once
   * the loop has finished, whatever cell was clicked.
   */
  function RouteClickAsWritten(cell: Cell, boundDay: CalendarDate): (click: Click)
    ensures click.day == boundDay
    ensures click.EventClick? <==> cell.events != []
    ensures click.EventClick? ==> click.dayEvents == cell.events
  {
    if |cell.events| > 0 then EventClick(boundDay, cell.events) else DayClick(boundDay)
  }

  /**
   * The day a drop onto a cell hands to `onEventDrop`, when `canDrop` lets it
   * through, with `day` read as the cell's own date.
   */
  function DropTarget(cell: Cell, event: Event): (r: Option<CalendarDate>)
    ensures r.Some? <==> CanDrop(cell.date, event)
    ensures r.Some? ==> r.value == cell.date
  {
    if CanDrop(cell.date, event) then Some(cell.date) else None
  }

  /** The drop as the code binds it: `canDrop` and `drop` both read the loop's `day` after the loop, not the cell. */
  function DropTargetAsWritten(cell: Cell, boundDay: CalendarDate, event: Event): (r: Option<CalendarDate>)
    ensures r.Some? <==> CanDrop(boundDay, event)
    ensures r.Some? ==> r.value == boundDay
  {
    if CanDrop(boundDay, event) then Some(boundDay) else None
  }

  /**
   * As written, every click and every drop on a cell of the week reaches the
   * day seven days after the week start (the same weekday one week later),
   * which is never the cell's own day.
   */
  lemma HandlersMissTheirCell(weekStartDate: CalendarDate, boundDay: CalendarDate, cell: Cell, event: Event)
    requires DayNumber(boundDay) == DayNumber(weekStartDate) + 7
    requires DayNumber(weekStartDate) <= DayNumber(cell.date) < DayNumber(weekStartDate) + 7
    ensures Weekday(boundDay) == Weekday(weekStartDate)
    ensures RouteClickAsWritten(cell, boundDay).day != RouteClick(cell).day
    ensures DropTargetAsWritten(cell, boundDay, event).Some? ==> DropTargetAsWritten(cell, boundDay, event).value != cell.date
    ensures DropTarget(cell, event).Some? ==> DropTarget(cell, event).value == cell.date
  {
    WeekdayShift(weekStartDate, boundDay, 7);
  }

  /** A date string that begins with a two-character day field and a dash, as every `dd-MM-yyyy` string does. */
  predicate DayFirst(s: string) {
    |s| > 2 && s[2] == '-'
  }

  /**
   * The week view compares against `yyyy-MM-dd` while saving and dropping
   * store `dd-MM-yyyy`: for events stored that way the lookup is always empty
   * and every drop target accepts them.
   */
  lemma DayFirstDatesNeverMatch(events: seq<Event>, day: CalendarDate)
    requires forall i :: 0 <= i < |events| ==> DayFirst(events[i].date)
    ensures GetEventsForDay(events, day) == []
    ensures forall i :: 0 <= i < |events| ==> CanDrop(day, events[i])
  {
    var iso := FormatISO(day);
    assert IsDigit(iso[..4][2]);
    assert !DayFirst(iso);
    FilterNone(events, (ev: Event) => ev.date == iso);
  }
}

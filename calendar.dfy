/**
 * The calendar page: the search and colour filter over the event list, the
 * actions its save, drop and navigation handlers dispatch, the week start it
 * hands to the week view, and the page's own view state.
 */
module Calendar {
  import opened Wrappers
  import opened Strings
  import opened Seqs
  import opened Dates
  import opened DateFormat
  import opened EventContext
  import MonthView
  import WeekView
  import EventDetailsModal

  /** An event passes the filter: its lower-cased title contains the lower-cased search, and its colour is the chosen one if a colour is chosen. */
  predicate Matches(ev: Event, search: string, colorFilter: string) {
    Includes(Lower(ev.title), Lower(search)) && (colorFilter != "" ==> ev.color == colorFilter)
  }

  /** `filteredEvents`. */
  function FilteredEvents(events: seq<Event>, search: string, colorFilter: string): (r: seq<Event>)
    ensures forall ev :: ev in r <==> ev in events && Matches(ev, search, colorFilter)
  {
    FilterComplete(events, (ev: Event) => Matches(ev, search, colorFilter));
    Filter(events, (ev: Event) => Matches(ev, search, colorFilter))
  }

  /** The filter keeps the surviving events in their input order. */
  lemma FilteredEventsKeepsOrder(a: seq<Event>, b: seq<Event>, search: string, colorFilter: string)
    ensures FilteredEvents(a + b, search, colorFilter) == FilteredEvents(a, search, colorFilter) + FilteredEvents(b, search, colorFilter)
  {
    FilterConcat(a, b, (ev: Event) => Matches(ev, search, colorFilter));
  }

  /** With no search text and no colour chosen, every event is shown. */
  lemma NoFilterShowsAll(events: seq<Event>)
    ensures FilteredEvents(events, "", "") == events
  {
    FilterKeepsAll(events, (ev: Event) => Matches(ev, "", ""));
  }

  /** The search matches when the lower-cased search text occurs somewhere in the lower-cased title. */
  lemma MatchesIffOccurs(ev: Event, search: string, colorFilter: string)
    ensures Matches(ev, search, colorFilter) <==>
      (exists i :: OccursAt(Lower(ev.title), Lower(search), i)) && (colorFilter == "" || ev.color == colorFilter)
  {
    IncludesIsOccurrence(Lower(ev.title), Lower(search));
  }

  lemma LowerIdempotent(s: string)
    ensures Lower(Lower(s)) == Lower(s)
  {
  }

  /** The search ignores the case of ASCII letters. */
  lemma SearchIgnoresCase(events: seq<Event>, search: string, colorFilter: string)
    ensures FilteredEvents(events, Lower(search), colorFilter) == FilteredEvents(events, search, colorFilter)
  {
    LowerIdempotent(search);
    FilterAgrees(events, (ev: Event) => Matches(ev, Lower(search), colorFilter), (ev: Event) => Matches(ev, search, colorFilter));
  }

  /** `expandRecurringEvents`: a stub that returns the list it is given, for any month. */
  function ExpandRecurringEvents(eventsToExpand: seq<Event>, month: CalendarDate): (r: seq<Event>)
    ensures r == eventsToExpand
  {
    eventsToExpand
  }

  /** The action `handleSaveEvent` dispatches: UPDATE_EVENT with the data as given while editing, else ADD_EVENT with a fresh id. */
  function SaveAction(editing: Option<Event>, eventData: Event, freshId: string): (a: Action)
    ensures editing.Some? ==> a == UpdateEvent(eventData)
    ensures editing.None? ==> a.AddEvent? && a.event.id == freshId && a.event.(id := eventData.id) == eventData
  {
    if editing.Some? then UpdateEvent(eventData) else AddEvent(eventData.(id := freshId))
  }

  /** The action `handleEventDrop` dispatches: the same event, moved to the `dd-MM-yyyy` rendering of the target day. */
  function DropAction(event: Event, newDate: CalendarDate): (a: Action)
    ensures a.UpdateEvent? && a.event.id == event.id && a.event.date == FormatDMY(newDate)
    ensures a.event.(date := event.date) == event
  {
    UpdateEvent(event.(date := FormatDMY(newDate)))
  }

  /** `weekStartDate`: the Sunday on or before the selected date. */
  function WeekStartDate(state: State): (r: CalendarDate)
    ensures Weekday(r) == 0
    ensures DayNumber(state.selectedDate) - 6 <= DayNumber(r) <= DayNumber(state.selectedDate)
  {
    StartOfWeek(state.selectedDate)
  }

  /** The "<" button's target: `subMonths(currentMonth, 1)`. */
  function PrevMonthOf(currentMonth: CalendarDate): (r: CalendarDate)
    ensures MonthIndex(r) == MonthIndex(currentMonth) - 1
    ensures r.day == Min(currentMonth.day, DaysInMonth(r.year, r.month))
  {
    AddMonths(currentMonth, -1)
  }

  /** The ">" button's target: `addMonths(currentMonth, 1)`. */
  function NextMonthOf(currentMonth: CalendarDate): (r: CalendarDate)
    ensures MonthIndex(r) == MonthIndex(currentMonth) + 1
    ensures r.day == Min(currentMonth.day, DaysInMonth(r.year, r.month))
  {
    AddMonths(currentMonth, 1)
  }

  /** Forward then back (or back then forward) returns to the same month, so the month view shows the same grid. */
  lemma NavigationRoundTrip(currentMonth: CalendarDate)
    ensures SameMonth(PrevMonthOf(NextMonthOf(currentMonth)), currentMonth)
    ensures SameMonth(NextMonthOf(PrevMonthOf(currentMonth)), currentMonth)
    ensures MonthView.MonthGrid(PrevMonthOf(NextMonthOf(currentMonth))) == MonthView.MonthGrid(currentMonth)
    ensures MonthView.MonthGrid(NextMonthOf(PrevMonthOf(currentMonth))) == MonthView.MonthGrid(currentMonth)
  {
    MonthIndexInjective(PrevMonthOf(NextMonthOf(currentMonth)), currentMonth);
    MonthIndexInjective(NextMonthOf(PrevMonthOf(currentMonth)), currentMonth);
  }

  /** The day of the month is clamped on the way, not restored: 31 January goes to 29 February 2024 and back to 29 January. */
  lemma NavigationClamps(jan31: CalendarDate)
    requires jan31 == Date(2024, 1, 31)
    ensures NextMonthOf(jan31) == Date(2024, 2, 29)
    ensures PrevMonthOf(NextMonthOf(jan31)) == Date(2024, 1, 29)
  {
  }

  /** Saving a new event appends it under the fresh id; when that id is fresh, ids stay unique. */
  lemma NewSaveAppends(state: State, eventData: Event, freshId: string)
    ensures Reduce(state, SaveAction(None, eventData, freshId)).events == state.events + [eventData.(id := freshId)]
    ensures UniqueIds(state.events) && !HasId(state.events, freshId) ==>
      UniqueIds(Reduce(state, SaveAction(None, eventData, freshId)).events)
  {
    if UniqueIds(state.events) && !HasId(state.events, freshId) {
      ReducePreservesUniqueIds(state, SaveAction(None, eventData, freshId));
    }
  }

  /** Saving while editing replaces, in place, the events that carry the saved data's id, and keeps ids unique. */
  lemma EditSaveUpdates(state: State, editing: Event, eventData: Event, freshId: string)
    ensures var r := Reduce(state, SaveAction(Some(editing), eventData, freshId)).events;
      |r| == |state.events|
      && (forall i :: 0 <= i < |r| ==> r[i] == if state.events[i].id == eventData.id then eventData else state.events[i])
    ensures UniqueIds(state.events) ==> UniqueIds(Reduce(state, SaveAction(Some(editing), eventData, freshId)).events)
  {
    if UniqueIds(state.events) {
      ReducePreservesUniqueIds(state, SaveAction(Some(editing), eventData, freshId));
    }
  }

  /** A dropped event shows on the target day of the month view afterwards, and its id stays where it was. */
  lemma DropShowsOnTarget(state: State, e: Event, newDate: CalendarDate)
    requires e in state.events
    ensures var r := Reduce(state, DropAction(e, newDate)).events;
      e.(date := FormatDMY(newDate)) in MonthView.GetEventsForDay(r, newDate)
      && |r| == |state.events| && forall i :: 0 <= i < |r| ==> r[i].id == state.events[i].id
  {
    var r := Reduce(state, DropAction(e, newDate)).events;
    var i :| 0 <= i < |state.events| && state.events[i] == e;
    assert r[i] == e.(date := FormatDMY(newDate));
    UpdateKeepsIds(state, DropAction(e, newDate).event);
  }

  /** After a drop, the week view finds the moved event on no day at all: it looks for `yyyy-MM-dd`, the drop stored `dd-MM-yyyy`. */
  lemma DroppedEventNotInWeek(e: Event, newDate: CalendarDate, day: CalendarDate)
    ensures var moved := DropAction(e, newDate).event;
      WeekView.GetEventsForDay([moved], day) == [] && WeekView.CanDrop(day, moved)
  {
    var moved := DropAction(e, newDate).event;
    WeekView.DayFirstDatesNeverMatch([moved], day);
  }

  /** The page state: the reducer's state and the page's own `useState` values. */
  class CalendarView {
    var state: State
    var isModalOpen: bool
    var detailsModalOpen: bool
    var selectedEvent: Option<Event>
    var editingEvent: Option<Event>
    var search: string
    var colorFilter: string
    var viewType: string

    /** The first render: the context's initial state, both dialogs closed, no filter, the month view. */
    constructor (today: CalendarDate)
      ensures state == InitialState(today)
      ensures !isModalOpen && !detailsModalOpen && selectedEvent.None? && editingEvent.None?
      ensures search == "" && colorFilter == "" && viewType == "month"
    {
      state := InitialState(today);
      isModalOpen := false;
      detailsModalOpen := false;
      selectedEvent := None;
      editingEvent := None;
      search := "";
      colorFilter := "";
      viewType := "month";
    }

    /** The events both views receive. */
    function VisibleEvents(): (r: seq<Event>)
      reads this
      ensures forall ev :: ev in r <==> ev in state.events && Matches(ev, search, colorFilter)
    {
      FilteredEvents(state.events, search, colorFilter)
    }

    /** `dispatch`: the reducer replaces the state; nothing else changes. */
    method Dispatch(action: Action)
      modifies this
      ensures state == Reduce(old(state), action)
      ensures isModalOpen == old(isModalOpen) && detailsModalOpen == old(detailsModalOpen)
      ensures selectedEvent == old(selectedEvent) && editingEvent == old(editingEvent)
      ensures search == old(search) && colorFilter == old(colorFilter) && viewType == old(viewType)
    {
      state := Reduce(state, action);
    }

    /** `handleDayClick`: select the day and open the dialog for a new event. */
    method HandleDayClick(date: CalendarDate)
      modifies this
      ensures state == Reduce(old(state), SetSelectedDate(date))
      ensures isModalOpen && editingEvent.None?
      ensures detailsModalOpen == old(detailsModalOpen) && selectedEvent == old(selectedEvent)
      ensures search == old(search) && colorFilter == old(colorFilter) && viewType == old(viewType)
    {
      Dispatch(SetSelectedDate(date));
      editingEvent := None;
      isModalOpen := true;
    }

    /** `handleViewEvent`: open the details dialog on the event. */
    method HandleViewEvent(event: Event)
      modifies this
      ensures selectedEvent == Some(event) && detailsModalOpen
      ensures state == old(state) && isModalOpen == old(isModalOpen) && editingEvent == old(editingEvent)
      ensures search == old(search) && colorFilter == old(colorFilter) && viewType == old(viewType)
    {
      selectedEvent := Some(event);
      detailsModalOpen := true;
    }

    /** `handleEditEvent`: open the dialog on the event to edit. */
    method HandleEditEvent(event: Event)
      modifies this
      ensures editingEvent == Some(event) && isModalOpen
      ensures state == old(state) && detailsModalOpen == old(detailsModalOpen) && selectedEvent == old(selectedEvent)
      ensures search == old(search) && colorFilter == old(colorFilter) && viewType == old(viewType)
    {
      editingEvent := Some(event);
      isModalOpen := true;
    }

    /** `handleSaveEvent`: dispatch the save, close the dialog and forget the edited event. */
    method HandleSaveEvent(eventData: Event, freshId: string)
      modifies this
      ensures state == Reduce(old(state), SaveAction(old(editingEvent), eventData, freshId))
      ensures UniqueIds(old(state).events) && (old(editingEvent).Some? || !HasId(old(state).events, freshId)) ==>
        UniqueIds(state.events)
      ensures !isModalOpen && editingEvent.None?
      ensures detailsModalOpen == old(detailsModalOpen) && selectedEvent == old(selectedEvent)
      ensures search == old(search) && colorFilter == old(colorFilter) && viewType == old(viewType)
    {
      var action := SaveAction(editingEvent, eventData, freshId);
      if UniqueIds(state.events) && (editingEvent.Some? || !HasId(state.events, freshId)) {
        ReducePreservesUniqueIds(state, action);
      }
      Dispatch(action);
      isModalOpen := false;
      editingEvent := None;
    }

    /** `handleEventDrop`: dispatch the move; the view state is untouched. */
    method HandleEventDrop(event: Event, newDate: CalendarDate)
      modifies this
      ensures state == Reduce(old(state), DropAction(event, newDate))
      ensures UniqueIds(old(state).events) ==> UniqueIds(state.events)
      ensures isModalOpen == old(isModalOpen) && detailsModalOpen == old(detailsModalOpen)
      ensures selectedEvent == old(selectedEvent) && editingEvent == old(editingEvent)
      ensures search == old(search) && colorFilter == old(colorFilter) && viewType == old(viewType)
    {
      if UniqueIds(state.events) {
        ReducePreservesUniqueIds(state, DropAction(event, newDate));
      }
      Dispatch(DropAction(event, newDate));
    }

    /** The "<" button: show the previous month. */
    method PrevMonth()
      modifies this
      ensures state == Reduce(old(state), SetCurrentMonth(PrevMonthOf(old(state).currentMonth)))
      ensures MonthIndex(state.currentMonth) == MonthIndex(old(state).currentMonth) - 1
      ensures state.events == old(state).events && state.selectedDate == old(state).selectedDate
      ensures isModalOpen == old(isModalOpen) && detailsModalOpen == old(detailsModalOpen)
      ensures selectedEvent == old(selectedEvent) && editingEvent == old(editingEvent)
      ensures search == old(search) && colorFilter == old(colorFilter) && viewType == old(viewType)
    {
      Dispatch(SetCurrentMonth(PrevMonthOf(state.currentMonth)));
    }

    /** The ">" button: show the next month. */
    method NextMonth()
      modifies this
      ensures state == Reduce(old(state), SetCurrentMonth(NextMonthOf(old(state).currentMonth)))
      ensures MonthIndex(state.currentMonth) == MonthIndex(old(state).currentMonth) + 1
      ensures state.events == old(state).events && state.selectedDate == old(state).selectedDate
      ensures isModalOpen == old(isModalOpen) && detailsModalOpen == old(detailsModalOpen)
      ensures selectedEvent == old(selectedEvent) && editingEvent == old(editingEvent)
      ensures search == old(search) && colorFilter == old(colorFilter) && viewType == old(viewType)
    {
      Dispatch(SetCurrentMonth(NextMonthOf(state.currentMonth)));
    }

    /** The search box's `onChange`. */
    method SetSearch(value: string)
      modifies this
      ensures search == value
      ensures state == old(state) && isModalOpen == old(isModalOpen) && detailsModalOpen == old(detailsModalOpen)
      ensures selectedEvent == old(selectedEvent) && editingEvent == old(editingEvent)
      ensures colorFilter == old(colorFilter) && viewType == old(viewType)
    {
      search := value;
    }

    /** The event dialog's `onClose`. */
    method CloseModal()
      modifies this
      ensures !isModalOpen
      ensures state == old(state) && detailsModalOpen == old(detailsModalOpen)
      ensures selectedEvent == old(selectedEvent) && editingEvent == old(editingEvent)
      ensures search == old(search) && colorFilter == old(colorFilter) && viewType == old(viewType)
    {
      isModalOpen := false;
    }

    /** The details dialog's `onClose`. */
    method CloseDetails()
      modifies this
      ensures !detailsModalOpen
      ensures state == old(state) && isModalOpen == old(isModalOpen)
      ensures selectedEvent == old(selectedEvent) && editingEvent == old(editingEvent)
      ensures search == old(search) && colorFilter == old(colorFilter) && viewType == old(viewType)
    {
      detailsModalOpen := false;
    }

    /** The details dialog's Delete button, which exists only while an event is shown: delete it and close the dialog. */
    method DetailsDelete()
      requires selectedEvent.Some?
      modifies this
      ensures state == Reduce(old(state), EventDetailsModal.DeleteAction(old(selectedEvent).value))
      ensures old(selectedEvent).value !in state.events
      ensures !detailsModalOpen && isModalOpen == old(isModalOpen)
      ensures selectedEvent == old(selectedEvent) && editingEvent == old(editingEvent)
      ensures search == old(search) && colorFilter == old(colorFilter) && viewType == old(viewType)
    {
      EventDetailsModal.DeleteRemovesShownEvent(state, selectedEvent.value);
      Dispatch(EventDetailsModal.DeleteAction(selectedEvent.value));
      CloseDetails();
    }

    /** The details dialog's Edit button: open the edit dialog on the shown event and close the details. */
    method DetailsEdit()
      requires selectedEvent.Some?
      modifies this
      ensures editingEvent == old(selectedEvent) && isModalOpen && !detailsModalOpen
      ensures state == old(state) && selectedEvent == old(selectedEvent)
      ensures search == old(search) && colorFilter == old(colorFilter) && viewType == old(viewType)
    {
      HandleEditEvent(selectedEvent.value);
      CloseDetails();
    }

    /** The week start handed to the week view. */
    function WeekStart(): (r: CalendarDate)
      reads this
      ensures Weekday(r) == 0 && DayNumber(state.selectedDate) - 6 <= DayNumber(r) <= DayNumber(state.selectedDate)
    {
      WeekStartDate(state)
    }
  }
}

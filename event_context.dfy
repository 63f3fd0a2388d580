/**
 * The shared event state and its reducer (`eventReducer`): a closed set of
 * actions over the event list, the selected date and the displayed month.
 */
module EventContext {
  import opened Wrappers
  import opened Seqs
  import opened Dates

  /** An event's repeat rule as the forms store it: `type` ("none", "daily", ...), an optional `interval` and a `unit`. */
  datatype Recurrence = Recurrence(kind: string, interval: Option<int>, unit: string)

  /** An event record. `date` is a string, normally in `dd-MM-yyyy` form; `recurrence` may be missing. */
  datatype Event = Event(
    id: string,
    title: string,
    description: string,
    date: string,
    time: string,
    color: string,
    category: string,
    recurrence: Option<Recurrence>)

  datatype State = State(events: seq<Event>, selectedDate: CalendarDate, currentMonth: CalendarDate)

  /** The dispatched actions; `Other` stands for an action object whose `type` is none of the six handled ones. */
  datatype Action =
    | AddEvent(event: Event)
    | UpdateEvent(event: Event)
    | DeleteEvent(id: string)
    | SetSelectedDate(date: CalendarDate)
    | SetCurrentMonth(date: CalendarDate)
    | LoadEvents(events: seq<Event>)
    | Other(kind: string)

  /** `initialState`: no events, and both dates set to the moment the module loads (`today`). */
  function InitialState(today: CalendarDate): (s: State)
    ensures s.events == [] && s.selectedDate == today && s.currentMonth == today
  {
    State([], today, today)
  }

  /** `events.map(event => event.id === e.id ? e : event)`. */
  function ReplaceById(events: seq<Event>, e: Event): seq<Event> {
    MapSeq(events, (ev: Event) => if ev.id == e.id then e else ev)
  }

  /** `events.filter(event => event.id !== id)`. */
  function RemoveById(events: seq<Event>, id: string): seq<Event> {
    Filter(events, (ev: Event) => ev.id != id)
  }

  /** `eventReducer(state, action)`. */
  function Reduce(state: State, action: Action): (r: State)
    ensures !action.SetSelectedDate? ==> r.selectedDate == state.selectedDate
    ensures !action.SetCurrentMonth? ==> r.currentMonth == state.currentMonth
    ensures action.SetSelectedDate? || action.SetCurrentMonth? || action.Other? ==> r.events == state.events
  {
    match action
    case AddEvent(e) => state.(events := state.events + [e])
    case UpdateEvent(e) => state.(events := ReplaceById(state.events, e))
    case DeleteEvent(id) => state.(events := RemoveById(state.events, id))
    case SetSelectedDate(d) => state.(selectedDate := d)
    case SetCurrentMonth(d) => state.(currentMonth := d)
    case LoadEvents(es) => state.(events := es)
    case Other(_) => state
  }

  predicate HasId(events: seq<Event>, id: string) {
    exists i :: 0 <= i < |events| && events[i].id == id
  }

  /** No two events in the list share an id. */
  predicate UniqueIds(events: seq<Event>) {
    forall i, j :: 0 <= i < j < |events| ==> events[i].id != events[j].id
  }

  /** ADD_EVENT puts the new event last; the events before it are the old list, in order. */
  lemma AddAppends(state: State, e: Event)
    ensures var r := Reduce(state, AddEvent(e));
      |r.events| == |state.events| + 1 && r.events[..|state.events|] == state.events
      && r.events[|state.events|] == e
      && r.selectedDate == state.selectedDate && r.currentMonth == state.currentMonth
  {
  }

  /** UPDATE_EVENT keeps length and order and replaces exactly the events carrying the updated event's id. */
  lemma UpdateReplacesById(state: State, e: Event)
    ensures var r := Reduce(state, UpdateEvent(e));
      |r.events| == |state.events|
      && (forall i :: 0 <= i < |state.events| && state.events[i].id == e.id ==> r.events[i] == e)
      && (forall i :: 0 <= i < |state.events| && state.events[i].id != e.id ==> r.events[i] == state.events[i])
  {
  }

  /** UPDATE_EVENT of an id that is not in the list changes nothing. */
  lemma UpdateAbsentIsNoop(state: State, e: Event)
    requires !HasId(state.events, e.id)
    ensures Reduce(state, UpdateEvent(e)) == state
  {
    var r := Reduce(state, UpdateEvent(e));
    assert r.events == state.events by {
      forall i | 0 <= i < |state.events| ensures r.events[i] == state.events[i] {
        assert state.events[i].id != e.id;
      }
    }
  }

  /** UPDATE_EVENT never changes which id sits at which position. */
  lemma UpdateKeepsIds(state: State, e: Event)
    ensures var r := Reduce(state, UpdateEvent(e));
      |r.events| == |state.events| && forall i :: 0 <= i < |r.events| ==> r.events[i].id == state.events[i].id
  {
  }

  /** After DELETE_EVENT an event is in the list exactly when it was before and has a different id. */
  lemma DeleteKeepsOthers(state: State, id: string)
    ensures forall ev :: ev in Reduce(state, DeleteEvent(id)).events <==> ev in state.events && ev.id != id
  {
    FilterComplete(state.events, (ev: Event) => ev.id != id);
  }

  /** DELETE_EVENT keeps the survivors in their order: it acts piece by piece on a split list. */
  lemma DeleteKeepsOrder(a: seq<Event>, b: seq<Event>, id: string)
    ensures RemoveById(a + b, id) == RemoveById(a, id) + RemoveById(b, id)
  {
    FilterConcat(a, b, (ev: Event) => ev.id != id);
  }

  /** Deleting the same id twice is the same as deleting it once. */
  lemma DeleteIdempotent(state: State, id: string)
    ensures Reduce(Reduce(state, DeleteEvent(id)), DeleteEvent(id)) == Reduce(state, DeleteEvent(id))
  {
    FilterIdempotent(state.events, (ev: Event) => ev.id != id);
  }

  /** Deleting an id that is not in the list changes nothing. */
  lemma DeleteAbsentIsNoop(state: State, id: string)
    requires !HasId(state.events, id)
    ensures Reduce(state, DeleteEvent(id)) == state
  {
    FilterKeepsAll(state.events, (ev: Event) => ev.id != id);
  }

  /** SET_SELECTED_DATE and SET_CURRENT_MONTH change their own field and nothing else. */
  lemma SetDateFieldsOnly(state: State, d: CalendarDate)
    ensures Reduce(state, SetSelectedDate(d)) == State(state.events, d, state.currentMonth)
    ensures Reduce(state, SetCurrentMonth(d)) == State(state.events, state.selectedDate, d)
  {
  }

  /** LOAD_EVENTS replaces the list wholesale and keeps both dates. */
  lemma LoadReplacesEvents(state: State, events: seq<Event>)
    ensures Reduce(state, LoadEvents(events)) == State(events, state.selectedDate, state.currentMonth)
  {
  }

  /** An unrecognised action returns the state unchanged. */
  lemma OtherIsNoop(state: State, kind: string)
    ensures Reduce(state, Other(kind)) == state
  {
  }

  /** What a dispatcher must guarantee for ids to stay unique: an added id is fresh, a loaded list has unique ids. */
  predicate KeepsIdsFresh(state: State, action: Action) {
    match action
    case AddEvent(e) => !HasId(state.events, e.id)
    case LoadEvents(es) => UniqueIds(es)
    case _ => true
  }

  lemma {:induction false} RemoveByIdKeepsUnique(events: seq<Event>, id: string)
    requires UniqueIds(events)
    ensures UniqueIds(RemoveById(events, id))
  {
    if events != [] {
      var p := (ev: Event) => ev.id != id;
      var tail := events[1..];
      assert UniqueIds(tail) by {
        forall i, j | 0 <= i < j < |tail| ensures tail[i].id != tail[j].id {
          assert tail[i] == events[i + 1] && tail[j] == events[j + 1];
        }
      }
      RemoveByIdKeepsUnique(tail, id);
      var rest := RemoveById(tail, id);
      if p(events[0]) {
        assert RemoveById(events, id) == [events[0]] + rest;
        forall k | 0 <= k < |rest| ensures rest[k].id != events[0].id {
          assert rest[k] in tail;
          var j :| 0 <= j < |tail| && tail[j] == rest[k];
          assert events[j + 1] == rest[k];
        }
      }
    }
  }

  /** Ids stay unique under every action whose added id is fresh and whose loaded list is unique. */
  lemma ReducePreservesUniqueIds(state: State, action: Action)
    requires UniqueIds(state.events) && KeepsIdsFresh(state, action)
    ensures UniqueIds(Reduce(state, action).events)
  {
    match action
    case AddEvent(e) =>
      var r := Reduce(state, action).events;
      forall i, j | 0 <= i < j < |r| ensures r[i].id != r[j].id {
        if j == |state.events| {
          assert r[i] == state.events[i];
        }
      }
    case UpdateEvent(e) =>
      UpdateKeepsIds(state, e);
    case DeleteEvent(id) =>
      RemoveByIdKeepsUnique(state.events, id);
    case _ =>
  }

  /** The initial list is empty, so its ids are trivially unique. */
  lemma InitialIdsUnique(today: CalendarDate)
    ensures UniqueIds(InitialState(today).events)
  {
  }
}

# Event calendar core in Dafny

This project models the state and the data logic of a React month calendar
with events. The model covers:

- The event store: a reducer over the event list, the selected date and the displayed month.
- The month grid and the week row of day cells, with their event lookups and overflow counts.
- The calendar page: search filter, save, drag-and-drop, month navigation and its own view state.
- The create/edit dialog: form initialisation, field handlers, date-input conversion, interval parsing and submit.
- The details dialog: the repeat sentence and the delete action.

Rendering, animation and drag-and-drop wiring are not modelled. The model keeps only what each
component computes and dispatches.

One Dafny module stands for each component:

| module | component |
|---|---|
| `EventContext` | `eventReducer` and `initialState` |
| `MonthView` | the month grid and its cells |
| `WeekView` | the week row and the weekday header |
| `Calendar` | the page, including the `CalendarView` class that holds its `useState` values |
| `EventModal` | the create/edit dialog, including the `ModalForm` class that holds `formData` |
| `EventDetailsModal` | the details dialog |

The JavaScript and date-fns behaviour the components rely on lives in four support modules:

- `Dates`: a proleptic Gregorian calendar on day numbers, with `addDays`, `startOfWeek`, `endOfWeek`, `startOfMonth`, `endOfMonth`, `eachDayOfInterval` and `addMonths`/`subMonths`.
- `DateFormat`: the `dd-MM-yyyy`, `yyyy-MM-dd`, `d` and `EEE` formats, and strict parsing of the first two.
- `Strings`: `String(n)`, `Number.parseInt`, ASCII `toLowerCase` and `includes`.
- `Seqs`: `filter`, `map` and `slice(0, k)`.

Stateful parts are classes whose methods state their whole new state:

- `Calendar.CalendarView` holds the page's dialog flags, the selected and edited events, the search text, the colour filter and the view type, next to the reducer state.
- `EventModal.ModalForm` holds the dialog's `formData`.

Loops are modelled as methods with loop invariants, proved against the cell function:

- `WeekView.BuildWeek` is the seven-day cell loop.
- `WeekView.RenderDays` is the weekday header loop.

Points where the model follows the code rather than a plain reading of it:

- The selected date is always a date. Every `SET_SELECTED_DATE` in these files carries one, so the `selectedDate || currentMonth` fallback of the week start never applies.
- The week view looks events up by `yyyy-MM-dd`, but saving and dropping store `dd-MM-yyyy`. `WeekView.DayFirstDatesNeverMatch` and `Calendar.DroppedEventNotInWeek` prove that such events are never found on any day, and that every drop target accepts them. The page never shows the week view (`viewType` stays `'month'`), so the mismatch is latent; the model keeps the lookup as written.
- The week view's click, drop and `canDrop` handlers read the loop's one `let day` variable after the loop has moved it seven days past the week start. The model keeps this binding (`WeekView.RouteClickAsWritten`, `WeekView.DropTargetAsWritten`) next to the evidently intended one (`WeekView.RouteClick`, `WeekView.DropTarget`); see "## Findings".
- The repeat sentence is kept exactly as the code builds it:
  - it has a double space after "Repeats";
  - `slice(0, -2)` cuts "daily" to "dai";
  - the unit is never shown.
- `InputDateValue` returns `None` where date-fns `format` would throw on an invalid date, for example `31-02-2024`.
- `DateFromInput` returns `None` for a value that is not a date, the empty value of a cleared input included. In that case the form is not updated.
- date-fns `parse` with `yyyy` rejects year 0. Formatting writes a year `y <= 0` as `1 - y`, padded to four digits.
- `handleSubmit` uses `editingEvent?.id || freshId`, so an edited event with an empty id gets the fresh id.
- The dialog's form carries no `id`, because submit always replaces it.
- `colorFilter` is never set by these files, so it stays `""`. The filter is still modelled for any value.

## Model

| member | source | states |
|---|---|---|
| EventContext.ReplaceById | src/components/event-context.jsx:21 | the map behind UPDATE_EVENT; its properties are in UpdateReplacesById, UpdateAbsentIsNoop and UpdateKeepsIds |
| EventContext.RemoveById | src/components/event-context.jsx:26 | the filter behind DELETE_EVENT; its properties are in DeleteKeepsOthers, DeleteKeepsOrder, DeleteIdempotent and RemoveByIdKeepsUnique |
| EventContext.InitialState | src/components/event-context.jsx:7-11 | the initial state has no events and both dates set to the load day |
| EventContext.Reduce | src/components/event-context.jsx:14-37 | only SET_SELECTED_DATE changes the selected date, only SET_CURRENT_MONTH the month; the two SET actions and unknown actions keep the events |
| EventContext.AddAppends | src/components/event-context.jsx:16-17 | ADD_EVENT appends the event last and keeps the old list as a prefix, and both dates |
| EventContext.UpdateReplacesById | src/components/event-context.jsx:18-22 | UPDATE_EVENT keeps the length; positions with the event's id get the new event, all others are unchanged |
| EventContext.UpdateAbsentIsNoop | src/components/event-context.jsx:18-22 | updating an id that is not present leaves the whole state unchanged |
| EventContext.UpdateKeepsIds | src/components/event-context.jsx:18-22 | UPDATE_EVENT never changes the id at any position |
| EventContext.DeleteKeepsOthers | src/components/event-context.jsx:23-27 | after DELETE_EVENT an event is listed iff it was listed before and has another id |
| EventContext.DeleteKeepsOrder | src/components/event-context.jsx:26 | removal distributes over concatenation, so survivors keep their order |
| EventContext.DeleteIdempotent | src/components/event-context.jsx:23-27 | deleting the same id twice equals deleting it once |
| EventContext.DeleteAbsentIsNoop | src/components/event-context.jsx:23-27 | deleting an absent id leaves the state unchanged |
| EventContext.SetDateFieldsOnly | src/components/event-context.jsx:28-31 | each SET action replaces exactly its own date field |
| EventContext.LoadReplacesEvents | src/components/event-context.jsx:32-33 | LOAD_EVENTS replaces the list and keeps both dates |
| EventContext.OtherIsNoop | src/components/event-context.jsx:34-35 | an unknown action returns the state unchanged |
| EventContext.RemoveByIdKeepsUnique | src/components/event-context.jsx:26 | filtering out an id keeps a list with unique ids unique |
| EventContext.ReducePreservesUniqueIds | src/components/event-context.jsx:14-37 | every action keeps ids unique, given that an added id is fresh and a loaded list is unique |
| EventContext.InitialIdsUnique | src/components/event-context.jsx:8 | the initial (empty) list has unique ids |
| MonthView.MonthGrid | src/components/MonthView.jsx:10-12 | the days from the Sunday starting the month's first week to the Saturday ending its last; its properties are in MonthGridEnds, MonthGridConsecutive, MonthGridLength, MonthGridFocal and MonthGridCoversMonth |
| MonthView.IsCurrentMonth | src/components/MonthView.jsx:26 | same year and month as the displayed month; on the grid it holds exactly on the month's stretch (MonthGridCellInMonth) |
| MonthView.GetEventsForDay | src/components/MonthView.jsx:14-17 | an event is found for a day iff its date string is the day as dd-MM-yyyy |
| MonthView.GetEventsForDayKeepsOrder | src/components/MonthView.jsx:16 | the lookup keeps input order (distributes over concatenation) |
| MonthView.DayCell | src/components/MonthView.jsx:24-66 | a cell holds its day, its events, in-month iff same month, the first min(n, 2) events as a prefix, and "+N more" iff more than 2, with N = n - 2 |
| MonthView.Cells | src/components/MonthView.jsx:24-71 | there is one cell per grid day, in grid order |
| MonthView.MonthGridEnds | src/components/MonthView.jsx:10-12 | the grid starts on the Sunday at most 6 days before the 1st and ends on the Saturday at most 6 days after the last day |
| MonthView.MonthGridConsecutive | src/components/MonthView.jsx:12 | cell i is i days after cell 0 and the day after cell i-1; day numbers strictly increase |
| MonthView.MonthGridLength | src/components/MonthView.jsx:12 | the grid has 28 to 42 cells, a multiple of 7 |
| MonthView.MonthGridLead | src/components/MonthView.jsx:10-12 | the first cell is `lead` days before the 1st, where `lead` is the 1st's weekday; the length is between lead + days-in-month and that plus 6 |
| MonthView.MonthGridCellInMonth | src/components/MonthView.jsx:26 | cell i is in the displayed month iff lead <= i < lead + days-in-month |
| MonthView.MonthGridDayAt | src/components/MonthView.jsx:10-12 | day k of the month sits at index lead + k - 1 |
| MonthView.MonthGridFocal | src/components/MonthView.jsx:10-26 | the month's days fill one contiguous stretch of the grid, the in-month flag holds exactly there, and at most 6 padding days come before or after |
| MonthView.MonthGridCoversMonth | src/components/MonthView.jsx:10-12 | every day of the displayed month is in the grid |
| MonthView.June2024Grid | src/components/MonthView.jsx:10-12 | the June 2024 grid has 42 cells, from 26 May to 6 July |
| WeekView.GetEventsForDay | src/components/WeekView.jsx:29-32 | an event is found for a day iff its date string is the day as yyyy-MM-dd |
| WeekView.GetEventsForDayKeepsOrder | src/components/WeekView.jsx:31 | the lookup keeps input order |
| WeekView.DayCell | src/components/WeekView.jsx:37-75 | a cell holds its day, the label `d`, its events, the first min(n, 3) as dots, and "+N" iff more than 3, with N = n - 3 |
| WeekView.BuildWeek | src/components/WeekView.jsx:34-79 | the loop yields 7 cells; cell i is for the day i days after the week start and equals the cell for that day; the shared `day` ends 7 days after the start |
| WeekView.RenderDays | src/components/WeekView.jsx:82-94 | the header has 7 names; name i is the weekday (start + i) mod 7; from a Sunday it is Sun..Sat |
| WeekView.CanDrop | src/components/WeekView.jsx:46 | a drop onto a day is refused exactly when the event's date string is that day as yyyy-MM-dd; its properties are in DayFirstDatesNeverMatch and DroppedEventNotInWeek |
| WeekView.RouteClick | src/components/WeekView.jsx:63 | corrected routing: a click goes to the event handler with the cell's events iff it has events, else to the day handler, and always with the cell's own date |
| WeekView.RouteClickAsWritten | src/components/WeekView.jsx:63 | as written: the same choice of handler, but always with the loop's shared `day`, whatever cell was clicked |
| WeekView.DropTarget | src/components/WeekView.jsx:41-51 | corrected drop: accepted iff canDrop holds for the cell's date, and then lands on the cell's date |
| WeekView.DropTargetAsWritten | src/components/WeekView.jsx:41-51 | as written: accepted iff canDrop holds for the shared `day`, and then lands on that day |
| WeekView.HandlersMissTheirCell | src/components/WeekView.jsx:35-78 | as written, every click and accepted drop on a cell of the week reaches the same weekday one week later, never the cell's day; the corrected drop lands on the cell |
| WeekView.DayFirstDatesNeverMatch | src/components/WeekView.jsx:29-46 | for events whose date has a dash at index 2 (dd-MM-yyyy), the lookup is empty and every day accepts the drop |
| Calendar.Matches | src/components/Calendar.jsx:24-26 | the per-event test of the filter; MatchesIffOccurs states it as an occurrence of the lowered search in the lowered title plus the colour test |
| Calendar.FilteredEvents | src/components/Calendar.jsx:23-27 | an event is shown iff its lower-cased title includes the lower-cased search and, when a colour is set, its colour is that colour |
| Calendar.FilteredEventsKeepsOrder | src/components/Calendar.jsx:23 | the filter keeps input order |
| Calendar.NoFilterShowsAll | src/components/Calendar.jsx:19-27 | with an empty search and no colour, every event is shown, in order |
| Calendar.MatchesIffOccurs | src/components/Calendar.jsx:24-26 | the match holds iff the lowered search occurs at some index of the lowered title, and the colour agrees when one is set |
| Calendar.SearchIgnoresCase | src/components/Calendar.jsx:24 | a search and its lower-cased form filter alike |
| Calendar.ExpandRecurringEvents | src/components/Calendar.jsx:29-32 | the stub returns its input for any month |
| Calendar.SaveAction | src/components/Calendar.jsx:50-55 | while editing, save dispatches UPDATE_EVENT with the data as given; otherwise ADD_EVENT with the data under a fresh id |
| Calendar.DropAction | src/components/Calendar.jsx:60-63 | a drop dispatches UPDATE_EVENT of the same event with only its date changed, to the target as dd-MM-yyyy |
| Calendar.WeekStartDate | src/components/Calendar.jsx:65 | the week start is a Sunday, 0 to 6 days before or on the selected date |
| Calendar.PrevMonthOf | src/components/Calendar.jsx:87 | "<" moves to the previous calendar month and clamps the day to that month's length |
| Calendar.NextMonthOf | src/components/Calendar.jsx:91 | ">" moves to the next calendar month and clamps the day to that month's length |
| Calendar.NavigationRoundTrip | src/components/Calendar.jsx:87-91 | next then previous, and previous then next, each return to the same month and the same month grid |
| Calendar.NavigationClamps | src/components/Calendar.jsx:87-91 | 31 Jan 2024 goes to 29 Feb 2024 and back to 29 Jan: the day is clamped, not restored |
| Calendar.NewSaveAppends | src/components/Calendar.jsx:53-55 | a new save appends the data under the fresh id and keeps ids unique when that id is fresh |
| Calendar.EditSaveUpdates | src/components/Calendar.jsx:51-52 | an edit save replaces in place the events with the data's id, and keeps ids unique |
| Calendar.DropShowsOnTarget | src/components/Calendar.jsx:60-63 | after a drop the moved event appears on the target day in the month view, and no id changes position |
| Calendar.DroppedEventNotInWeek | src/components/Calendar.jsx:60-63 | a dropped event is found by the week view on no day, and every week day accepts it |
| Calendar.CalendarView.constructor | src/components/Calendar.jsx:12-21 | the first render has the initial state, both dialogs closed, nothing selected or edited, no filter, and the month view |
| Calendar.CalendarView.VisibleEvents | src/components/Calendar.jsx:104 | the views receive exactly the stored events that pass the filter |
| Calendar.CalendarView.Dispatch | src/components/Calendar.jsx:12 | the state becomes the reducer's result; nothing else changes |
| Calendar.CalendarView.HandleDayClick | src/components/Calendar.jsx:34-38 | selects the day, clears the edited event and opens the dialog; nothing else changes |
| Calendar.CalendarView.HandleViewEvent | src/components/Calendar.jsx:40-43 | selects the event and opens the details dialog; nothing else changes |
| Calendar.CalendarView.HandleEditEvent | src/components/Calendar.jsx:45-48 | sets the edited event and opens the dialog; nothing else changes |
| Calendar.CalendarView.HandleSaveEvent | src/components/Calendar.jsx:50-58 | dispatches the save action, closes the dialog and clears the edited event; ids stay unique when the fresh id is fresh |
| Calendar.CalendarView.HandleEventDrop | src/components/Calendar.jsx:60-63 | dispatches the drop action, keeps unique ids, and leaves the view state unchanged |
| Calendar.CalendarView.PrevMonth | src/components/Calendar.jsx:87 | shows the previous month; events, the selected date and the view state are unchanged |
| Calendar.CalendarView.NextMonth | src/components/Calendar.jsx:91 | shows the next month; events, the selected date and the view state are unchanged |
| Calendar.CalendarView.SetSearch | src/components/Calendar.jsx:78 | sets the search text; nothing else changes |
| Calendar.CalendarView.CloseModal | src/components/Calendar.jsx:124 | closes the event dialog; nothing else changes |
| Calendar.CalendarView.CloseDetails | src/components/Calendar.jsx:130 | closes the details dialog; nothing else changes |
| Calendar.CalendarView.DetailsDelete | src/components/EventDetailsModal.jsx:15-18 | deletes the shown event, which is then no longer stored, and closes the details dialog |
| Calendar.CalendarView.DetailsEdit | src/components/EventDetailsModal.jsx:20-23 | opens the edit dialog on the shown event and closes the details dialog |
| Calendar.CalendarView.WeekStart | src/components/Calendar.jsx:65 | the week start is a Sunday within the 6 days up to the selected date |
| EventModal.NewForm | src/components/EventModal.jsx:19-31 | the new form has empty title and description, 09:00, the first colour, "Personal", no repeat (interval 1, days), and the selected date as dd-MM-yyyy |
| EventModal.EditForm | src/components/EventModal.jsx:35-39 | the edit form copies the event's fields; the repeat rule is kept, or the default when missing |
| EventModal.InitialForm | src/components/EventModal.jsx:34-54 | the effect's form: the edit form when an event is edited, else the new form (contracts of EditForm and NewForm) |
| EventModal.SubmitEvent | src/components/EventModal.jsx:58-64 | submit passes on the form's fields, with the edited event's id when it is non-empty and the fresh id otherwise |
| EventModal.EditSubmitRoundTrip | src/components/EventModal.jsx:35-64 | opening an event and submitting it untouched gives the same event, with a default repeat filled in if it had none |
| EventModal.InputDateValue | src/components/EventModal.jsx:66-68 | a non-matching string passes through; a dd-MM-yyyy match is defined iff it parses, and is then the yyyy-MM-dd reordering of its fields |
| EventModal.DateFromInput | src/components/EventModal.jsx:123 | a date-input value converts iff it parses as yyyy-MM-dd, and then to the dd-MM-yyyy reordering of its fields |
| EventModal.InputDateRoundTrip | src/components/EventModal.jsx:66-123 | a stored valid date shown in the input and picked again comes back unchanged |
| EventModal.CalendarDateRoundTrip | src/components/EventModal.jsx:66-123 | for years 1-9999 the two date renderings convert into each other |
| EventModal.IntervalFromInput | src/components/EventModal.jsx:236 | the interval is never 0: NaN and 0 become 1, any other parsed integer is kept |
| EventModal.IntervalOfDecimal | src/components/EventModal.jsx:236 | a typed positive number is read back as itself |
| EventModal.ModalForm.constructor | src/components/EventModal.jsx:19-31 | the initial form is the new-event form for the selected date |
| EventModal.ModalForm.Reset | src/components/EventModal.jsx:34-56 | the effect installs the edit form when editing, else the new form |
| EventModal.ModalForm.SetTitle | src/components/EventModal.jsx:94 | only the title changes |
| EventModal.ModalForm.SetDescription | src/components/EventModal.jsx:107 | only the description changes |
| EventModal.ModalForm.SetTime | src/components/EventModal.jsx:135 | only the time changes |
| EventModal.ModalForm.SetCategory | src/components/EventModal.jsx:148 | only the category changes |
| EventModal.ModalForm.SetColor | src/components/EventModal.jsx:173 | only the colour changes |
| EventModal.ModalForm.SetDateFromInput | src/components/EventModal.jsx:123 | the date becomes the converted value iff the value converts; otherwise the form is unchanged |
| EventModal.ModalForm.SetRecurrenceType | src/components/EventModal.jsx:190-195 | only the repeat type changes; interval and unit are kept |
| EventModal.ModalForm.SetIntervalFromInput | src/components/EventModal.jsx:233-238 | only the interval changes, to the parsed interval |
| EventModal.ModalForm.DateInputValue | src/components/EventModal.jsx:66-68 | the date input shows InputDateValue of the form's date, whose contract states the reformatting |
| EventModal.ModalForm.Submit | src/components/EventModal.jsx:58-64 | the handed-on event is the submitted form, and the form is unchanged |
| EventDetailsModal.Stem | src/components/EventDetailsModal.jsx:29 | the stem plus the type's last two characters is the type; a type shorter than two gives "" |
| EventDetailsModal.ShownInterval | src/components/EventDetailsModal.jsx:27 | a missing interval defaults to 1 |
| EventDetailsModal.RecurrenceText | src/components/EventDetailsModal.jsx:25-30 | the repeat sentence; its properties are in NoRepeatExactly, MissingIntervalIsOne, UnitIgnored, SingleIntervalShape, MultipleIntervalShape, IntervalReadsBack and RecurrenceTextExamples |
| EventDetailsModal.NoRepeatExactly | src/components/EventDetailsModal.jsx:25-30 | the text is "No repeat" iff there is no rule or its type is "none" |
| EventDetailsModal.MissingIntervalIsOne | src/components/EventDetailsModal.jsx:27 | a missing interval reads as interval 1 |
| EventDetailsModal.UnitIgnored | src/components/EventDetailsModal.jsx:25-30 | the unit never affects the text |
| EventDetailsModal.SingleIntervalShape | src/components/EventDetailsModal.jsx:28-29 | an interval of at most 1 gives "Repeats  " and the stem, with no count and no plural |
| EventDetailsModal.MultipleIntervalShape | src/components/EventDetailsModal.jsx:28-29 | an interval above 1 gives "Repeats  every N " and the stem plus "s" |
| EventDetailsModal.IntervalReadsBack | src/components/EventDetailsModal.jsx:28-29 | the number in the text parses back to the interval |
| EventDetailsModal.RecurrenceTextExamples | src/components/EventDetailsModal.jsx:25-30 | weekly every 2 gives "Repeats  every 2 weeks"; daily gives "Repeats  dai"; no rule gives "No repeat" |
| EventDetailsModal.DeleteAction | src/components/EventDetailsModal.jsx:15-18 | Delete dispatches DELETE_EVENT with the shown event's id |
| EventDetailsModal.DeleteRemovesShownEvent | src/components/EventDetailsModal.jsx:15-18 | after Delete the shown event is gone, exactly the events with its id are removed, and both dates are kept |
| Dates.Weekday | src/components/WeekView.jsx:88 | the weekday lies in 0..6, Sunday being 0; WeekdayAddDays and WeekdayShift state how it moves with the date |
| Dates.StartOfWeek | src/components/MonthView.jsx:12 | startOfWeek is a Sunday, the day itself minus its weekday |
| Dates.EndOfWeek | src/components/MonthView.jsx:12 | endOfWeek is a Saturday, the day itself plus 6 minus its weekday |
| Dates.StartOfWeekUnique | src/components/Calendar.jsx:65 | the week start is the only Sunday among the 6 days up to the date |
| Dates.EndOfWeekUnique | src/components/MonthView.jsx:12 | the week end is the only Saturday among the 6 days from the date |
| Dates.StartOfMonth | src/components/MonthView.jsx:10 | startOfMonth is day 1 of the same month |
| Dates.EndOfMonth | src/components/MonthView.jsx:11 | endOfMonth is the last day of the same month |
| Dates.InMonthIffInRange | src/components/MonthView.jsx:26 | a date is in a month iff its day number lies between that month's first and last day |
| Dates.EachDayOfInterval | src/components/MonthView.jsx:12 | the interval lists end - start + 1 days, day i being start + i |
| Dates.NextDay | src/components/WeekView.jsx:78 | the next day has day number one higher |
| Dates.AddDays | src/components/WeekView.jsx:78 | addDays(d, n) has day number d + n, for any sign of n |
| Dates.AddDaysAdditive | src/components/WeekView.jsx:78 | adding a then b days equals adding a + b days |
| Dates.FromDayNumberOfDayNumber | src/components/WeekView.jsx:78 | day numbers name dates one to one |
| Dates.WeekdayAddDays | src/components/WeekView.jsx:88-91 | n days later the weekday is (w + n) mod 7 |
| Dates.AddMonths | src/components/Calendar.jsx:87-91 | addMonths shifts the month index by n and clamps the day to the target month |
| Dates.MonthIndexInjective | src/components/Calendar.jsx:87-91 | equal month indices mean equal year and month |
| DateFormat.FormatDMY | src/components/MonthView.jsx:15 | dd-MM-yyyy has dashes at indices 2 and 5 |
| DateFormat.FormatISO | src/components/WeekView.jsx:30 | yyyy-MM-dd starts with four digits |
| DateFormat.DayLabel | src/components/WeekView.jsx:37 | `format(d, 'd')`, the unpadded day of the month |
| DateFormat.WeekdayName | src/components/WeekView.jsx:88 | `format(d, 'EEE')` for each weekday; RenderDays states the header it yields |
| DateFormat.ParseDMY | src/components/EventModal.jsx:67 | strict dd-MM-yyyy parse; ParseFormatDMY and FormatParseDMY make it the inverse of FormatDMY |
| DateFormat.ParseISO | src/components/EventModal.jsx:123 | strict yyyy-MM-dd parse; ParseFormatISO and FormatParseISO make it the inverse of FormatISO |
| DateFormat.Checked | src/components/EventModal.jsx:67 | parsed fields give a date iff the year is positive and the day exists in that month |
| DateFormat.ParseFormatDMY | src/components/EventModal.jsx:67 | parsing the dd-MM-yyyy rendering of a date of years 1-9999 gives the date back |
| DateFormat.FormatParseDMY | src/components/EventModal.jsx:67 | any accepted dd-MM-yyyy string is the rendering of its parse |
| DateFormat.ParseFormatISO | src/components/EventModal.jsx:123 | parsing the yyyy-MM-dd rendering of a date of years 1-9999 gives the date back |
| DateFormat.FormatParseISO | src/components/EventModal.jsx:123 | any accepted yyyy-MM-dd string is the rendering of its parse |
| DateFormat.ISONeverDMY | src/components/WeekView.jsx:30-31 | no yyyy-MM-dd rendering equals any dd-MM-yyyy rendering |
| Strings.ValueOfDecimal | src/components/EventDetailsModal.jsx:28 | the decimal rendering of n denotes n |
| Strings.ParseInt | src/components/EventModal.jsx:236 | `Number.parseInt` on decimal text; ParseIntOfDigits, ParseIntOfDecimal and ParseIntOfDecimalPrefix state what it reads |
| Strings.ParseIntOfDigits | src/components/EventModal.jsx:236 | parseInt reads a run of digits as its value, whatever non-digit text follows |
| Strings.ParseIntOfDecimal | src/components/EventModal.jsx:236 | parseInt of String(n) is n |
| Strings.ParseIntOfDecimalPrefix | src/components/EventDetailsModal.jsx:28-29 | parseInt reads String(n) back whatever non-digit text follows |
| Strings.Lower | src/components/Calendar.jsx:24 | toLowerCase keeps the length and lowers each ASCII letter |
| Strings.Includes | src/components/Calendar.jsx:24 | `String#includes`; IncludesIsOccurrence states it as an occurrence at some index |
| Strings.IncludesIsOccurrence | src/components/Calendar.jsx:24 | includes holds iff the needle occurs at some index |
| Seqs.Filter | src/components/event-context.jsx:26 | filter keeps only elements of the input, and only those satisfying the predicate |
| Seqs.FilterComplete | src/components/event-context.jsx:26 | filter drops no element that satisfies the predicate |
| Seqs.FilterConcat | src/components/event-context.jsx:26 | filter distributes over concatenation |
| Seqs.FilterIdempotent | src/components/event-context.jsx:26 | filtering twice equals filtering once |
| Seqs.MapSeq | src/components/event-context.jsx:21 | map keeps the length and applies the function at each index |
| Seqs.Take | src/components/MonthView.jsx:51 | slice(0, k) is a prefix of length min(n, k) |
| Seqs.Overflow | src/components/MonthView.jsx:63-66 | there is a "+N" count iff more than the cap, and N plus the cap is the count |

## Findings

| source | as written | input that shows it | evidently intended | confidence | as-written member | corrected member |
|---|---|---|---|---|---|---|
| src/components/WeekView.jsx:63 | the cell's click handler closes over the single `let day` of the loop, which ends 7 days after the week start | for the week starting Sunday 2 June 2024, a click on Tuesday 4 June calls the handler with Sunday 9 June | the handler receives the clicked cell's date | high; not executed | WeekView.RouteClickAsWritten (with WeekView.HandlersMissTheirCell) | WeekView.RouteClick |
| src/components/WeekView.jsx:44-46 | `canDrop` and `drop` close over the same variable, so the guard tests, and the drop moves the event to, the day 7 days after the week start | for the week starting Sunday 2 June 2024, dropping onto Tuesday 4 June moves the event to Sunday 9 June | the guard and the drop use the target cell's date | high; not executed | WeekView.DropTargetAsWritten (with WeekView.HandlersMissTheirCell) | WeekView.DropTarget |

## Left out

- Rendering: markup, styling, animation, icons and dialog open/close transitions are not modelled. Neither is the "today" highlight, which needs the clock.
- All uses of the current time are parameters. `new Date()` for the initial dates and the "+ Add Event" button is the `today` argument. `` `event-${Date.now()}` `` is the `freshId` argument. The time of day is not modelled; dates are calendar days.
- Persistence through `localStorage` (`EventProvider`'s two effects, JSON parse and stringify) is not modelled. `LOAD_EVENTS` itself is.
- The react-dnd wiring (`useDrop`, drag items, `isOver`) is not modelled. What a drop dispatches is (`Calendar.DropAction`), and so is the week view's `canDrop` guard (`WeekView.CanDrop`).
- The details dialog's date line (`EEEE, MMMM d, yyyy`) is not modelled.
- The unused `error` prop and `errors` state of the event dialog are not modelled.
- The browser's `min="1"` on the interval input is not modelled. `EventModal.IntervalFromInput` states what the handler does with any typed text, negative numbers included.
- `useEvents`' error for use outside the provider is not modelled, nor is the provider itself.
- `EventCard.jsx`, `App.jsx` and the UI kit components are not part of this model.
- The week view calls `onEventClick`, which the page never passes, so a click on a day with events would fail. The model states where `WeekView.RouteClick` routes the click. It does not model the page's missing handler.
- Strings.ParseInt: models `Number.parseInt` on ASCII white space, an optional sign and decimal digits. It leaves out:
  - other Unicode white space;
  - the `0x` prefix;
  - the loss of precision on numbers beyond 2^53, because the model's integers are unbounded.
- DateFormat.ParseDMY and DateFormat.ParseISO accept only the exact two-, two- and four-digit shape. date-fns `parse` also accepts shorter fields (`1-2-2024`). Every call site in these files applies the parse only to strings of the exact shape: the dd-MM-yyyy parse runs behind a regular expression, and a browser date input produces yyyy-MM-dd values.
- Dates: models date-fns on proleptic Gregorian calendar days without time zones or daylight-saving shifts. `startOfWeek` and `endOfWeek` use the default week start, Sunday.
- WeekView.RouteClick: binds the clicked cell's date, the intended behaviour. The code's shared binding is modelled separately by `WeekView.RouteClickAsWritten` (see "## Findings").
- WeekView.CanDrop: is evaluated on whatever day it is given. On the cell's date this is the intended guard (`WeekView.DropTarget`). The code evaluates it on the shared day seven days after the week start (`WeekView.DropTargetAsWritten`).
- Dates.EachDayOfInterval: gives no days for an end before the start. date-fns throws there (version 2) or lists the days backwards (version 3). The month grid never asks for such an interval, because its start is on or before the month's first day and its end on or after the last.
- Calendar.ExpandRecurringEvents: the source leaves the expansion unwritten and returns its input, and so does the model. Recurring events are not expanded.

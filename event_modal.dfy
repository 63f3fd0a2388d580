/**
 * The create/edit event dialog: the form it starts from, the handlers that
 * change one form field at a time, the conversion between the stored
 * `dd-MM-yyyy` date and the date input's `yyyy-MM-dd` value, the interval
 * parse, and the event it hands to its `onSave` on submit.
 */
module EventModal {
  import opened Wrappers
  import opened Strings
  import opened Dates
  import opened DateFormat
  import opened EventContext

  /** `EVENT_COLORS`, the colour palette offered by the dialog. */
  const EventColors: seq<string> := ["#8B5CF6", "#EC4899", "#06B6D4", "#10B981", "#F59E0B", "#EF4444", "#6366F1", "#84CC16"]

  /** `CATEGORIES`, the categories offered by the dialog. */
  const Categories: seq<string> := ["Work", "Personal", "Health", "Education", "Social", "Travel", "Other"]

  /** The repeat rule a form gets when there is none: type "none", interval 1, unit "days". */
  const DefaultRecurrence: Recurrence := Recurrence("none", Some(1), "days")

  /**
   * `formData`. It has no `id`: on submit the id always comes from the edited
   * event or a fresh one, whatever the form holds.
   */
  datatype FormData = FormData(
    title: string,
    description: string,
    date: string,
    time: string,
    color: string,
    category: string,
    recurrence: Recurrence)

  /** The form for a new event on `selectedDate`. */
  function NewForm(selectedDate: CalendarDate): (f: FormData)
    ensures f.title == "" && f.description == "" && f.time == "09:00"
    ensures f.color == EventColors[0] && f.category == "Personal" && f.category in Categories
    ensures f.recurrence == DefaultRecurrence
    ensures f.date == FormatDMY(selectedDate)
  {
    FormData("", "", FormatDMY(selectedDate), "09:00", EventColors[0], "Personal", DefaultRecurrence)
  }

  /** The form for editing `e`: its fields, with the default repeat rule only when it has none. */
  function EditForm(e: Event): (f: FormData)
    ensures f.title == e.title && f.description == e.description && f.date == e.date
    ensures f.time == e.time && f.color == e.color && f.category == e.category
    ensures e.recurrence.Some? ==> f.recurrence == e.recurrence.value
    ensures e.recurrence.None? ==> f.recurrence == DefaultRecurrence
  {
    FormData(e.title, e.description, e.date, e.time, e.color, e.category, e.recurrence.GetOr(DefaultRecurrence))
  }

  /** The form the effect installs when the dialog opens or its inputs change. */
  function InitialForm(editing: Option<Event>, selectedDate: CalendarDate): FormData {
    if editing.Some? then EditForm(editing.value) else NewForm(selectedDate)
  }

  /** `handleSubmit`: the form's fields with `editingEvent?.id || freshId` as the id (an empty id counts as absent). */
  function SubmitEvent(form: FormData, editing: Option<Event>, freshId: string): (e: Event)
    ensures editing.Some? && editing.value.id != "" ==> e.id == editing.value.id
    ensures editing.None? || editing.value.id == "" ==> e.id == freshId
    ensures e.title == form.title && e.description == form.description && e.date == form.date
    ensures e.time == form.time && e.color == form.color && e.category == form.category
    ensures e.recurrence == Some(form.recurrence)
  {
    var id := if editing.Some? && editing.value.id != "" then editing.value.id else freshId;
    Event(id, form.title, form.description, form.date, form.time, form.color, form.category, Some(form.recurrence))
  }

  /** Opening an event for editing and submitting the form untouched hands back the same event, with a repeat rule filled in if it had none. */
  lemma EditSubmitRoundTrip(e: Event, freshId: string)
    requires e.id != ""
    ensures SubmitEvent(EditForm(e), Some(e), freshId) == e.(recurrence := Some(e.recurrence.GetOr(DefaultRecurrence)))
    ensures e.recurrence.Some? ==> SubmitEvent(EditForm(e), Some(e), freshId) == e
  {
  }

  /**
   * `inputDateValue`: a value matching `^\d{2}-\d{2}-\d{4}$` is reformatted as
   * `yyyy-MM-dd`, anything else (the empty string included) is passed through.
   * `None` when the string matches but is no calendar date: `format` throws.
   */
  function InputDateValue(date: string): (r: Option<string>)
    ensures !MatchesDMY(date) ==> r == Some(date)
    ensures MatchesDMY(date) ==> (r.Some? <==> ParseDMY(date).Some?)
    ensures MatchesDMY(date) && r.Some? ==> r.value == date[6..10] + "-" + date[3..5] + "-" + date[0..2]
  {
    if date != "" && MatchesDMY(date) then
      match ParseDMY(date)
      case Some(d) =>
        assert FormatISO(d) == date[6..10] + "-" + date[3..5] + "-" + date[0..2] by {
          Pad2OfField2(date, 0);
          Pad2OfField2(date, 3);
          Pad4OfField4(date, 6);
          FormatYearIsPad4(d.year);
        }
        Some(FormatISO(d))
      case None => None
    else Some(date)
  }

  /**
   * The date input's `onChange`: the `yyyy-MM-dd` value re-rendered as
   * `dd-MM-yyyy`; `None` when it is no calendar date (the empty value of a
   * cleared input included), where `format` throws and the form is not updated.
   */
  function DateFromInput(value: string): (r: Option<string>)
    ensures r.Some? <==> ParseISO(value).Some?
    ensures r.Some? ==> MatchesISO(value) && r.value == value[8..10] + "-" + value[5..7] + "-" + value[0..4]
  {
    match ParseISO(value)
    case Some(d) =>
      assert FormatDMY(d) == value[8..10] + "-" + value[5..7] + "-" + value[0..4] by {
        Pad2OfField2(value, 8);
        Pad2OfField2(value, 5);
        Pad4OfField4(value, 0);
        FormatYearIsPad4(d.year);
      }
      Some(FormatDMY(d))
    case None => None
  }

  /** A stored date shown in the date input and picked again unchanged comes back as the same stored string. */
  lemma InputDateRoundTrip(date: string)
    requires InputDateValue(date).Some? && MatchesDMY(date)
    ensures DateFromInput(InputDateValue(date).value) == Some(date)
  {
    var d := ParseDMY(date).value;
    FormatParseDMY(date);
    assert 1 <= d.year <= 9999 by {
      assert d.year == Field4(date, 6);
    }
    ParseFormatISO(d);
  }

  /** For every date of years 1 to 9999 the stored form and the input value convert into each other. */
  lemma CalendarDateRoundTrip(d: CalendarDate)
    requires 1 <= d.year <= 9999
    ensures InputDateValue(FormatDMY(d)) == Some(FormatISO(d))
    ensures DateFromInput(FormatISO(d)) == Some(FormatDMY(d))
  {
    ParseFormatDMY(d);
    ParseFormatISO(d);
  }

  /** `Number.parseInt(value) || 1`: the parsed integer, with `NaN` and 0 replaced by 1. */
  function IntervalFromInput(value: string): (n: int)
    ensures n != 0
    ensures ParseInt(value).None? ==> n == 1
    ensures ParseInt(value).Some? ==> n == if ParseInt(value).value == 0 then 1 else ParseInt(value).value
  {
    match ParseInt(value)
    case None => 1
    case Some(k) => if k == 0 then 1 else k
  }

  /** An interval typed as its decimal rendering is read back as itself. */
  lemma IntervalOfDecimal(n: nat)
    requires n >= 1
    ensures IntervalFromInput(Decimal(n)) == n
  {
    ParseIntOfDecimal(n);
  }

  /** The state behind the dialog: its `formData`, changed one handler at a time. */
  class ModalForm {
    var formData: FormData

    /** `useState` with the new-event form for the selected date. */
    constructor (selectedDate: CalendarDate)
      ensures formData == NewForm(selectedDate)
    {
      formData := NewForm(selectedDate);
    }

    /** The effect that re-initialises the form from the edited event, or for a new event on the selected date. */
    method Reset(editing: Option<Event>, selectedDate: CalendarDate)
      modifies this
      ensures formData == InitialForm(editing, selectedDate)
    {
      formData := InitialForm(editing, selectedDate);
    }

    method SetTitle(value: string)
      modifies this
      ensures formData == old(formData).(title := value)
    {
      formData := formData.(title := value);
    }

    method SetDescription(value: string)
      modifies this
      ensures formData == old(formData).(description := value)
    {
      formData := formData.(description := value);
    }

    method SetTime(value: string)
      modifies this
      ensures formData == old(formData).(time := value)
    {
      formData := formData.(time := value);
    }

    method SetCategory(value: string)
      modifies this
      ensures formData == old(formData).(category := value)
    {
      formData := formData.(category := value);
    }

    method SetColor(color: string)
      modifies this
      ensures formData == old(formData).(color := color)
    {
      formData := formData.(color := color);
    }

    /** The date input's `onChange`; `ok` is false when the conversion throws and the form is left as it was. */
    method SetDateFromInput(value: string) returns (ok: bool)
      modifies this
      ensures ok <==> DateFromInput(value).Some?
      ensures ok ==> formData == old(formData).(date := DateFromInput(value).value)
      ensures !ok ==> formData == old(formData)
    {
      var converted := DateFromInput(value);
      ok := converted.Some?;
      if ok {
        formData := formData.(date := converted.value);
      }
    }

    /** The repeat type select: the type changes, interval and unit are kept. */
    method SetRecurrenceType(kind: string)
      modifies this
      ensures formData.recurrence.kind == kind
      ensures formData.recurrence.interval == old(formData).recurrence.interval
      ensures formData.recurrence.unit == old(formData).recurrence.unit
      ensures formData == old(formData).(recurrence := formData.recurrence)
    {
      formData := formData.(recurrence := formData.recurrence.(kind := kind));
    }

    /** The interval input: the parsed interval replaces the old one, type and unit are kept. */
    method SetIntervalFromInput(value: string)
      modifies this
      ensures formData.recurrence == old(formData).recurrence.(interval := Some(IntervalFromInput(value)))
      ensures formData == old(formData).(recurrence := formData.recurrence)
    {
      formData := formData.(recurrence := formData.recurrence.(interval := Some(IntervalFromInput(value))));
    }

    /** The value shown in the date input. */
    function DateInputValue(): Option<string>
      reads this
    {
      InputDateValue(formData.date)
    }

    /** `handleSubmit`: the event handed to `onSave`; the form itself is not changed. */
    method Submit(editing: Option<Event>, freshId: string) returns (eventData: Event)
      ensures eventData == SubmitEvent(formData, editing, freshId)
    {
      eventData := SubmitEvent(formData, editing, freshId);
    }
  }
}

/**
 * The event details dialog: the sentence that describes an event's repeat
 * rule (`getRecurrenceText`) and the action its Delete button dispatches.
 */
module EventDetailsModal {
  import opened Wrappers
  import opened Strings
  import opened EventContext

  /** `type.slice(0, -2)`: the repeat type without its last two characters. */
  function Stem(kind: string): (s: string)
    ensures |kind| >= 2 ==> s + kind[|kind| - 2..] == kind
    ensures |kind| < 2 ==> s == ""
  {
    if |kind| >= 2 then kind[..|kind| - 2] else ""
  }

  /** The interval the sentence uses: a missing `interval` counts as 1. */
  function ShownInterval(rec: Recurrence): (n: int)
    ensures rec.interval.Some? ==> n == rec.interval.value
    ensures rec.interval.None? ==> n == 1
  {
    rec.interval.GetOr(1)
  }

  /** `getRecurrenceText()` for the event's `recurrence`. */
  function RecurrenceText(recurrence: Option<Recurrence>): string {
    if recurrence.None? || recurrence.value.kind == "none" then "No repeat"
    else
      var rec := recurrence.value;
      var interval := ShownInterval(rec);
      var intervalText := if interval > 1 then " every " + Decimal(interval) else "";
      "Repeats " + intervalText + " " + Stem(rec.kind) + (if interval > 1 then "s" else "")
  }

  /** The sentence is exactly "No repeat" when, and only when, there is no repeat rule or its type is "none". */
  lemma NoRepeatExactly(recurrence: Option<Recurrence>)
    ensures RecurrenceText(recurrence) == "No repeat" <==> recurrence.None? || recurrence.value.kind == "none"
  {
    if !(recurrence.None? || recurrence.value.kind == "none") {
      var t := RecurrenceText(recurrence);
      assert t[..8] == "Repeats ";
      assert t[0] != "No repeat"[0];
    }
  }

  /** A missing interval reads the same as an interval of 1. */
  lemma MissingIntervalIsOne(kind: string, unit: string)
    ensures RecurrenceText(Some(Recurrence(kind, None, unit))) == RecurrenceText(Some(Recurrence(kind, Some(1), unit)))
  {
  }

  /** The unit never appears in the sentence. */
  lemma UnitIgnored(kind: string, interval: Option<int>, a: string, b: string)
    ensures RecurrenceText(Some(Recurrence(kind, interval, a))) == RecurrenceText(Some(Recurrence(kind, interval, b)))
  {
  }

  /** With an interval of at most 1 there is no "every N" part and no plural "s". */
  lemma SingleIntervalShape(rec: Recurrence)
    requires rec.kind != "none" && ShownInterval(rec) <= 1
    ensures RecurrenceText(Some(rec)) == "Repeats  " + Stem(rec.kind)
  {
  }

  /** With an interval above 1 the sentence names it and pluralises the stem. */
  lemma MultipleIntervalShape(rec: Recurrence)
    requires rec.kind != "none" && ShownInterval(rec) > 1
    ensures RecurrenceText(Some(rec)) == "Repeats  every " + Decimal(ShownInterval(rec)) + " " + Stem(rec.kind) + "s"
  {
  }

  /** The number in the sentence reads back, through `parseInt`, as the interval it came from. */
  lemma IntervalReadsBack(rec: Recurrence)
    requires rec.kind != "none" && ShownInterval(rec) > 1
    ensures var t := RecurrenceText(Some(rec)); |t| > 15 && ParseInt(t[15..]) == Some(ShownInterval(rec))
  {
    var n := ShownInterval(rec);
    var t := RecurrenceText(Some(rec));
    var rest := " " + Stem(rec.kind) + "s";
    assert t == "Repeats  every " + (Decimal(n) + rest);
    assert t[15..] == Decimal(n) + rest;
    ParseIntOfDecimalPrefix(n, rest);
  }

  /** Two sentences as the dialog shows them: the double space and the cut "daily" are the code's own. */
  lemma RecurrenceTextExamples()
    ensures RecurrenceText(Some(Recurrence("weekly", Some(2), "days"))) == "Repeats  every 2 weeks"
    ensures RecurrenceText(Some(Recurrence("daily", None, "days"))) == "Repeats  dai"
    ensures RecurrenceText(None) == "No repeat"
  {
    assert Decimal(2) == "2";
  }

  /** `handleDelete`: the action the Delete button dispatches for the shown event. */
  function DeleteAction(event: Event): (a: Action)
    ensures a.DeleteEvent? && a.id == event.id
  {
    DeleteEvent(event.id)
  }

  /** Deleting from the dialog removes the shown event and every other event with its id, and keeps the rest. */
  lemma DeleteRemovesShownEvent(state: State, event: Event)
    ensures var r := Reduce(state, DeleteAction(event));
      event !in r.events
      && (forall ev :: ev in r.events <==> ev in state.events && ev.id != event.id)
      && r.selectedDate == state.selectedDate && r.currentMonth == state.currentMonth
  {
    DeleteKeepsOthers(state, event.id);
  }
}

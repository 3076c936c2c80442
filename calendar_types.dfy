/**
 * The calendar value: entries (elements) that remember the day and month they
 * were created for, holding placements of calendar documents.
 */
module CalendarTypes {
  import opened Wrappers
  import opened Collection
  import opened KanbanTypes
  import opened JsNumbers

  /** Attributes of a calendar entry; `None` is an absent key. */
  datatype CalendarSlot = CalendarSlot(calendarIndex: Option<JsNumber>, calendarMonth: Option<int>)

  /** Attributes of a placed calendar document (its `content` is always empty). */
  datatype CalendarDocAttrs = CalendarDocAttrs(name: Option<string>)

  type Calendar = Board<CalendarSlot, CalendarDocAttrs>

  /** A placement as the hook creates it: `{ _id: calendar }`. */
  const BareCalendarDoc: CalendarDocAttrs := CalendarDocAttrs(None)

  /** An entry created by the hook's `onNewElement`, which sets neither field. */
  const NoSlot: CalendarSlot := CalendarSlot(None, None)

  /**
   * `newCalendarDocument(...names)`: one empty entry per name with a generated
   * id, its day the name read as a number, and its month `getMonth() + 2` of
   * the current date (`month0` is `getMonth()`, 0 for January), which is 13 in
   * December.
   */
  function NewCalendarDocument(names: seq<string>, draws: seq<IdDraw>, month0: nat): (c: Calendar)
    requires |draws| == |names| && forall i :: 0 <= i < |draws| ==> draws[i].Valid()
    requires month0 < 12
    ensures |c| == |names|
    ensures forall i :: 0 <= i < |c| ==>
      c[i].id == draws[i].Id() && c[i].name == names[i] && c[i].content == [] &&
      c[i].attrs.calendarIndex == Some(ToNumber(names[i])) &&
      c[i].attrs.calendarMonth == Some(month0 + 2)
  {
    seq(|names|, i requires 0 <= i < |names| =>
      Element(draws[i].Id(), names[i], [], CalendarSlot(Some(ToNumber(names[i])), Some(month0 + 2))))
  }

  /** Entries named by day numbers remember those days. */
  lemma NewCalendarDays(days: seq<nat>, draws: seq<IdDraw>, month0: nat)
    requires |draws| == |days| && forall i :: 0 <= i < |draws| ==> draws[i].Valid()
    requires month0 < 12
    ensures var names := seq(|days|, i requires 0 <= i < |days| => DecimalString(days[i]));
      var c := NewCalendarDocument(names, draws, month0);
      forall i :: 0 <= i < |c| ==> c[i].attrs.calendarIndex == Some(Num(days[i]))
  {
    forall i | 0 <= i < |days| ensures ToNumber(DecimalString(days[i])) == Num(days[i]) {
      ToNumberRoundTrip(days[i]);
    }
  }
}

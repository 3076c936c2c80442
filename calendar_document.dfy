/**
 * The calendar editor hook: the same state and reporting as the kanban hook,
 * with only the handlers that add an entry and place a calendar document.
 */
module CalendarHook {
  import opened Wrappers
  import opened Collection
  import opened KanbanTypes
  import opened CalendarTypes

  class CalendarDocumentEditor {
    var content: Option<Calendar>
    var reported: seq<Calendar>

    /** The parent always holds the calendar the editor shows. */
    predicate Valid()
      reads this
    {
      content.Some? && |reported| > 0 && reported[|reported| - 1] == content.value
    }

    /**
     * Mounting: the initial calendar, or `newCalendarDocument()` (no entries)
     * when there is none, is the state and is reported once.
     */
    constructor(initial: Option<Calendar>, month0: nat)
      requires month0 < 12
      ensures content == Some(initial.GetOr(NewCalendarDocument([], [], month0)))
      ensures reported == [content.value]
      ensures Valid()
    {
      var c := initial.GetOr(NewCalendarDocument([], [], month0));
      content := Some(c);
      reported := [c];
    }

    /** `setContent` with a new calendar, and the report the effect makes of it. */
    method Commit(c: Calendar)
      modifies this
      ensures content == Some(c) && reported == old(reported) + [c]
      ensures Valid()
    {
      content := Some(c);
      reported := reported + [c];
    }

    /**
     * `onNewElement`: appends an empty entry named "untitled"; it sets neither
     * `calendarIndex` nor `calendarMonth`, although the type declares both.
     */
    method NewElement(draw: IdDraw)
      requires draw.Valid()
      modifies this
      ensures old(Valid()) ==> Valid()
      ensures old(content).None? ==> content == old(content) && reported == old(reported)
      ensures old(content).Some? ==>
        content == Some(Collection.NewElement(old(content).value, draw.Id(), Untitled, NoSlot)) &&
        reported == old(reported) + [content.value]
      ensures old(content).Some? && WellFormed(old(content).value) && !HasElement(old(content).value, draw.Id()) ==>
        WellFormed(content.value)
    {
      if content.None? {
        return;
      }
      var c := content.value;
      if WellFormed(c) && !HasElement(c, draw.Id()) {
        NewElementKeeps(c, draw.Id(), Untitled, NoSlot);
      }
      Commit(Collection.NewElement(c, draw.Id(), Untitled, NoSlot));
    }

    /**
     * `onAddDocument`: a calendar document not placed yet gets a bare placement
     * at the end of entry `id`; a placed one moves there with its attributes.
     */
    method AddDocument(id: string, calendar: string)
      modifies this
      ensures old(Valid()) ==> Valid()
      ensures old(content).None? ==> content == old(content) && reported == old(reported)
      ensures old(content).Some? ==>
        content == Some(Collection.AddDocument(old(content).value, id, calendar, BareCalendarDoc)) &&
        reported == old(reported) + [content.value]
      ensures old(content).Some? && WellFormed(old(content).value) ==>
        WellFormed(content.value) && (Placed(content.value, calendar) <==> HasElement(old(content).value, id))
    {
      if content.None? {
        return;
      }
      var c := content.value;
      var doc := GetDocument(c, calendar);
      var next: Calendar;
      if doc.None? {
        next := AppendTo(c, id, Placement(calendar, BareCalendarDoc));
      } else {
        var p := Locate(c, calendar).value;
        next := AppendTo(RemoveAt(c, p), id, doc.value);
      }
      if WellFormed(c) {
        AddDocumentKeeps(c, id, calendar, BareCalendarDoc);
      }
      Commit(next);
    }
  }
}

/**
 * `BoardView`: the kanban board page. It seeds the editor from the stored
 * board, emits the board on every change, keeps the drop target of a column
 * drag, forwards column drops to `onMoveElement`, and derives the
 * document-to-date map of a connected calendar.
 */
module BoardViewState {
  import opened Wrappers
  import opened JsArrays
  import opened Collection
  import opened KanbanTypes
  import opened CalendarTypes
  import opened JsonValues
  import opened KanbanJson
  import opened Drag
  import opened ArrayDragSpace

  // ---------------------------------------------------------------------------
  // Seeding and emitting

  /**
   * The initial board handed to the editor: nothing when the stored text is
   * absent or empty, otherwise the board its parse reads as. `parse` stands
   * for `JSON.parse`.
   */
  function SeedBoard(initialContent: Option<string>, parse: string -> Json): (r: Option<KanbanBoard>)
    ensures initialContent.None? || initialContent.value == "" ==> r.None?
    ensures initialContent.Some? && initialContent.value != "" ==> r == BoardFromJson(parse(initialContent.value))
  {
    match initialContent
    case None => None
    case Some(text) => if text == "" then None else BoardFromJson(parse(text))
  }

  /** The text passed to `onChange` for a board; `stringify` stands for `JSON.stringify(_, null, 2)`. */
  function Emit(b: KanbanBoard, stringify: Json -> string): string {
    stringify(BoardToJson(b))
  }

  /**
   * Whatever the page stores from `onChange` seeds the same board when it is
   * opened again, provided `JSON.parse` inverts `JSON.stringify` and the text
   * is never empty (an array prints at least its brackets).
   */
  lemma ReloadRestoresBoard(b: KanbanBoard, stringify: Json -> string, parse: string -> Json)
    requires forall j :: parse(stringify(j)) == j
    requires forall j :: stringify(j) != ""
    ensures SeedBoard(Some(Emit(b, stringify)), parse) == Some(b)
  {
    BoardRoundTrip(b);
  }

  // ---------------------------------------------------------------------------
  // The connected calendar

  /**
   * The `orientedData` effect on a calendar with content: walks every entry
   * and every placement, but the only insertion is guarded by a constant
   * `false`, so the map stays empty. `parseDate` stands for
   * `parseDateByIndex` on an entry's month and index.
   */
  method OrientedData(calendar: Calendar, parseDate: CalendarSlot -> int) returns (data: map<string, int>)
    ensures data == map[]
  {
    data := map[];
    var i := 0;
    while i < |calendar|
      invariant 0 <= i <= |calendar|
      invariant data == map[]
    {
      var entry := calendar[i];
      var parsedDate := parseDate(entry.attrs);
      var j := 0;
      while j < |entry.content|
        invariant 0 <= j <= |entry.content|
        invariant data == map[]
      {
        var d := entry.content[j];
        if false {
          data := data[d.id := parsedDate];
        }
        j := j + 1;
      }
      i := i + 1;
    }
  }

  // ---------------------------------------------------------------------------
  // Column drags

  /** The call `onMoveElement(element, index)` a drop makes. */
  datatype MoveElementCall = MoveElementCall(element: string, index: int)

  /** The index `ArrayDragSpace` highlights: the target, or -1 without one. */
  function HighlightIndex(dragSelected: Option<int>): (i: int)
    ensures dragSelected.None? ==> i == -1
    ensures dragSelected.Some? ==> i == dragSelected.value
  {
    dragSelected.GetOr(-1)
  }

  /**
   * The gaps between the columns highlight exactly the selected one, and none
   * without a target.
   */
  lemma GapsHighlightTarget<T>(columns: seq<T>, dragSelected: Option<int>)
    ensures var r := Layout(Some(columns), HighlightIndex(dragSelected)).value;
      forall i :: 0 <= i <= |columns| ==> r[2 * i].Gap? && (r[2 * i].enabled <==> dragSelected == Some(i))
  {
    LayoutGaps(columns, HighlightIndex(dragSelected));
  }

  /** The number of columns, 0 while the editor has no board. */
  function ContentLength(content: Option<KanbanBoard>): (n: nat)
    ensures content.None? ==> n == 0
    ensures content.Some? ==> n == |content.value|
  {
    match content
    case None => 0
    case Some(b) => |b|
  }

  class BoardView {
    /** The drop index of a column drag in progress, `undefined` as `None`. */
    var dragSelected: Option<int>
    /** `orientedData`. */
    var orientedData: map<string, int>

    constructor()
      ensures dragSelected.None? && orientedData == map[]
    {
      dragSelected := None;
      orientedData := map[];
    }

    /** The effect on `connectedCalendar`: runs only for a calendar with content. */
    method OnConnectedCalendar(calendar: Option<Calendar>, parseDate: CalendarSlot -> int)
      modifies this
      ensures orientedData == if calendar.Some? then map[] else old(orientedData)
      ensures dragSelected == old(dragSelected)
    {
      if calendar.Some? {
        orientedData := OrientedData(calendar.value, parseDate);
      }
    }

    /** `onElementDragOver`: the status reported by the column at `index`. */
    method OnElementDragOver(status: DragStatus, index: int)
      modifies this
      ensures dragSelected == StatusTarget(status, index)
      ensures orientedData == old(orientedData)
    {
      match status
      case NoTarget => dragSelected := None;
      case Before => dragSelected := Some(index);
      case After => dragSelected := Some(index + 1);
    }

    /**
     * `onElementIndexDragOver`: hovering gap `index` (the trailing gap passes
     * the column count) with a column selects it; other drags are ignored.
     */
    method OnElementIndexDragOver(types: seq<string>, index: int)
      modifies this
      ensures dragSelected == if FirstTypeIs(types, ElementType) then Some(index) else old(dragSelected)
      ensures orientedData == old(orientedData)
    {
      if FirstTypeIs(types, ElementType) {
        dragSelected := Some(index);
      }
    }

    /** `onDragOver`: only column drags are accepted as drops. */
    method OnDragOver(types: seq<string>) returns (accepted: bool)
      ensures accepted <==> FirstTypeIs(types, ElementType)
    {
      accepted := FirstTypeIs(types, ElementType);
    }

    /**
     * `onDrop`: a column drop moves the column to the selected index, or to
     * the end when none is selected, and clears the target. Other drops do
     * nothing.
     */
    method OnDrop(types: seq<string>, element: string, content: Option<KanbanBoard>) returns (call: Option<MoveElementCall>)
      modifies this
      ensures FirstTypeIs(types, ElementType) ==>
        call == Some(MoveElementCall(element, old(dragSelected).GetOr(ContentLength(content)))) && dragSelected.None?
      ensures !FirstTypeIs(types, ElementType) ==> call.None? && dragSelected == old(dragSelected)
      ensures orientedData == old(orientedData)
    {
      call := None;
      if FirstTypeIs(types, ElementType) {
        call := Some(MoveElementCall(element, dragSelected.GetOr(ContentLength(content))));
        dragSelected := None;
      }
    }
  }

  /**
   * A column dropped with no gap selected goes to the end of the board: its
   * index, the column count, is decremented past its own slot and lands last.
   */
  lemma DropWithoutTargetMovesLast(b: KanbanBoard, k: nat)
    requires DistinctIds(b) && k < |b|
    ensures HasElement(b, b[k].id)
    ensures var r := MoveElement(b, b[k].id, ContentLength(Some(b)));
      |r| == |b| && r[|b| - 1] == b[k]
  {
    MoveElementIsInsert(b, k, |b|);
  }

  /**
   * Dropping on "after" of column `i` and on "before" of column `i + 1` moves
   * the dragged column to the same place.
   */
  lemma AfterAndBeforeAgree(b: KanbanBoard, id: string, i: int)
    requires HasElement(b, id)
    ensures MoveElement(b, id, StatusTarget(After, i).value) == MoveElement(b, id, StatusTarget(Before, i + 1).value)
  {
  }
}

/**
 * The kanban board editor hook: the board state held by `useState` and the
 * handlers that replace it. `reported` lists, in order, the boards handed to
 * the `onBoardChanged` callback by the effect that runs whenever the state
 * changes to a defined board.
 */
module KanbanHook {
  import opened Wrappers
  import opened JsArrays
  import opened Collection
  import opened KanbanTypes

  class KanbanBoardEditor {
    var content: Option<KanbanBoard>
    var reported: seq<KanbanBoard>

    /** The parent always holds the board the editor shows. */
    predicate Valid()
      reads this
    {
      content.Some? && |reported| > 0 && reported[|reported| - 1] == content.value
    }

    /**
     * Mounting: the state starts as the initial board; when there is none the
     * first effect installs `newKanbanBoard()` (no columns); the second effect
     * then reports the board.
     */
    constructor(initial: Option<KanbanBoard>)
      ensures content == Some(initial.GetOr(NewKanbanBoard([], [])))
      ensures reported == [content.value]
      ensures Valid()
    {
      var b := initial.GetOr(NewKanbanBoard([], []));
      content := Some(b);
      reported := [b];
    }

    /** `setContent` with a new board, and the report the effect makes of it. */
    method Commit(b: KanbanBoard)
      modifies this
      ensures content == Some(b) && reported == old(reported) + [b]
      ensures Valid()
    {
      content := Some(b);
      reported := reported + [b];
    }

    /** `onNewElement`: appends an empty column named "untitled" with a generated id. */
    method NewElement(draw: IdDraw)
      requires draw.Valid()
      modifies this
      ensures old(Valid()) ==> Valid()
      ensures old(content).None? ==> content == old(content) && reported == old(reported)
      ensures old(content).Some? ==>
        content == Some(Collection.NewElement(old(content).value, draw.Id(), Untitled, PlainColumn)) &&
        reported == old(reported) + [content.value]
      ensures old(content).Some? && WellFormed(old(content).value) && !HasElement(old(content).value, draw.Id()) ==>
        WellFormed(content.value)
    {
      if content.None? {
        return;
      }
      var b := content.value;
      if WellFormed(b) && !HasElement(b, draw.Id()) {
        NewElementKeeps(b, draw.Id(), Untitled, PlainColumn);
      }
      Commit(Collection.NewElement(b, draw.Id(), Untitled, PlainColumn));
    }

    /** `onRemoveElement`: drops every column with id `id`, and with them their placements. */
    method RemoveElement(id: string)
      modifies this
      ensures old(Valid()) ==> Valid()
      ensures old(content).None? ==> content == old(content) && reported == old(reported)
      ensures old(content).Some? ==>
        content == Some(Collection.RemoveElement(old(content).value, id)) &&
        reported == old(reported) + [content.value]
      ensures old(content).Some? && WellFormed(old(content).value) ==> WellFormed(content.value)
    {
      // `setContent(undefined)` on an undefined state is no change at all.
      if content.None? {
        return;
      }
      var b := content.value;
      if WellFormed(b) {
        RemoveElementKeeps(b, id);
      }
      Commit(Collection.RemoveElement(b, id));
    }

    /** `onRenameElement`. */
    method RenameElement(id: string, name: string)
      modifies this
      ensures old(Valid()) ==> Valid()
      ensures old(content).None? ==> content == old(content) && reported == old(reported)
      ensures old(content).Some? ==>
        content == Some(Collection.RenameElement(old(content).value, id, name)) &&
        reported == old(reported) + [content.value]
      ensures old(content).Some? && WellFormed(old(content).value) ==> WellFormed(content.value)
    {
      if content.None? {
        return;
      }
      var b := content.value;
      if WellFormed(b) {
        SameContentKeeps(b, Collection.RenameElement(b, id, name));
      }
      Commit(Collection.RenameElement(b, id, name));
    }

    /**
     * `onMoveElement`: the column with id `id` is taken out and reinserted at
     * `index` (decremented when beyond its current index). The id must name a
     * column: the hook would insert `undefined` otherwise.
     */
    method MoveElement(id: string, index: int)
      requires content.Some? ==> HasElement(content.value, id)
      modifies this
      ensures old(Valid()) ==> Valid()
      ensures old(content).None? ==> content == old(content) && reported == old(reported)
      ensures old(content).Some? ==>
        content == Some(Collection.MoveElement(old(content).value, id, index)) &&
        reported == old(reported) + [content.value]
      ensures old(content).Some? && WellFormed(old(content).value) ==>
        WellFormed(content.value) && multiset(content.value) == multiset(old(content).value)
    {
      if content.None? {
        return;
      }
      var b := content.value;
      if WellFormed(b) {
        var k := ElementIndex(b, id);
        MoveElementKeeps(b, k, index);
        MoveElementPermutes(b, k, index);
      }
      Commit(Collection.MoveElement(b, id, index));
    }

    /** `onElementSetColor`. */
    method ElementSetColor(id: string, color: Color)
      modifies this
      ensures old(Valid()) ==> Valid()
      ensures old(content).None? ==> content == old(content) && reported == old(reported)
      ensures old(content).Some? ==>
        content == Some(SetElementAttrs(old(content).value, id, ColumnAttrs(Some(color)))) &&
        reported == old(reported) + [content.value]
      ensures old(content).Some? && WellFormed(old(content).value) ==> WellFormed(content.value)
    {
      if content.None? {
        return;
      }
      var b := content.value;
      if WellFormed(b) {
        SameContentKeeps(b, SetElementAttrs(b, id, ColumnAttrs(Some(color))));
      }
      Commit(SetElementAttrs(b, id, ColumnAttrs(Some(color))));
    }

    /**
     * `onAddDocument`: a document not on the board gets a bare placement at
     * the end of column `id`; a placed one is moved there with its attributes.
     */
    method AddDocument(id: string, document: string)
      modifies this
      ensures old(Valid()) ==> Valid()
      ensures old(content).None? ==> content == old(content) && reported == old(reported)
      ensures old(content).Some? ==>
        content == Some(Collection.AddDocument(old(content).value, id, document, BareDoc)) &&
        reported == old(reported) + [content.value]
      ensures old(content).Some? && WellFormed(old(content).value) ==> WellFormed(content.value)
    {
      if content.None? {
        return;
      }
      var b := content.value;
      var doc := GetDocument(b, document);
      var next: KanbanBoard;
      if doc.None? {
        next := AppendTo(b, id, Placement(document, BareDoc));
      } else {
        var p := Locate(b, document).value;
        next := AppendTo(RemoveAt(b, p), id, doc.value);
      }
      if WellFormed(b) {
        AddDocumentKeeps(b, id, document, BareDoc);
      }
      Commit(next);
    }

    /** `onMoveDocument`: nothing happens for a document not on the board. */
    method MoveDocument(id: string, document: string, index: int)
      modifies this
      ensures old(Valid()) ==> Valid()
      ensures old(content).None? || !Placed(old(content).value, document) ==>
        content == old(content) && reported == old(reported)
      ensures old(content).Some? && Placed(old(content).value, document) ==>
        content == Some(Collection.MoveDocument(old(content).value, id, document, index)) &&
        reported == old(reported) + [content.value]
      ensures old(content).Some? && WellFormed(old(content).value) ==> WellFormed(content.value)
    {
      if content.None? {
        return;
      }
      var b := content.value;
      var doc := GetDocument(b, document);
      if doc.None? {
        return;
      }
      if WellFormed(b) {
        MoveDocumentKeeps(b, id, document, index);
      }
      Commit(Collection.MoveDocument(b, id, document, index));
    }

    /** `onRemoveDocument`: nothing happens for a document not on the board. */
    method RemoveDocument(document: string)
      modifies this
      ensures old(Valid()) ==> Valid()
      ensures old(content).None? || !Placed(old(content).value, document) ==>
        content == old(content) && reported == old(reported)
      ensures old(content).Some? && Placed(old(content).value, document) ==>
        content == Some(Collection.RemoveDocument(old(content).value, document)) &&
        reported == old(reported) + [content.value]
      ensures old(content).Some? && WellFormed(old(content).value) ==>
        WellFormed(content.value) && !Placed(content.value, document)
    {
      if content.None? {
        return;
      }
      var b := content.value;
      var doc := GetDocument(b, document);
      if doc.None? {
        return;
      }
      if WellFormed(b) {
        RemoveDocumentKeeps(b, document);
      }
      Commit(Collection.RemoveDocument(b, document));
    }

    /** `onDocumentSetColor`: nothing happens for a document not on the board. */
    method DocumentSetColor(document: string, color: Option<Color>)
      modifies this
      ensures old(Valid()) ==> Valid()
      ensures old(content).None? || !Placed(old(content).value, document) ==>
        content == old(content) && reported == old(reported)
      ensures old(content).Some? && Placed(old(content).value, document) ==>
        content == Some(SetDocColor(old(content).value, document, color)) &&
        reported == old(reported) + [content.value]
      ensures old(content).Some? && WellFormed(old(content).value) ==> WellFormed(content.value)
    {
      if content.None? {
        return;
      }
      var b := content.value;
      var doc := GetDocument(b, document);
      if doc.None? {
        return;
      }
      if WellFormed(b) {
        SetDocColorKeeps(b, document, color);
      }
      Commit(SetDocColor(b, document, color));
    }
  }
}

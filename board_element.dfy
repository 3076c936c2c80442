/**
 * `BoardElement`: one column of the kanban board. It pairs each placement
 * with its loaded document, filters the documents offered for adding by a
 * search string, keeps the drop target of a document drag, forwards drops to
 * the editor's `onMoveDocument`, reports its own position for column drags,
 * and edits its name in place.
 */
module BoardElementView {
  import opened Wrappers
  import opened JsArrays
  import opened Collection
  import opened KanbanTypes
  import opened Drag
  import opened BoardDocumentView

  // ---------------------------------------------------------------------------
  // Documents of the column

  /** The first loaded document with id `id`: the first match of a filter on the id. */
  function FirstWithId(documents: seq<Doc>, id: string): (r: Option<Doc>)
    ensures r.None? <==> forall i :: 0 <= i < |documents| ==> documents[i].id != id
    ensures r.Some? ==> r.value.id == id
    ensures r.Some? ==> exists k :: 0 <= k < |documents| && documents[k] == r.value && NoneBefore(documents, id, k)
  {
    if |documents| == 0 then None
    else if documents[0].id == id then Some(documents[0])
    else
      var r := FirstWithId(documents[1..], id);
      assert forall i :: 1 <= i < |documents| ==> documents[i] == documents[1..][i - 1];
      r
  }

  /** No document before index `k` has id `id`. */
  predicate NoneBefore(documents: seq<Doc>, id: string, k: nat)
    requires k <= |documents|
  {
    forall j :: 0 <= j < k ==> documents[j].id != id
  }

  /** A placement with the document found for it (`undefined` when it is not loaded). */
  datatype Entry = Entry(board: Placement<DocAttrs>, doc: Option<Doc>)

  /**
   * `contentDocuments`: nothing while the documents are not loaded; once they
   * are, one entry per placement in order, missing documents included.
   */
  function ContentDocuments(placements: seq<Placement<DocAttrs>>, documents: Option<seq<Doc>>): (r: seq<Entry>)
    ensures documents.None? ==> r == []
    ensures documents.Some? ==> |r| == |placements|
    ensures documents.Some? ==>
      forall i :: 0 <= i < |r| ==> r[i].board == placements[i] && r[i].doc == FirstWithId(documents.value, placements[i].id)
  {
    match documents
    case None => []
    case Some(ds) => seq(|placements|, i requires 0 <= i < |placements| => Entry(placements[i], FirstWithId(ds, placements[i].id)))
  }

  /**
   * Once documents are loaded, exactly the entries whose document is not among
   * them render as a removal of that placement; the others show their own
   * document's title.
   */
  lemma EntriesRender(placements: seq<Placement<DocAttrs>>, documents: seq<Doc>)
    ensures var es := ContentDocuments(placements, Some(documents));
      forall i :: 0 <= i < |es| ==>
        (RenderPlacement(es[i].board, es[i].doc).Removed? <==> forall k :: 0 <= k < |documents| ==> documents[k].id != placements[i].id) &&
        (RenderPlacement(es[i].board, es[i].doc).Removed? ==> RenderPlacement(es[i].board, es[i].doc).document == placements[i].id) &&
        (RenderPlacement(es[i].board, es[i].doc).Shown? ==> es[i].doc.value.id == placements[i].id)
  {
  }

  /** ASCII upper-case letters become lower-case, every other character stays. */
  function LowerChar(c: char): (l: char)
    ensures 'A' <= c <= 'Z' ==> l as int == c as int + 32
    ensures !('A' <= c <= 'Z') ==> l == c
    ensures !('A' <= l <= 'Z')
  {
    if 'A' <= c <= 'Z' then (c as int + 32) as char else c
  }

  /** `toLowerCase()`, character by character. */
  function Lower(s: string): (r: string)
    ensures |r| == |s| && forall i :: 0 <= i < |s| ==> r[i] == LowerChar(s[i])
  {
    seq(|s|, i requires 0 <= i < |s| => LowerChar(s[i]))
  }

  /** Lowering twice is lowering once. */
  lemma LowerIdempotent(s: string)
    ensures Lower(Lower(s)) == Lower(s)
  {
  }

  /** `t` occurs in `s` starting at `i`. */
  predicate OccursAt(s: string, t: string, i: int) {
    0 <= i && i + |t| <= |s| && s[i..i + |t|] == t
  }

  /** `s.includes(t)`. */
  predicate Includes(s: string, t: string) {
    exists i :: 0 <= i <= |s| && OccursAt(s, t, i)
  }

  /** The empty string occurs in every string, and a string occurs in itself. */
  lemma IncludesTrivial(s: string)
    ensures Includes(s, "") && Includes(s, s)
  {
    assert OccursAt(s, "", 0);
    assert OccursAt(s, s, 0);
  }

  /** The filter of the "Add a page" list: the lower-cased title contains the lower-cased search. */
  predicate MatchesSearch(d: Doc, search: string) {
    Includes(Lower(d.title), Lower(search))
  }

  /** The documents matching `search`, in their order. */
  function FilterBySearch(documents: seq<Doc>, search: string): (r: seq<Doc>)
    ensures |r| <= |documents|
    ensures forall d :: d in r <==> d in documents && MatchesSearch(d, search)
  {
    if |documents| == 0 then []
    else
      var rest := FilterBySearch(documents[1..], search);
      assert forall d :: d in documents <==> d == documents[0] || d in documents[1..];
      if MatchesSearch(documents[0], search) then [documents[0]] + rest else rest
  }

  /**
   * The filter works document by document: a single document is kept exactly
   * when it matches, and the filter of a concatenation is the concatenation of
   * the filters, so the matching documents keep their order and repetitions.
   */
  lemma {:induction false} FilterSplit(a: seq<Doc>, b: seq<Doc>, search: string)
    ensures FilterBySearch([], search) == []
    ensures forall d :: FilterBySearch([d], search) == if MatchesSearch(d, search) then [d] else []
    ensures FilterBySearch(a + b, search) == FilterBySearch(a, search) + FilterBySearch(b, search)
  {
    forall d ensures FilterBySearch([d], search) == if MatchesSearch(d, search) then [d] else [] {
      assert [d][1..] == [];
    }
    if |a| > 0 {
      assert (a + b)[1..] == a[1..] + b;
      FilterSplit(a[1..], b, search);
    } else {
      assert a + b == b;
    }
  }

  /** `filteredDocuments`: undefined while the documents are not loaded. */
  function FilteredDocuments(documents: Option<seq<Doc>>, search: string): (r: Option<seq<Doc>>)
    ensures r.None? <==> documents.None?
    ensures r.Some? ==> forall d :: d in r.value <==> d in documents.value && MatchesSearch(d, search)
    ensures r.Some? ==> r.value == FilterBySearch(documents.value, search)
  {
    match documents
    case None => None
    case Some(ds) => Some(FilterBySearch(ds, search))
  }

  /** An empty search keeps every document, in order. */
  lemma {:induction false} EmptySearchKeepsAll(documents: seq<Doc>)
    ensures FilterBySearch(documents, "") == documents
  {
    if |documents| > 0 {
      IncludesTrivial(Lower(documents[0].title));
      EmptySearchKeepsAll(documents[1..]);
    }
  }

  /** Filtering is insensitive to the case of the search string. */
  lemma SearchIgnoresCase(documents: seq<Doc>, search: string)
    ensures FilterBySearch(documents, Lower(search)) == FilterBySearch(documents, search)
  {
    LowerIdempotent(search);
  }

  // ---------------------------------------------------------------------------
  // Drop gaps between the documents

  /** A gap above a document (or the trailing one): its drop index, and whether it is highlighted or hidden. */
  datatype ColumnGap = ColumnGap(index: nat, highlighted: bool, hidden: bool)

  /**
   * The gaps of a column showing `n` entries with drop target `selected`: one
   * above each entry and a trailing one, hidden while the column is empty.
   */
  function ColumnGaps(n: nat, selected: Option<int>): (r: seq<ColumnGap>)
    ensures |r| == n + 1
    ensures forall i :: 0 <= i <= n ==> r[i].index == i && (r[i].highlighted <==> selected == Some(i))
    ensures forall i :: 0 <= i <= n ==> (r[i].hidden <==> i == n && n == 0)
  {
    seq(n + 1, i requires 0 <= i <= n => ColumnGap(i, selected == Some(i), i == n && n == 0))
  }

  /** At most one gap is highlighted, and none when the target is cleared or out of range. */
  lemma OneGapHighlighted(n: nat, selected: Option<int>, i: nat, j: nat)
    requires i <= n && j <= n
    requires ColumnGaps(n, selected)[i].highlighted && ColumnGaps(n, selected)[j].highlighted
    ensures i == j && selected == Some(i)
  {
  }

  // ---------------------------------------------------------------------------
  // Attribute patches of the column popover

  /** The column colour swatches, in order. */
  const ColumnSwatches: seq<Color> := [
    Color("#f5f5f5", "#262626"),
    Color("#fee2e2", "#7f1d1d"),
    Color("#ffedd5", "#7c2d12"),
    Color("#fef9c3", "#713f12"),
    Color("#dcfce7", "#14532d"),
    Color("#e0f2fe", "#0c4a6e"),
    Color("#dbeafe", "#1e3a8a"),
    Color("#f3e8ff", "#581c87")
  ]

  /**
   * Swatch `i` asks for colour `ColumnSwatches[i]`; through the hook's
   * `onElementSetColor` that colour lands on exactly the columns with this id.
   */
  lemma ColumnSwatchApplies(b: KanbanBoard, id: string, i: nat)
    requires i < |ColumnSwatches|
    ensures var r := SetElementAttrs(b, id, ColumnAttrs(Some(ColumnSwatches[i])));
      |r| == |b| && forall k :: 0 <= k < |b| ==>
        r[k].content == b[k].content &&
        r[k].attrs.color == if b[k].id == id then Some(ColumnSwatches[i]) else b[k].attrs.color
  {
  }

  // ---------------------------------------------------------------------------
  // The component's state

  /** The call `onMoveDocument(element, document, index)` a drop makes. */
  datatype MoveDocumentCall = MoveDocumentCall(element: string, document: string, index: int)

  class BoardElement {
    /** The column's `_id`. */
    const id: string
    const editable: bool
    var isEditing: bool
    var search: string
    /** The drop index of a document drag in progress, `undefined` as `None`. */
    var dragSelected: Option<int>

    constructor(id: string, editable: bool)
      ensures this.id == id && this.editable == editable
      ensures !isEditing && search == "" && dragSelected.None?
    {
      this.id := id;
      this.editable := editable;
      isEditing := false;
      search := "";
      dragSelected := None;
    }

    /** The name is shown as an input only while editing an editable column. */
    predicate ShowsNameInput()
      reads this
    {
      isEditing && editable
    }

    /** `enableInput`: starts editing, unless the column is read-only. */
    method EnableInput()
      modifies this
      ensures isEditing == (old(isEditing) || editable)
      ensures search == old(search) && dragSelected == old(dragSelected)
      ensures ShowsNameInput() <==> editable
    {
      if !editable {
        return;
      }
      isEditing := true;
    }

    /** `disableInput` (also run on blur). */
    method DisableInput()
      modifies this
      ensures !isEditing && !ShowsNameInput()
      ensures search == old(search) && dragSelected == old(dragSelected)
    {
      isEditing := false;
    }

    /** `onKeyDown`: Enter ends editing, any other key changes nothing. */
    method OnKeyDown(key: string)
      modifies this
      ensures isEditing == (old(isEditing) && key != "Enter")
      ensures search == old(search) && dragSelected == old(dragSelected)
    {
      if key == "Enter" {
        DisableInput();
      }
    }

    /** The search input. */
    method SetSearch(value: string)
      modifies this
      ensures search == value
      ensures isEditing == old(isEditing) && dragSelected == old(dragSelected)
    {
      search := value;
    }

    /** `onDocumentDragOver`: the status reported by the document at `index`. */
    method OnDocumentDragOver(status: DragStatus, index: int)
      modifies this
      ensures dragSelected == StatusTarget(status, index)
      ensures isEditing == old(isEditing) && search == old(search)
    {
      match status
      case NoTarget => dragSelected := None;
      case Before => dragSelected := Some(index);
      case After => dragSelected := Some(index + 1);
    }

    /** `onDocumentIndexDragOver`: hovering gap `index` with a document selects it; other drags are ignored. */
    method OnDocumentIndexDragOver(types: seq<string>, index: int)
      modifies this
      ensures dragSelected == if FirstTypeIs(types, DocumentType) then Some(index) else old(dragSelected)
      ensures isEditing == old(isEditing) && search == old(search)
    {
      if FirstTypeIs(types, DocumentType) {
        dragSelected := Some(index);
      }
    }

    /**
     * `onDragOver` on the column body: a document drag clears the target; a
     * column drag reports "before" left of the middle and "after" right of it
     * to the board, returned here.
     */
    method OnDragOver(types: seq<string>, offsetX: real, width: real) returns (report: Option<DragStatus>)
      modifies this
      ensures dragSelected == if FirstTypeIs(types, DocumentType) then None else old(dragSelected)
      ensures report.Some? <==> FirstTypeIs(types, ElementType)
      ensures report.Some? ==> report.value == Midpoint(offsetX, width)
      ensures isEditing == old(isEditing) && search == old(search)
    {
      report := None;
      if FirstTypeIs(types, DocumentType) {
        dragSelected := None;
      }
      if FirstTypeIs(types, ElementType) {
        report := Some(Midpoint(offsetX, width));
      }
    }

    /** `onDragLeave`: reports "none" to the board. */
    method OnDragLeave() returns (report: DragStatus)
      ensures report == NoTarget
    {
      report := NoTarget;
    }

    /**
     * `onDrop`: a document drop moves the document into this column at the
     * selected index, or after the shown entries when none is selected, and
     * clears the target. Other drops do nothing.
     */
    method OnDrop(types: seq<string>, document: string, placements: seq<Placement<DocAttrs>>, documents: Option<seq<Doc>>)
      returns (call: Option<MoveDocumentCall>)
      modifies this
      ensures FirstTypeIs(types, DocumentType) ==>
        call == Some(MoveDocumentCall(id, document, old(dragSelected).GetOr(|ContentDocuments(placements, documents)|))) &&
        dragSelected.None?
      ensures !FirstTypeIs(types, DocumentType) ==> call.None? && dragSelected == old(dragSelected)
      ensures isEditing == old(isEditing) && search == old(search)
    {
      call := None;
      if FirstTypeIs(types, DocumentType) {
        var shown := ContentDocuments(placements, documents);
        call := Some(MoveDocumentCall(id, document, dragSelected.GetOr(|shown|)));
        dragSelected := None;
      }
    }
  }

  /**
   * The fallback index of a drop is the column's length once its documents
   * are loaded, and 0 (the front) while they are not.
   */
  lemma DropFallback(placements: seq<Placement<DocAttrs>>, documents: Option<seq<Doc>>)
    ensures |ContentDocuments(placements, documents)| == if documents.Some? then |placements| else 0
  {
  }

  /**
   * Dropping, with no gap selected, a document from slot `s` of another column
   * onto column `k` whose length exceeds `s` does not append it: the hook
   * decrements the index against the old slot, so the document lands just
   * before the column's last placement.
   */
  lemma DropAtEndFromOtherColumn(b: KanbanBoard, k: nat, d: string)
    requires WellFormed(b) && k < |b| && Placed(b, d)
    requires Locate(b, d).value.elem != k && Locate(b, d).value.slot < |b[k].content|
    ensures var c := MoveDocument(b, b[k].id, d, |b[k].content|)[k].content;
      |c| == |b[k].content| + 1 && c[|b[k].content| - 1] == FindPlacement(b, d).value &&
      c[|b[k].content|] == b[k].content[|b[k].content| - 1]
  {
    assert HasElement(b, b[k].id);
    assert ElementIndex(b, b[k].id) == k;
    MoveDocumentLands(b, b[k].id, d, |b[k].content|);
  }
}

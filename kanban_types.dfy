/**
 * The kanban board value: columns (elements) with an optional colour, holding
 * placements of documents with an optional colour and an optional priority
 * 1, 2 or 3. A board is the generic collection with these attributes.
 */
module KanbanTypes {
  import opened Wrappers
  import opened Collection
  import opened HexIds
  import opened JsArrays

  /** A colour pair for the light and the dark theme. */
  datatype Color = Color(light: string, dark: string)

  type Priority = p: int | 1 <= p <= 3 witness 1

  /** Attributes of a document placement; `None` is an absent key. */
  datatype DocAttrs = DocAttrs(color: Option<Color>, priority: Option<Priority>)

  /** Attributes of a column. */
  datatype ColumnAttrs = ColumnAttrs(color: Option<Color>)

  type KanbanBoard = Board<ColumnAttrs, DocAttrs>

  /** A placement as the hook creates it: `{ _id: document }`. */
  const BareDoc: DocAttrs := DocAttrs(None, None)

  const PlainColumn: ColumnAttrs := ColumnAttrs(None)

  /** Name of a column created by `onNewElement`. */
  const Untitled: string := "untitled"

  /** Four `Math.random()` results feeding one `generateId`. */
  datatype IdDraw = IdDraw(r1: real, r2: real, r3: real, r4: real)
  {
    predicate Valid() {
      0.0 <= r1 < 1.0 && 0.0 <= r2 < 1.0 && 0.0 <= r3 < 1.0 && 0.0 <= r4 < 1.0
    }

    function Id(): (id: string)
      requires Valid()
      ensures |id| == 16 && IsHex(id)
    {
      GenerateId(r1, r2, r3, r4)
    }

    /** The id is fixed by the draws to 1/65536 each. */
    predicate SameId(other: IdDraw) {
      (r1 * 65536.0).Floor == (other.r1 * 65536.0).Floor && (r2 * 65536.0).Floor == (other.r2 * 65536.0).Floor &&
      (r3 * 65536.0).Floor == (other.r3 * 65536.0).Floor && (r4 * 65536.0).Floor == (other.r4 * 65536.0).Floor
    }
  }

  /** `newKanbanBoard(...names)`: one empty, uncoloured column per name, in order. */
  function NewKanbanBoard(names: seq<string>, draws: seq<IdDraw>): (b: KanbanBoard)
    requires |draws| == |names| && forall i :: 0 <= i < |draws| ==> draws[i].Valid()
    ensures |b| == |names|
    ensures forall i :: 0 <= i < |b| ==>
      b[i].id == draws[i].Id() && b[i].name == names[i] && b[i].content == [] && b[i].attrs == PlainColumn
  {
    seq(|names|, i requires 0 <= i < |names| => Element(draws[i].Id(), names[i], [], PlainColumn))
  }

  /** A fresh board places nothing, and its ids are distinct whenever the draws differ. */
  lemma NewKanbanBoardWellFormed(names: seq<string>, draws: seq<IdDraw>)
    requires |draws| == |names| && forall i :: 0 <= i < |draws| ==> draws[i].Valid()
    requires forall i, j :: 0 <= i < j < |draws| ==> !draws[i].SameId(draws[j])
    ensures WellFormed(NewKanbanBoard(names, draws))
    ensures forall d :: !Placed(NewKanbanBoard(names, draws), d)
  {
    var b := NewKanbanBoard(names, draws);
    forall i, j | 0 <= i < j < |b| ensures b[i].id != b[j].id {
      var x := draws[i];
      var y := draws[j];
      GenerateIdDetermined(x.r1, x.r2, x.r3, x.r4, y.r1, y.r2, y.r3, y.r4);
    }
  }

  /** `onDocumentSetColor`: the placement `getDocument` finds gets the colour, nothing else changes. */
  function SetDocColor(b: KanbanBoard, d: string, c: Option<Color>): (r: KanbanBoard)
  {
    match FindPlacement(b, d)
    case None => b
    case Some(x) => ReplacePlacement(b, d, x.(attrs := x.attrs.(color := c)))
  }

  /**
   * Setting a document's colour keeps the invariant; the document keeps its
   * column and its priority, its colour becomes `c`, and no other placement
   * changes. An unplaced document leaves the board as it is.
   */
  lemma SetDocColorKeeps(b: KanbanBoard, d: string, c: Option<Color>)
    requires WellFormed(b)
    ensures WellFormed(SetDocColor(b, d, c))
    ensures !Placed(b, d) ==> SetDocColor(b, d, c) == b
    ensures Placed(b, d) ==>
      FindPlacement(SetDocColor(b, d, c), d) == Some(Placement(d, DocAttrs(c, FindPlacement(b, d).value.attrs.priority)))
    ensures SameElementIds(b, SetDocColor(b, d, c)) && SameExcept(b, SetDocColor(b, d, c), d)
  {
    match FindPlacement(b, d)
    case None =>
      ReplacePlacementKeeps(b, d, Placement(d, BareDoc));
    case Some(x) =>
      ReplacePlacementKeeps(b, d, x.(attrs := x.attrs.(color := c)));
  }

  /**
   * Removing a column forgets the attributes of its documents: adding one of
   * them to another column afterwards gives it a bare placement.
   */
  lemma RemoveColumnThenAdd(b: KanbanBoard, k: nat, j: nat, target: string)
    requires WellFormed(b) && k < |b| && j < |b[k].content|
    requires target != b[k].id && HasElement(b, target)
    ensures HasElement(RemoveElement(b, b[k].id), target)
    ensures var d := b[k].content[j].id;
      FindPlacement(AddDocument(RemoveElement(b, b[k].id), target, d, BareDoc), d) == Some(Placement(d, BareDoc))
  {
    var r := RemoveElement(b, b[k].id);
    RemoveElementKeeps(b, b[k].id);
    var t :| 0 <= t < |b| && b[t].id == target;
    assert b[t] in r;
    AddDocumentKeeps(r, target, b[k].content[j].id, BareDoc);
  }

  lemma ReinsertFirstAfterSecond(b: KanbanBoard)
    requires |b| == 3
    ensures InsertAt(Delete(b, 0), 1, b[0]) == [b[1], b[0], b[2]]
  {
    var s := Delete(b, 0);
    assert s == [b[1], b[2]];
    assert RelativeIndex(1, |s|) == 1;
    assert s[..1] + [b[0]] + s[1..] == [b[1], b[0], b[2]];
  }

  lemma ReinsertLastAtFront(b: KanbanBoard)
    requires |b| == 3
    ensures InsertAt(Delete(b, 2), 0, b[2]) == [b[2], b[0], b[1]]
  {
    var s := Delete(b, 2);
    assert s == [b[0], b[1]];
    assert RelativeIndex(0, |s|) == 0;
    assert s[..0] + [b[2]] + s[0..] == [b[2], b[0], b[1]];
  }

  /**
   * On three columns `[A, B, C]` with distinct ids, moving A to index 2 gives
   * `[B, A, C]`: the index is decremented past A's own slot.
   */
  lemma MoveFirstColumnExample(b: KanbanBoard)
    requires |b| == 3 && DistinctIds(b)
    ensures HasElement(b, b[0].id)
    ensures MoveElement(b, b[0].id, 2) == [b[1], b[0], b[2]]
  {
    MoveElementIsInsert(b, 0, 2);
    ReinsertFirstAfterSecond(b);
  }

  /** On the same columns, moving C to index 0 gives `[C, A, B]`. */
  lemma MoveLastColumnExample(b: KanbanBoard)
    requires |b| == 3 && DistinctIds(b)
    ensures HasElement(b, b[2].id)
    ensures MoveElement(b, b[2].id, 0) == [b[2], b[0], b[1]]
  {
    MoveElementIsInsert(b, 2, 0);
    ReinsertLastAtFront(b);
  }
}

/**
 * `BoardDocument`: one placement of a kanban column, rendered with the
 * document it names. The component removes placements whose document is gone,
 * reports "before"/"after" for document drags by the vertical midpoint, shows a
 * "completed/all" checkbox counter and a priority outline, and sends attribute
 * patches from its popover.
 */
module BoardDocumentView {
  import opened Wrappers
  import opened Collection
  import opened KanbanTypes
  import opened JsNumbers
  import opened Drag

  /** A top-level editor block as far as the counter looks at it: its type and `props.checked`. */
  datatype Block = Block(kind: string, checked: Option<bool>)

  /** The fields of a stored document the board reads; `blocks` is its parsed `content`, if any. */
  datatype Doc = Doc(id: string, title: string, blocks: Option<seq<Block>>)

  const CheckboxType: string := "checkbox"

  predicate IsCheckbox(b: Block) {
    b.kind == CheckboxType
  }

  predicate IsCompleted(b: Block) {
    IsCheckbox(b) && b.checked == Some(true)
  }

  /** Number of checkbox blocks. */
  function CountCheckboxes(blocks: seq<Block>): nat {
    if |blocks| == 0 then 0
    else (if IsCheckbox(blocks[0]) then 1 else 0) + CountCheckboxes(blocks[1..])
  }

  /** Number of checkbox blocks whose `checked` is exactly `true`. */
  function CountCompleted(blocks: seq<Block>): nat {
    if |blocks| == 0 then 0
    else (if IsCompleted(blocks[0]) then 1 else 0) + CountCompleted(blocks[1..])
  }

  /** Every completed block is a checkbox, so the completed count never exceeds the checkbox count. */
  lemma {:induction false} CompletedAtMostAll(blocks: seq<Block>)
    ensures CountCompleted(blocks) <= CountCheckboxes(blocks)
  {
    if |blocks| > 0 {
      CompletedAtMostAll(blocks[1..]);
    }
  }

  /** There is no checkbox to count exactly when no block is a checkbox. */
  lemma {:induction false} NoCheckboxes(blocks: seq<Block>)
    ensures CountCheckboxes(blocks) == 0 <==> forall i :: 0 <= i < |blocks| ==> !IsCheckbox(blocks[i])
  {
    if |blocks| > 0 {
      NoCheckboxes(blocks[1..]);
      assert forall i :: 1 <= i < |blocks| ==> blocks[i] == blocks[1..][i - 1];
    }
  }

  /**
   * `checks` as a pair (completed, all): absent when the document has no
   * content or no checkbox block; otherwise at least one checkbox, and no more
   * completed ones than checkboxes.
   */
  function Checks(blocks: Option<seq<Block>>): (r: Option<(nat, nat)>)
    ensures r.None? <==> blocks.None? || forall i :: 0 <= i < |blocks.value| ==> !IsCheckbox(blocks.value[i])
    ensures r.Some? ==>
      r.value.1 == CountCheckboxes(blocks.value) && r.value.0 == CountCompleted(blocks.value) &&
      0 <= r.value.0 <= r.value.1 && r.value.1 > 0
  {
    match blocks
    case None => None
    case Some(bs) =>
      NoCheckboxes(bs);
      CompletedAtMostAll(bs);
      var all := CountCheckboxes(bs);
      if all == 0 then None else Some((CountCompleted(bs), all))
  }

  /** The counter text `${completed}/${all}`, in decimal. */
  function ChecksLabel(blocks: Option<seq<Block>>): (s: Option<string>)
    ensures s.None? <==> Checks(blocks).None?
    ensures s.Some? ==>
      s.value == DecimalString(Checks(blocks).value.0) + "/" + DecimalString(Checks(blocks).value.1)
  {
    match Checks(blocks)
    case None => None
    case Some((completed, all)) => Some(DecimalString(completed) + "/" + DecimalString(all))
  }

  /** Reading the two numbers of the label back gives the counts. */
  lemma ChecksLabelReads(blocks: Option<seq<Block>>)
    requires Checks(blocks).Some?
    ensures var s := ChecksLabel(blocks).value;
      var (completed, all) := Checks(blocks).value;
      var k := |DecimalString(completed)|;
      k < |s| && s[k] == '/' &&
      ToNumber(s[..k]) == Num(completed) && ToNumber(s[k + 1..]) == Num(all)
  {
    var s := ChecksLabel(blocks).value;
    var (completed, all) := Checks(blocks).value;
    var k := |DecimalString(completed)|;
    assert s[..k] == DecimalString(completed);
    assert s[k + 1..] == DecimalString(all);
    ToNumberRoundTrip(completed);
    ToNumberRoundTrip(all);
  }

  /** The outline colours of priorities 1, 2 and 3. */
  const PriorityColors: seq<string> := ["#d1453b", "#eb8909", "#246fe0"]

  /** The colour swatches of the popover, in order. */
  const Swatches: seq<Color> := [
    Color("#fecaca", "#b91c1c"),
    Color("#fed7aa", "#c2410c"),
    Color("#fef08a", "#a16207"),
    Color("#bbf7d0", "#15803d"),
    Color("#bae6fd", "#0369a1"),
    Color("#bfdbfe", "#1d4ed8"),
    Color("#e9d5ff", "#7e22ce")
  ]

  /** The outline colour: none without a priority, else the colour of that priority. */
  function Outline(priority: Option<Priority>): (c: Option<string>)
    ensures c.None? <==> priority.None?
    ensures priority.Some? ==> c.value == PriorityColors[priority.value - 1]
    ensures c.Some? ==> c.value in PriorityColors
  {
    match priority
    case None => None
    case Some(p) => Some(PriorityColors[p - 1])
  }

  /** Distinct priorities are outlined in distinct colours. */
  lemma OutlineDistinguishes(p: Priority, q: Priority)
    ensures Outline(Some(p)) == Outline(Some(q)) <==> p == q
  {
  }

  /** What rendering a placement does. */
  datatype Render =
    | Removed(document: string)   // `onRemoveDocument(id)` was called, nothing is shown
    | Shown(title: string, background: Option<Color>, outline: Option<string>, checks: Option<string>)

  /** Rendering one placement with the document the column found for it. */
  function RenderPlacement(p: Placement<DocAttrs>, document: Option<Doc>): (r: Render)
    ensures r.Removed? <==> document.None?
    ensures r.Removed? ==> r.document == p.id
    ensures r.Shown? ==>
      r.title == document.value.title && r.background == p.attrs.color &&
      r.outline == Outline(p.attrs.priority) && r.checks == ChecksLabel(document.value.blocks)
  {
    match document
    case None => Removed(p.id)
    case Some(doc) => Shown(doc.title, p.attrs.color, Outline(p.attrs.priority), ChecksLabel(doc.blocks))
  }

  /**
   * `onDragOver`: a document drag reports "before" in the upper half of the
   * card and "after" in the lower one; any other drag reports nothing.
   */
  function DocumentDragOver(types: seq<string>, offsetY: real, height: real): (s: Option<DragStatus>)
    ensures s.Some? <==> FirstTypeIs(types, DocumentType)
    ensures s.Some? ==> (s.value == Before <==> 2.0 * offsetY < height) && s.value != NoTarget
  {
    if FirstTypeIs(types, DocumentType) then Some(Midpoint(offsetY, height)) else None
  }

  /** `onDragLeave` always reports "none", which clears the column's target. */
  function DocumentDragLeave(): (s: DragStatus)
    ensures StatusTarget(s, 0).None?
  {
    NoTarget
  }

  /** The patches the popover sends to `onDocumentSetAttribute`. */
  datatype AttrPatch =
    | ColorPatch(color: Option<Color>)
    | PriorityPatch(priority: Option<Priority>)
    | MemoPatch(memo: string)

  /** The crossed-out square: clear the colour. */
  function ClearColorPatch(): (a: AttrPatch)
    ensures a.ColorPatch? && a.color.None?
  {
    ColorPatch(None)
  }

  /** Swatch `i`: that colour pair. */
  function SwatchPatch(i: nat): (a: AttrPatch)
    requires i < |Swatches|
    ensures a.ColorPatch? && a.color == Some(Swatches[i])
  {
    ColorPatch(Some(Swatches[i]))
  }

  /** Flag `i`: priority `i + 1`. */
  function FlagPatch(i: nat): (a: AttrPatch)
    requires i < |PriorityColors|
    ensures a.PriorityPatch? && a.priority.Some? && a.priority.value == i + 1
  {
    PriorityPatch(Some(i + 1))
  }

  /** The plain flag: clear the priority. */
  function UnflagPatch(): (a: AttrPatch)
    ensures a.PriorityPatch? && a.priority.None?
  {
    PriorityPatch(None)
  }

  /** The memo input: the typed text. */
  function MemoInputPatch(value: string): (a: AttrPatch)
    ensures a.MemoPatch? && a.memo == value
  {
    MemoPatch(value)
  }

  /** Flag `i` is drawn in the colour its priority gives the outline. */
  lemma FlagMatchesOutline(i: nat)
    requires i < |PriorityColors|
    ensures Outline(FlagPatch(i).priority) == Some(PriorityColors[i])
  {
  }

  /**
   * A colour patch from the popover, applied by the hook's `onDocumentSetColor`,
   * gives the placement that colour and changes nothing else on the board.
   */
  lemma ColorPatchApplies(b: KanbanBoard, d: string, a: AttrPatch)
    requires WellFormed(b) && Placed(b, d) && a.ColorPatch?
    ensures WellFormed(SetDocColor(b, d, a.color))
    ensures FindPlacement(SetDocColor(b, d, a.color), d).value.attrs ==
      FindPlacement(b, d).value.attrs.(color := a.color)
    ensures SameExcept(b, SetDocColor(b, d, a.color), d)
  {
    SetDocColorKeeps(b, d, a.color);
  }
}

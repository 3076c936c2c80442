/**
 * The drag-and-drop vocabulary shared by the board, its columns and their
 * documents: the status a hovered item reports to its list, the drop target
 * that status selects, the midpoint rule that picks the status, and the
 * check on the dragged payload's type.
 */
module Drag {
  import opened Wrappers

  /** `"before" | "after" | "none"`. */
  datatype DragStatus = Before | After | NoTarget

  /**
   * The drop index a list keeps for a status reported by its item `i`:
   * nothing for "none", the item's own index for "before", the next for "after".
   */
  function StatusTarget(status: DragStatus, i: int): (t: Option<int>)
    ensures t.None? <==> status == NoTarget
    ensures t.Some? ==> i <= t.value <= i + 1 && (t.value == i <==> status == Before)
  {
    match status
    case NoTarget => None
    case Before => Some(i)
    case After => Some(i + 1)
  }

  /** "before" of item `i + 1` and "after" of item `i` select the same slot. */
  lemma AdjacentTargetsAgree(i: int)
    ensures StatusTarget(After, i) == StatusTarget(Before, i + 1)
  {
  }

  /**
   * The midpoint rule: with the pointer `offset` past the item's leading edge
   * along an axis where the item measures `size`, the first half reports
   * "before" and the rest "after".
   */
  function Midpoint(offset: real, size: real): (s: DragStatus)
    ensures s != NoTarget
    ensures s == Before <==> 2.0 * offset < size
  {
    if offset < size / 2.0 then Before else After
  }

  /** Moving the pointer forward never turns "after" back into "before". */
  lemma MidpointMonotone(o1: real, o2: real, size: real)
    requires o1 <= o2
    ensures Midpoint(o1, size) == After ==> Midpoint(o2, size) == After
    ensures Midpoint(o2, size) == Before ==> Midpoint(o1, size) == Before
  {
  }

  /** The first type the drag offers is `t`; false when it offers none. */
  predicate FirstTypeIs(types: seq<string>, t: string) {
    |types| > 0 && types[0] == t
  }

  const DocumentType: string := "documentid"
  const ElementType: string := "elementid"
}

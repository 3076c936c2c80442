/**
 * `ArrayDragSpace`: lays its children out with a drop gap before each child
 * and one after the last, and highlights the gap whose index is the current
 * drop target.
 */
module ArrayDragSpace {
  import opened Wrappers

  /** What hovering a gap reports: `onDragToIndex(e, i)` or `onDragToLast(e)`. */
  datatype GapAction = ToIndex(index: nat) | ToLast

  datatype Item<T> = Gap(enabled: bool, action: GapAction) | Child(child: T)

  /**
   * The rendered sequence; `None` when there are no children to lay out
   * (`children` undefined).
   */
  function Layout<T>(children: Option<seq<T>>, index: int): (r: Option<seq<Item<T>>>)
    ensures r.None? <==> children.None?
    ensures r.Some? ==> |r.value| == 2 * |children.value| + 1
  {
    match children
    case None => None
    case Some(c) => Some(Interleave(c, 0, index))
  }

  /** Gap and child pairs for `c[from..]`, then the trailing gap. */
  function Interleave<T>(c: seq<T>, from: nat, index: int): (r: seq<Item<T>>)
    requires from <= |c|
    ensures |r| == 2 * (|c| - from) + 1
    ensures forall i :: from <= i < |c| ==>
      r[2 * (i - from)] == Gap(index == i, ToIndex(i)) && r[2 * (i - from) + 1] == Child(c[i])
    ensures r[|r| - 1] == Gap(index == |c|, ToLast)
    decreases |c| - from
  {
    if from == |c| then [Gap(index == |c|, ToLast)]
    else [Gap(index == from, ToIndex(from)), Child(c[from])] + Interleave(c, from + 1, index)
  }

  /** The children of a layout, in order. */
  function Children<T>(items: seq<Item<T>>): seq<T> {
    if |items| == 0 then []
    else (if items[0].Child? then [items[0].child] else []) + Children(items[1..])
  }

  /** A gap contributes no child, a child itself. */
  lemma ChildrenCons<T>(g: Item<T>, x: T, rest: seq<Item<T>>)
    requires g.Gap?
    ensures Children([g, Child(x)] + rest) == [x] + Children(rest)
  {
    var items := [g, Child(x)] + rest;
    assert items[1..] == [Child(x)] + rest;
    assert items[1..][1..] == rest;
  }

  /** The layout keeps the children and their order. */
  lemma {:induction false} ChildrenKept<T>(c: seq<T>, from: nat, index: int)
    requires from <= |c|
    ensures Children(Interleave(c, from, index)) == c[from..]
    decreases |c| - from
  {
    if from == |c| {
      assert Interleave(c, from, index) == [Gap(index == |c|, ToLast)];
      var last: seq<Item<T>> := [Gap(index == |c|, ToLast)];
      assert last[1..] == [];
    } else {
      var rest := Interleave(c, from + 1, index);
      ChildrenKept(c, from + 1, index);
      assert Interleave(c, from, index) == [Gap(index == from, ToIndex(from)), Child(c[from])] + rest;
      ChildrenCons(Gap(index == from, ToIndex(from)), c[from], rest);
      assert c[from..] == [c[from]] + c[from + 1..];
    }
  }

  /**
   * The layout: `n` children give `n + 1` gaps, at the even positions, with
   * the children in order at the odd ones; gap `i` reports index `i` and the
   * last one "to last"; exactly the gap numbered `index` is highlighted, so
   * none is when `index` is out of range (the board passes -1 for no target).
   */
  lemma LayoutGaps<T>(c: seq<T>, index: int)
    ensures Layout(Some(c), index).Some?
    ensures var r := Layout(Some(c), index).value;
      Children(r) == c &&
      (forall i :: 0 <= i < |c| ==> r[2 * i + 1] == Child(c[i]) && r[2 * i].action == ToIndex(i)) &&
      r[2 * |c|].action == ToLast &&
      (forall i :: 0 <= i <= |c| ==> r[2 * i].Gap? && (r[2 * i].enabled <==> index == i))
  {
    ChildrenKept(c, 0, index);
    assert c[0..] == c;
    var r := Interleave(c, 0, index);
    forall i | 0 <= i < |c|
      ensures r[2 * i + 1] == Child(c[i]) && r[2 * i] == Gap(index == i, ToIndex(i))
    {
      assert 2 * (i - 0) == 2 * i;
    }
    assert r[2 * |c|] == Gap(index == |c|, ToLast);
  }
}

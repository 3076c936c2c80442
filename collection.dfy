/**
 * The ordered collection shared by the kanban board and the calendar: a board
 * is an ordered list of elements (columns, calendar entries), each holding an
 * ordered list of placements of documents. `E` is the element's own optional
 * attributes, `A` those of a placement.
 *
 * Every function here computes the board value that one handler of the editor
 * hooks passes to `setContent`. A placement is identified by its position: the
 * hooks find it with `getDocument` and then remove it by object identity, which
 * is the same thing as long as one placement object is not shared by two
 * elements.
 */
module Collection {
  import opened Wrappers
  import opened JsArrays

  datatype Placement<A> = Placement(id: string, attrs: A)

  datatype Element<E, A> = Element(id: string, name: string, content: seq<Placement<A>>, attrs: E)

  type Board<E, A> = seq<Element<E, A>>

  /** Element index and slot index of a placement. */
  datatype Position = Position(elem: nat, slot: nat)

  predicate ValidPosition<E, A>(b: Board<E, A>, p: Position) {
    p.elem < |b| && p.slot < |b[p.elem].content|
  }

  /** Element-then-placement order, the order of `getDocument`'s nested loop. */
  predicate Precedes(p: Position, q: Position) {
    p.elem < q.elem || (p.elem == q.elem && p.slot < q.slot)
  }

  /** Some element holds a placement of document `d`. */
  predicate Placed<E, A>(b: Board<E, A>, d: string) {
    exists i, j :: 0 <= i < |b| && 0 <= j < |b[i].content| && b[i].content[j].id == d
  }

  /** At most one placement per document id across the whole board. */
  predicate AtMostOnce<E, A>(b: Board<E, A>) {
    forall i1, j1, i2, j2 ::
      0 <= i1 < |b| && 0 <= j1 < |b[i1].content| && 0 <= i2 < |b| && 0 <= j2 < |b[i2].content| &&
      b[i1].content[j1].id == b[i2].content[j2].id
      ==> i1 == i2 && j1 == j2
  }

  /** No two elements share an id. */
  predicate DistinctIds<E, A>(b: Board<E, A>) {
    forall i, j :: 0 <= i < j < |b| ==> b[i].id != b[j].id
  }

  predicate HasElement<E, A>(b: Board<E, A>, id: string) {
    exists i :: 0 <= i < |b| && b[i].id == id
  }

  /** The invariant the public operations are meant to keep. */
  predicate WellFormed<E, A>(b: Board<E, A>) {
    DistinctIds(b) && AtMostOnce(b)
  }

  // ---------------------------------------------------------------------------
  // Lookup: `getDocument`

  /** First slot of `s` holding document `d`. */
  function IndexOf<A>(s: seq<Placement<A>>, d: string): (r: Option<nat>)
    ensures r.Some? ==> r.value < |s| && s[r.value].id == d
    ensures r.Some? ==> forall j :: 0 <= j < r.value ==> s[j].id != d
    ensures r.None? <==> forall j :: 0 <= j < |s| ==> s[j].id != d
  {
    if |s| == 0 then None
    else if s[0].id == d then Some(0)
    else match IndexOf(s[1..], d)
      case None => None
      case Some(k) => Some(k + 1)
  }

  /** Position of the first placement of `d`, in element-then-placement order. */
  function Locate<E, A>(b: Board<E, A>, d: string): (r: Option<Position>)
    ensures r.Some? ==> ValidPosition(b, r.value) && b[r.value.elem].content[r.value.slot].id == d
    ensures r.Some? ==> forall i, j ::
      0 <= i < |b| && 0 <= j < |b[i].content| && Precedes(Position(i, j), r.value)
      ==> b[i].content[j].id != d
    ensures r.None? <==> !Placed(b, d)
  {
    if |b| == 0 then None
    else
      var front := b[..|b| - 1];
      assert forall i :: 0 <= i < |front| ==> front[i] == b[i];
      match Locate(front, d)
      case Some(p) => Some(p)
      case None =>
        match IndexOf(b[|b| - 1].content, d)
        case Some(k) => Some(Position(|b| - 1, k))
        case None => None
  }

  /** The value `getDocument(content, d)` returns. */
  function FindPlacement<E, A>(b: Board<E, A>, d: string): (r: Option<Placement<A>>)
    ensures r.None? <==> !Placed(b, d)
    ensures r.Some? ==> r.value.id == d
  {
    match Locate(b, d)
    case None => None
    case Some(p) => Some(b[p.elem].content[p.slot])
  }

  /** Under the invariant, a placement of `d` is found exactly where it is. */
  lemma LocateUnique<E, A>(b: Board<E, A>, d: string, p: Position)
    requires AtMostOnce(b)
    requires ValidPosition(b, p) && b[p.elem].content[p.slot].id == d
    ensures Locate(b, d) == Some(p)
    ensures FindPlacement(b, d) == Some(b[p.elem].content[p.slot])
  {
    var q := Locate(b, d).value;
    assert b[q.elem].content[q.slot].id == b[p.elem].content[p.slot].id;
  }

  /** `getDocument`: the nested for-of loop with its early return. */
  method GetDocument<E, A>(b: Board<E, A>, d: string) returns (r: Option<Placement<A>>)
    ensures r == FindPlacement(b, d)
  {
    var i := 0;
    while i < |b|
      invariant 0 <= i <= |b|
      invariant forall i', j :: 0 <= i' < i && 0 <= j < |b[i'].content| ==> b[i'].content[j].id != d
    {
      var j := 0;
      while j < |b[i].content|
        invariant 0 <= j <= |b[i].content|
        invariant forall j' :: 0 <= j' < j ==> b[i].content[j'].id != d
      {
        if b[i].content[j].id == d {
          var q := Locate(b, d).value;
          assert !Precedes(q, Position(i, j)) && !Precedes(Position(i, j), q);
          return Some(b[i].content[j]);
        }
        j := j + 1;
      }
      i := i + 1;
    }
    return None;
  }

  // ---------------------------------------------------------------------------
  // Element operations

  /** The list with a new, empty element with id `id` and name `name` appended. */
  function NewElement<E, A>(b: Board<E, A>, id: string, name: string, attrs: E): (r: Board<E, A>)
    ensures |r| == |b| + 1 && r[..|b|] == b
    ensures r[|b|] == Element(id, name, [], attrs)
  {
    b + [Element(id, name, [], attrs)]
  }

  /** The list without the elements whose id is `id`. */
  function RemoveElement<E, A>(b: Board<E, A>, id: string): (r: Board<E, A>)
    ensures forall i :: 0 <= i < |r| ==> r[i] in b && r[i].id != id
    ensures forall i :: 0 <= i < |b| && b[i].id != id ==> b[i] in r
    ensures |r| <= |b|
  {
    if |b| == 0 then []
    else (if b[0].id == id then [] else [b[0]]) + RemoveElement(b[1..], id)
  }

  /** Every element's own id differs from `id` and it is kept as it is. */
  lemma {:induction false} RemoveAbsentElement<E, A>(b: Board<E, A>, id: string)
    requires !HasElement(b, id)
    ensures RemoveElement(b, id) == b
  {
    if |b| > 0 {
      assert !HasElement(b[1..], id) by {
        forall i | 0 <= i < |b[1..]| ensures b[1..][i].id != id { assert b[1..][i] == b[i + 1]; }
      }
      RemoveAbsentElement(b[1..], id);
    }
  }

  /** The tail of a board with distinct ids has distinct ids. */
  lemma TailDistinct<E, A>(b: Board<E, A>)
    requires DistinctIds(b) && |b| > 0
    ensures DistinctIds(b[1..])
  {
    forall i, j | 0 <= i < j < |b[1..]| ensures b[1..][i].id != b[1..][j].id {
      assert b[1..][i] == b[i + 1] && b[1..][j] == b[j + 1];
    }
  }

  /** Deleting a later index commutes with taking the head off. */
  lemma DeleteTail<T>(s: seq<T>, k: nat)
    requires 0 < k < |s|
    ensures Delete(s, k) == [s[0]] + Delete(s[1..], k - 1)
  {
    var l := Delete(s, k);
    var r := [s[0]] + Delete(s[1..], k - 1);
    assert |l| == |r|;
    forall j | 0 <= j < |l| ensures l[j] == r[j] {
      if j > 0 {
        assert r[j] == Delete(s[1..], k - 1)[j - 1];
      }
    }
  }

  /** With distinct ids, removing the element at `k` is deleting index `k`. */
  lemma {:induction false} RemoveElementAt<E, A>(b: Board<E, A>, k: nat)
    requires DistinctIds(b) && k < |b|
    ensures RemoveElement(b, b[k].id) == Delete(b, k)
  {
    if k == 0 {
      assert !HasElement(b[1..], b[0].id) by {
        forall i | 0 <= i < |b[1..]| ensures b[1..][i].id != b[0].id { assert b[1..][i] == b[i + 1]; }
      }
      RemoveAbsentElement(b[1..], b[0].id);
      assert RemoveElement(b, b[0].id) == RemoveElement(b[1..], b[0].id);
      assert Delete(b, 0) == b[1..];
    } else {
      TailDistinct(b);
      assert b[1..][k - 1] == b[k];
      RemoveElementAt(b[1..], k - 1);
      assert b[0].id != b[k].id;
      assert RemoveElement(b, b[k].id) == [b[0]] + RemoveElement(b[1..], b[k].id);
      DeleteTail(b, k);
    }
  }

  /** The element matching `id` gets `name`; nothing else changes. */
  function RenameElement<E, A>(b: Board<E, A>, id: string, name: string): (r: Board<E, A>)
    ensures |r| == |b|
    ensures forall i :: 0 <= i < |b| ==>
      r[i].id == b[i].id && r[i].content == b[i].content && r[i].attrs == b[i].attrs &&
      r[i].name == (if b[i].id == id then name else b[i].name)
  {
    seq(|b|, i requires 0 <= i < |b| => if b[i].id == id then b[i].(name := name) else b[i])
  }

  /** The element matching `id` gets attributes `attrs`; nothing else changes. */
  function SetElementAttrs<E, A>(b: Board<E, A>, id: string, attrs: E): (r: Board<E, A>)
    ensures |r| == |b|
    ensures forall i :: 0 <= i < |b| ==>
      r[i].id == b[i].id && r[i].content == b[i].content && r[i].name == b[i].name &&
      r[i].attrs == (if b[i].id == id then attrs else b[i].attrs)
  {
    seq(|b|, i requires 0 <= i < |b| => if b[i].id == id then b[i].(attrs := attrs) else b[i])
  }

  /** Index of the first element with id `id`. */
  function ElementIndex<E, A>(b: Board<E, A>, id: string): (k: nat)
    requires HasElement(b, id)
    ensures k < |b| && b[k].id == id
    ensures forall i :: 0 <= i < k ==> b[i].id != id
  {
    if b[0].id == id then 0
    else
      assert HasElement(b[1..], id) by {
        var i :| 0 <= i < |b| && b[i].id == id;
        assert b[1..][i - 1] == b[i];
      }
      1 + ElementIndex(b[1..], id)
  }

  /**
   * `onMoveElement`: the index is decremented when it lies beyond the element's
   * current index, the element is filtered out, and reinserted with `slice`.
   * The hook inserts `undefined` for an id not on the board, so the id must be
   * present.
   */
  function MoveElement<E, A>(b: Board<E, A>, id: string, index: int): (r: Board<E, A>)
    requires HasElement(b, id)
  {
    var k := ElementIndex(b, id);
    var target := if index > k then index - 1 else index;
    InsertAt(RemoveElement(b, id), target, b[k])
  }

  /** The landing index of `MoveElement` on a board of `n` elements. */
  function MoveTarget(current: nat, index: int, n: nat): nat
    requires n > 0
  {
    RelativeIndex(if index > current then index - 1 else index, n - 1)
  }

  /**
   * With distinct ids a move is a permutation: the element lands at the
   * decremented target and the others keep their relative order.
   */
  lemma MoveElementPermutes<E, A>(b: Board<E, A>, k: nat, index: int)
    requires DistinctIds(b) && k < |b|
    ensures HasElement(b, b[k].id)
    ensures multiset(MoveElement(b, b[k].id, index)) == multiset(b)
    ensures |MoveElement(b, b[k].id, index)| == |b|
    ensures MoveElement(b, b[k].id, index)[MoveTarget(k, index, |b|)] == b[k]
    ensures Delete(MoveElement(b, b[k].id, index), MoveTarget(k, index, |b|)) == Delete(b, k)
  {
    assert HasElement(b, b[k].id);
    assert ElementIndex(b, b[k].id) == k;
    RemoveElementAt(b, k);
  }

  // ---------------------------------------------------------------------------
  // Placement operations

  /** Drops the placement at `p`: its element keeps every other placement, in order. */
  function RemoveAt<E, A>(b: Board<E, A>, p: Position): (r: Board<E, A>)
    requires ValidPosition(b, p)
    ensures |r| == |b|
    ensures forall i :: 0 <= i < |b| ==> r[i].id == b[i].id && r[i].name == b[i].name && r[i].attrs == b[i].attrs
    ensures forall i :: 0 <= i < |b| && i != p.elem ==> r[i] == b[i]
    ensures r[p.elem].content == Delete(b[p.elem].content, p.slot)
  {
    b[p.elem := b[p.elem].(content := Delete(b[p.elem].content, p.slot))]
  }

  /** Every element with id `id` gets `pl` appended to its placements; the others are kept. */
  function AppendTo<E, A>(b: Board<E, A>, id: string, pl: Placement<A>): (r: Board<E, A>)
    ensures |r| == |b|
    ensures forall i :: 0 <= i < |b| ==> r[i].id == b[i].id && r[i].name == b[i].name && r[i].attrs == b[i].attrs
    ensures forall i :: 0 <= i < |b| ==> r[i].content == b[i].content + (if b[i].id == id then [pl] else [])
  {
    seq(|b|, i requires 0 <= i < |b| => if b[i].id == id then b[i].(content := b[i].content + [pl]) else b[i])
  }

  /** Every element with id `id` gets `pl` inserted before its placement `index` (JavaScript slice rules); the others are kept. */
  function InsertInto<E, A>(b: Board<E, A>, id: string, index: int, pl: Placement<A>): (r: Board<E, A>)
    ensures |r| == |b|
    ensures forall i :: 0 <= i < |b| ==> r[i].id == b[i].id && r[i].name == b[i].name && r[i].attrs == b[i].attrs
    ensures forall i :: 0 <= i < |b| ==> r[i].content == if b[i].id == id then InsertAt(b[i].content, index, pl) else b[i].content
  {
    seq(|b|, i requires 0 <= i < |b| => if b[i].id == id then b[i].(content := InsertAt(b[i].content, index, pl)) else b[i])
  }

  /**
   * `onAddDocument`: an unplaced document gets a bare placement appended to the
   * target element; a placed one is taken out of its element and appended,
   * attributes and all, to the target. A target id that matches no element
   * therefore drops an already placed document from the board.
   */
  function AddDocument<E, A>(b: Board<E, A>, id: string, d: string, bare: A): (r: Board<E, A>)
  {
    match Locate(b, d)
    case None => AppendTo(b, id, Placement(d, bare))
    case Some(p) => AppendTo(RemoveAt(b, p), id, b[p.elem].content[p.slot])
  }

  /**
   * `onMoveDocument`: no change for an unplaced document; otherwise the index is
   * decremented when it exceeds the document's slot in its OLD element (even
   * when the target is another element), the placement is taken out and
   * inserted into the target element with `slice`.
   */
  function MoveDocument<E, A>(b: Board<E, A>, id: string, d: string, index: int): (r: Board<E, A>)
  {
    match Locate(b, d)
    case None => b
    case Some(p) =>
      var target := if index > p.slot then index - 1 else index;
      InsertInto(RemoveAt(b, p), id, target, b[p.elem].content[p.slot])
  }

  /** `onRemoveDocument`: no change for an unplaced document. */
  function RemoveDocument<E, A>(b: Board<E, A>, d: string): (r: Board<E, A>)
  {
    match Locate(b, d)
    case None => b
    case Some(p) => RemoveAt(b, p)
  }

  /** Replaces the placement of `d` by `pl`; no change for an unplaced document. */
  function ReplacePlacement<E, A>(b: Board<E, A>, d: string, pl: Placement<A>): (r: Board<E, A>)
  {
    match Locate(b, d)
    case None => b
    case Some(p) => ReplaceAt(b, p, pl)
  }

  function ReplaceAt<E, A>(b: Board<E, A>, p: Position, pl: Placement<A>): (r: Board<E, A>)
    requires ValidPosition(b, p)
    ensures SameElementIds(b, r)
    ensures forall i :: 0 <= i < |b| ==> |r[i].content| == |b[i].content|
    ensures forall i, j :: 0 <= i < |r| && 0 <= j < |r[i].content| ==>
      r[i].content[j] == if Position(i, j) == p then pl else b[i].content[j]
  {
    b[p.elem := b[p.elem].(content := b[p.elem].content[p.slot := pl])]
  }

  // ---------------------------------------------------------------------------
  // What the placement operations keep

  /** Element `eid` holds placement `x` (with its attributes). */
  ghost predicate HeldBy<E, A>(b: Board<E, A>, eid: string, x: Placement<A>) {
    exists i :: 0 <= i < |b| && b[i].id == eid && x in b[i].content
  }

  /** Every placement of a document other than `d` sits in the same element of `b` and `r`. */
  ghost predicate SameExcept<E, A>(b: Board<E, A>, r: Board<E, A>, d: string) {
    (forall i, j :: 0 <= i < |r| && 0 <= j < |r[i].content| && r[i].content[j].id != d ==>
       HeldBy(b, r[i].id, r[i].content[j])) &&
    (forall i, j :: 0 <= i < |b| && 0 <= j < |b[i].content| && b[i].content[j].id != d ==>
       HeldBy(r, b[i].id, b[i].content[j]))
  }

  /** Element ids and order are those of `b`. */
  predicate SameElementIds<E, A>(b: Board<E, A>, r: Board<E, A>) {
    |r| == |b| && forall i :: 0 <= i < |b| ==> r[i].id == b[i].id
  }

  lemma SameIdsDistinct<E, A>(b: Board<E, A>, r: Board<E, A>)
    requires SameElementIds(b, r) && DistinctIds(b)
    ensures DistinctIds(r)
    ensures forall id :: HasElement(r, id) <==> HasElement(b, id)
  {
    forall id ensures HasElement(r, id) <==> HasElement(b, id) {
      if HasElement(r, id) { var i :| 0 <= i < |r| && r[i].id == id; assert b[i].id == id; }
      if HasElement(b, id) { var i :| 0 <= i < |b| && b[i].id == id; assert r[i].id == id; }
    }
  }

  /** Every slot of `RemoveAt(b, p)` is a slot of `b` other than `p`, shifted down past `p`. */
  lemma RemoveAtSlots<E, A>(b: Board<E, A>, p: Position)
    requires ValidPosition(b, p)
    ensures forall i, j :: 0 <= i < |b| && 0 <= j < |RemoveAt(b, p)[i].content| ==>
      var o := if i == p.elem && j >= p.slot then j + 1 else j;
      o < |b[i].content| && RemoveAt(b, p)[i].content[j] == b[i].content[o] && Position(i, o) != p
    ensures forall i, j :: 0 <= i < |b| && 0 <= j < |b[i].content| && Position(i, j) != p ==>
      var j' := if i == p.elem && j > p.slot then j - 1 else j;
      j' < |RemoveAt(b, p)[i].content| && RemoveAt(b, p)[i].content[j'] == b[i].content[j]
  {
    var r := RemoveAt(b, p);
    forall i, j | 0 <= i < |b| && 0 <= j < |r[i].content|
      ensures var o := if i == p.elem && j >= p.slot then j + 1 else j;
        o < |b[i].content| && r[i].content[j] == b[i].content[o] && Position(i, o) != p
    {
      if i != p.elem {
        assert r[i] == b[i];
      }
    }
    forall i, j | 0 <= i < |b| && 0 <= j < |b[i].content| && Position(i, j) != p
      ensures var j' := if i == p.elem && j > p.slot then j - 1 else j;
        j' < |r[i].content| && r[i].content[j'] == b[i].content[j]
    {
      if i != p.elem {
        assert r[i] == b[i];
      } else {
        assert j != p.slot;
      }
    }
  }

  lemma RemoveAtUnique<E, A>(b: Board<E, A>, p: Position)
    requires AtMostOnce(b) && ValidPosition(b, p)
    ensures AtMostOnce(RemoveAt(b, p))
  {
    var r := RemoveAt(b, p);
    RemoveAtSlots(b, p);
    forall i1, j1, i2, j2 |
      0 <= i1 < |r| && 0 <= j1 < |r[i1].content| && 0 <= i2 < |r| && 0 <= j2 < |r[i2].content| &&
      r[i1].content[j1].id == r[i2].content[j2].id
      ensures i1 == i2 && j1 == j2
    {
      var o1 := if i1 == p.elem && j1 >= p.slot then j1 + 1 else j1;
      var o2 := if i2 == p.elem && j2 >= p.slot then j2 + 1 else j2;
      assert b[i1].content[o1].id == b[i2].content[o2].id;
    }
  }

  lemma RemoveAtPlacedBefore<E, A>(b: Board<E, A>, p: Position, d: string)
    requires AtMostOnce(b) && ValidPosition(b, p)
    requires Placed(RemoveAt(b, p), d)
    ensures Placed(b, d) && d != b[p.elem].content[p.slot].id
  {
    var r := RemoveAt(b, p);
    var i, j :| 0 <= i < |r| && 0 <= j < |r[i].content| && r[i].content[j].id == d;
    RemoveAtSlots(b, p);
    var o := if i == p.elem && j >= p.slot then j + 1 else j;
    assert b[i].content[o].id == d;
    assert Position(i, o) != p;
  }

  lemma RemoveAtPlacedAfter<E, A>(b: Board<E, A>, p: Position, d: string)
    requires ValidPosition(b, p)
    requires Placed(b, d) && d != b[p.elem].content[p.slot].id
    ensures Placed(RemoveAt(b, p), d)
  {
    var r := RemoveAt(b, p);
    var i, j :| 0 <= i < |b| && 0 <= j < |b[i].content| && b[i].content[j].id == d;
    RemoveAtSlots(b, p);
    assert Position(i, j) != p;
    var j' := if i == p.elem && j > p.slot then j - 1 else j;
    assert r[i].content[j'].id == d;
  }

  lemma RemoveAtPlaced<E, A>(b: Board<E, A>, p: Position, d: string)
    requires AtMostOnce(b) && ValidPosition(b, p)
    ensures Placed(RemoveAt(b, p), d) <==> Placed(b, d) && d != b[p.elem].content[p.slot].id
  {
    if Placed(RemoveAt(b, p), d) { RemoveAtPlacedBefore(b, p, d); }
    if Placed(b, d) && d != b[p.elem].content[p.slot].id { RemoveAtPlacedAfter(b, p, d); }
  }

  lemma RemoveAtSame<E, A>(b: Board<E, A>, p: Position)
    requires ValidPosition(b, p)
    ensures SameElementIds(b, RemoveAt(b, p))
    ensures SameExcept(b, RemoveAt(b, p), b[p.elem].content[p.slot].id)
  {
    var r := RemoveAt(b, p);
    RemoveAtSlots(b, p);
    forall i, j | 0 <= i < |r| && 0 <= j < |r[i].content|
      ensures HeldBy(b, r[i].id, r[i].content[j])
    {
      var o := if i == p.elem && j >= p.slot then j + 1 else j;
      assert b[i].content[o] in b[i].content;
    }
    forall i, j | 0 <= i < |b| && 0 <= j < |b[i].content| && b[i].content[j].id != b[p.elem].content[p.slot].id
      ensures HeldBy(r, b[i].id, b[i].content[j])
    {
      assert Position(i, j) != p;
      var j' := if i == p.elem && j > p.slot then j - 1 else j;
      assert r[i].content[j'] in r[i].content;
    }
  }

  /** Taking out the placement at `p` keeps the invariant and unplaces its document. */
  lemma RemoveAtKeeps<E, A>(b: Board<E, A>, p: Position)
    requires WellFormed(b) && ValidPosition(b, p)
    ensures WellFormed(RemoveAt(b, p))
    ensures !Placed(RemoveAt(b, p), b[p.elem].content[p.slot].id)
    ensures SameElementIds(b, RemoveAt(b, p))
    ensures SameExcept(b, RemoveAt(b, p), b[p.elem].content[p.slot].id)
  {
    RemoveAtUnique(b, p);
    RemoveAtPlaced(b, p, b[p.elem].content[p.slot].id);
    RemoveAtSame(b, p);
    SameIdsDistinct(b, RemoveAt(b, p));
  }

  /** Every slot of `InsertInto(b, id, index, pl)` is the new placement or a slot of `b`. */
  lemma InsertIntoSlots<E, A>(b: Board<E, A>, id: string, index: int, pl: Placement<A>)
    ensures forall i, j :: 0 <= i < |b| && 0 <= j < |InsertInto(b, id, index, pl)[i].content| ==>
      if b[i].id == id && j == RelativeIndex(index, |b[i].content|) then
        InsertInto(b, id, index, pl)[i].content[j] == pl
      else
        var o := if b[i].id == id && j > RelativeIndex(index, |b[i].content|) then j - 1 else j;
        o < |b[i].content| && InsertInto(b, id, index, pl)[i].content[j] == b[i].content[o]
    ensures forall i, j :: 0 <= i < |b| && 0 <= j < |b[i].content| ==>
      var j' := if b[i].id == id && j >= RelativeIndex(index, |b[i].content|) then j + 1 else j;
      j' < |InsertInto(b, id, index, pl)[i].content| && InsertInto(b, id, index, pl)[i].content[j'] == b[i].content[j]
  {
    var r := InsertInto(b, id, index, pl);
    forall i, j | 0 <= i < |b| && 0 <= j < |b[i].content|
      ensures var j' := if b[i].id == id && j >= RelativeIndex(index, |b[i].content|) then j + 1 else j;
        j' < |r[i].content| && r[i].content[j'] == b[i].content[j]
    {
      if b[i].id == id {
        assert r[i].content == InsertAt(b[i].content, index, pl);
      }
    }
  }

  /** One slot of `InsertInto(b, id, index, pl)`: the new placement, or the slot of `b` it came from. */
  lemma InsertIntoSlotAt<E, A>(b: Board<E, A>, id: string, index: int, pl: Placement<A>, i: nat, j: nat)
    requires i < |b| && j < |InsertInto(b, id, index, pl)[i].content|
    ensures b[i].id == id && j == RelativeIndex(index, |b[i].content|) ==> InsertInto(b, id, index, pl)[i].content[j] == pl
    ensures !(b[i].id == id && j == RelativeIndex(index, |b[i].content|)) ==>
      var o := if b[i].id == id && j > RelativeIndex(index, |b[i].content|) then j - 1 else j;
      o < |b[i].content| && InsertInto(b, id, index, pl)[i].content[j] == b[i].content[o]
  {
    if b[i].id == id {
      assert InsertInto(b, id, index, pl)[i].content == InsertAt(b[i].content, index, pl);
    }
  }

  lemma InsertIntoUnique<E, A>(b: Board<E, A>, id: string, index: int, pl: Placement<A>)
    requires WellFormed(b) && !Placed(b, pl.id)
    ensures AtMostOnce(InsertInto(b, id, index, pl))
  {
    var r := InsertInto(b, id, index, pl);
    forall i1, j1, i2, j2 |
      0 <= i1 < |r| && 0 <= j1 < |r[i1].content| && 0 <= i2 < |r| && 0 <= j2 < |r[i2].content| &&
      r[i1].content[j1].id == r[i2].content[j2].id
      ensures i1 == i2 && j1 == j2
    {
      InsertIntoSlotAt(b, id, index, pl, i1, j1);
      InsertIntoSlotAt(b, id, index, pl, i2, j2);
      var new1 := b[i1].id == id && j1 == RelativeIndex(index, |b[i1].content|);
      var new2 := b[i2].id == id && j2 == RelativeIndex(index, |b[i2].content|);
      var o1 := if b[i1].id == id && j1 > RelativeIndex(index, |b[i1].content|) then j1 - 1 else j1;
      var o2 := if b[i2].id == id && j2 > RelativeIndex(index, |b[i2].content|) then j2 - 1 else j2;
      if new1 && new2 {
        assert b[i1].id == b[i2].id;
      } else if new1 {
        assert false;
      } else if new2 {
        assert false;
      } else {
        assert b[i1].content[o1].id == b[i2].content[o2].id;
      }
    }
  }

  lemma InsertIntoPlaced<E, A>(b: Board<E, A>, id: string, index: int, pl: Placement<A>, d: string)
    ensures Placed(InsertInto(b, id, index, pl), d) <==> Placed(b, d) || (d == pl.id && HasElement(b, id))
  {
    var r := InsertInto(b, id, index, pl);
    InsertIntoSlots(b, id, index, pl);
    if Placed(r, d) {
      var i, j :| 0 <= i < |r| && 0 <= j < |r[i].content| && r[i].content[j].id == d;
      if !(b[i].id == id && j == RelativeIndex(index, |b[i].content|)) {
        var o := if b[i].id == id && j > RelativeIndex(index, |b[i].content|) then j - 1 else j;
        assert b[i].content[o].id == d;
      }
    }
    if Placed(b, d) {
      var i, j :| 0 <= i < |b| && 0 <= j < |b[i].content| && b[i].content[j].id == d;
      var j' := if b[i].id == id && j >= RelativeIndex(index, |b[i].content|) then j + 1 else j;
      assert r[i].content[j'].id == d;
    }
    if d == pl.id && HasElement(b, id) {
      var i :| 0 <= i < |b| && b[i].id == id;
      assert r[i].content[RelativeIndex(index, |b[i].content|)] == pl;
    }
  }

  lemma InsertIntoSame<E, A>(b: Board<E, A>, id: string, index: int, pl: Placement<A>)
    ensures SameElementIds(b, InsertInto(b, id, index, pl))
    ensures SameExcept(b, InsertInto(b, id, index, pl), pl.id)
  {
    var r := InsertInto(b, id, index, pl);
    InsertIntoSlots(b, id, index, pl);
    forall i, j | 0 <= i < |r| && 0 <= j < |r[i].content| && r[i].content[j].id != pl.id
      ensures HeldBy(b, r[i].id, r[i].content[j])
    {
      var o := if b[i].id == id && j > RelativeIndex(index, |b[i].content|) then j - 1 else j;
      assert b[i].content[o] in b[i].content;
    }
    forall i, j | 0 <= i < |b| && 0 <= j < |b[i].content|
      ensures HeldBy(r, b[i].id, b[i].content[j])
    {
      var j' := if b[i].id == id && j >= RelativeIndex(index, |b[i].content|) then j + 1 else j;
      assert r[i].content[j'] in r[i].content;
    }
  }

  /**
   * Inserting a placement of an unplaced document into the (at most one)
   * element with id `id` keeps the invariant.
   */
  lemma InsertIntoKeeps<E, A>(b: Board<E, A>, id: string, index: int, pl: Placement<A>)
    requires WellFormed(b) && !Placed(b, pl.id)
    ensures WellFormed(InsertInto(b, id, index, pl))
    ensures Placed(InsertInto(b, id, index, pl), pl.id) <==> HasElement(b, id)
    ensures SameElementIds(b, InsertInto(b, id, index, pl))
    ensures SameExcept(b, InsertInto(b, id, index, pl), pl.id)
  {
    InsertIntoUnique(b, id, index, pl);
    InsertIntoPlaced(b, id, index, pl, pl.id);
    InsertIntoSame(b, id, index, pl);
    SameIdsDistinct(b, InsertInto(b, id, index, pl));
  }

  /** With distinct ids, appending to the element `id` is inserting at its end. */
  lemma AppendIsInsert<E, A>(b: Board<E, A>, id: string, pl: Placement<A>)
    requires DistinctIds(b) && HasElement(b, id)
    ensures AppendTo(b, id, pl) == InsertInto(b, id, |b[ElementIndex(b, id)].content|, pl)
  {
    var k := ElementIndex(b, id);
    var n := |b[k].content|;
    forall i | 0 <= i < |b| && b[i].id == id ensures b[i].content + [pl] == InsertAt(b[i].content, n, pl) {
      assert i == k;
      assert b[i].content[..n] == b[i].content;
    }
  }

  /** Appending to an id that no element has changes nothing. */
  lemma AppendToAbsent<E, A>(b: Board<E, A>, id: string, pl: Placement<A>)
    requires !HasElement(b, id)
    ensures AppendTo(b, id, pl) == b
  {
    var r := AppendTo(b, id, pl);
    forall i | 0 <= i < |b| ensures r[i] == b[i] { assert b[i].id != id; }
  }

  lemma {:induction false} SameExceptTrans<E, A>(b: Board<E, A>, m: Board<E, A>, r: Board<E, A>, d: string)
    requires SameElementIds(b, m) && SameElementIds(m, r)
    requires SameExcept(b, m, d) && SameExcept(m, r, d)
    ensures SameElementIds(b, r) && SameExcept(b, r, d)
  {
    forall i, j | 0 <= i < |r| && 0 <= j < |r[i].content| && r[i].content[j].id != d
      ensures HeldBy(b, r[i].id, r[i].content[j])
    {
      var x := r[i].content[j];
      var i' :| 0 <= i' < |m| && m[i'].id == r[i].id && x in m[i'].content;
      var j' :| 0 <= j' < |m[i'].content| && m[i'].content[j'] == x;
      assert HeldBy(b, m[i'].id, m[i'].content[j']);
    }
    forall i, j | 0 <= i < |b| && 0 <= j < |b[i].content| && b[i].content[j].id != d
      ensures HeldBy(r, b[i].id, b[i].content[j])
    {
      var x := b[i].content[j];
      var i' :| 0 <= i' < |m| && m[i'].id == b[i].id && x in m[i'].content;
      var j' :| 0 <= j' < |m[i'].content| && m[i'].content[j'] == x;
      assert HeldBy(r, m[i'].id, m[i'].content[j']);
    }
  }

  lemma SameExceptRefl<E, A>(b: Board<E, A>, d: string)
    ensures SameElementIds(b, b) && SameExcept(b, b, d)
  {
    forall i, j | 0 <= i < |b| && 0 <= j < |b[i].content| ensures HeldBy(b, b[i].id, b[i].content[j]) {
      assert b[i].content[j] in b[i].content;
    }
  }

  /**
   * Appending the placement `x` of an unplaced document to element `id`: the
   * invariant is kept and, when the element exists, `x` becomes the last slot
   * of that element and the placement `getDocument` finds.
   */
  lemma AppendKeeps<E, A>(b: Board<E, A>, id: string, x: Placement<A>)
    requires WellFormed(b) && !Placed(b, x.id)
    ensures WellFormed(AppendTo(b, id, x))
    ensures SameElementIds(b, AppendTo(b, id, x)) && SameExcept(b, AppendTo(b, id, x), x.id)
    ensures Placed(AppendTo(b, id, x), x.id) <==> HasElement(b, id)
    ensures HasElement(b, id) ==> FindPlacement(AppendTo(b, id, x), x.id) == Some(x)
  {
    if HasElement(b, id) {
      var k := ElementIndex(b, id);
      AppendIsInsert(b, id, x);
      InsertIntoKeeps(b, id, |b[k].content|, x);
      var r := AppendTo(b, id, x);
      assert r[k].content[|b[k].content|] == x;
      LocateUnique(r, x.id, Position(k, |b[k].content|));
    } else {
      AppendToAbsent(b, id, x);
      SameExceptRefl(b, x.id);
    }
  }

  /**
   * `onAddDocument` keeps at most one placement per document; the document ends
   * up as the last placement of the target element, carrying the attributes it
   * had (bare when it was unplaced); no other placement moves or changes. With
   * no element of id `id` the document is no longer on the board.
   */
  lemma AddDocumentKeeps<E, A>(b: Board<E, A>, id: string, d: string, bare: A)
    requires WellFormed(b)
    ensures WellFormed(AddDocument(b, id, d, bare))
    ensures SameElementIds(b, AddDocument(b, id, d, bare))
    ensures SameExcept(b, AddDocument(b, id, d, bare), d)
    ensures Placed(AddDocument(b, id, d, bare), d) <==> HasElement(b, id)
    ensures HasElement(b, id) ==>
      FindPlacement(AddDocument(b, id, d, bare), d) == Some(FindPlacement(b, d).GetOr(Placement(d, bare)))
    ensures HasElement(b, id) ==>
      var c := AddDocument(b, id, d, bare)[ElementIndex(b, id)].content;
      |c| > 0 && c[|c| - 1] == FindPlacement(b, d).GetOr(Placement(d, bare))
  {
    match Locate(b, d)
    case None =>
      AppendKeeps(b, id, Placement(d, bare));
    case Some(p) =>
      var m := RemoveAt(b, p);
      RemoveAtKeeps(b, p);
      SameIdsDistinct(b, m);
      AppendKeeps(m, id, b[p.elem].content[p.slot]);
      SameExceptTrans(b, m, AddDocument(b, id, d, bare), d);
  }

  /**
   * `onMoveDocument` on a placed document keeps the invariant and the
   * placement's attributes; when the target element exists the placement sits
   * at the normalised (and possibly decremented) index of that element; no
   * other placement moves to another element or changes.
   */
  lemma MoveDocumentKeeps<E, A>(b: Board<E, A>, id: string, d: string, index: int)
    requires WellFormed(b)
    ensures !Placed(b, d) ==> MoveDocument(b, id, d, index) == b
    ensures WellFormed(MoveDocument(b, id, d, index))
    ensures SameElementIds(b, MoveDocument(b, id, d, index))
    ensures SameExcept(b, MoveDocument(b, id, d, index), d)
    ensures Placed(b, d) ==> (Placed(MoveDocument(b, id, d, index), d) <==> HasElement(b, id))
    ensures Placed(b, d) && HasElement(b, id) ==>
      FindPlacement(MoveDocument(b, id, d, index), d) == FindPlacement(b, d)
  {
    match Locate(b, d)
    case None =>
      SameExceptRefl(b, d);
    case Some(p) =>
      var m := RemoveAt(b, p);
      var x := b[p.elem].content[p.slot];
      var target := if index > p.slot then index - 1 else index;
      RemoveAtKeeps(b, p);
      InsertIntoKeeps(m, id, target, x);
      var r := InsertInto(m, id, target, x);
      SameExceptTrans(b, m, r, d);
      SameIdsDistinct(b, m);
      if HasElement(b, id) {
        var k := ElementIndex(b, id);
        assert m[k].id == id;
        var at := RelativeIndex(target, |m[k].content|);
        assert r[k].content[at] == x;
        LocateUnique(r, d, Position(k, at));
      }
  }

  /** Where `MoveDocument` puts the placement inside the target element. */
  lemma MoveDocumentLands<E, A>(b: Board<E, A>, id: string, d: string, index: int)
    requires WellFormed(b) && Placed(b, d) && HasElement(b, id)
    ensures var p := Locate(b, d).value;
      var k := ElementIndex(b, id);
      var n := |b[k].content| - (if k == p.elem then 1 else 0);
      var at := RelativeIndex(if index > p.slot then index - 1 else index, n);
      var c := MoveDocument(b, id, d, index)[k].content;
      |c| == n + 1 && c[at] == b[p.elem].content[p.slot] && Delete(c, at) == RemoveAt(b, p)[k].content
  {
  }

  /** `onRemoveDocument` unplaces the document and nothing else. */
  lemma RemoveDocumentKeeps<E, A>(b: Board<E, A>, d: string)
    requires WellFormed(b)
    ensures !Placed(b, d) ==> RemoveDocument(b, d) == b
    ensures WellFormed(RemoveDocument(b, d))
    ensures !Placed(RemoveDocument(b, d), d)
    ensures SameElementIds(b, RemoveDocument(b, d)) && SameExcept(b, RemoveDocument(b, d), d)
  {
    match Locate(b, d)
    case None =>
      SameExceptRefl(b, d);
    case Some(p) =>
      RemoveAtKeeps(b, p);
  }

  lemma ReplaceAtUnique<E, A>(b: Board<E, A>, p: Position, pl: Placement<A>)
    requires AtMostOnce(b) && ValidPosition(b, p) && pl.id == b[p.elem].content[p.slot].id
    ensures AtMostOnce(ReplaceAt(b, p, pl))
  {
    var r := ReplaceAt(b, p, pl);
    forall i1, j1, i2, j2 |
      0 <= i1 < |r| && 0 <= j1 < |r[i1].content| && 0 <= i2 < |r| && 0 <= j2 < |r[i2].content| &&
      r[i1].content[j1].id == r[i2].content[j2].id
      ensures i1 == i2 && j1 == j2
    {
      assert b[i1].content[j1].id == b[i2].content[j2].id;
    }
  }

  lemma ReplaceAtSame<E, A>(b: Board<E, A>, p: Position, pl: Placement<A>)
    requires ValidPosition(b, p) && pl.id == b[p.elem].content[p.slot].id
    ensures SameExcept(b, ReplaceAt(b, p, pl), pl.id)
  {
    var r := ReplaceAt(b, p, pl);
    forall i, j | 0 <= i < |r| && 0 <= j < |r[i].content| && r[i].content[j].id != pl.id
      ensures HeldBy(b, r[i].id, r[i].content[j])
    {
      assert b[i].content[j] in b[i].content;
    }
    forall i, j | 0 <= i < |b| && 0 <= j < |b[i].content| && b[i].content[j].id != pl.id
      ensures HeldBy(r, b[i].id, b[i].content[j])
    {
      assert r[i].content[j] in r[i].content;
    }
  }

  /**
   * Replacing the placement of `d` by another placement of `d` keeps the
   * invariant; `getDocument` then finds the new placement, and nothing else
   * changes.
   */
  lemma ReplacePlacementKeeps<E, A>(b: Board<E, A>, d: string, pl: Placement<A>)
    requires WellFormed(b) && pl.id == d
    ensures !Placed(b, d) ==> ReplacePlacement(b, d, pl) == b
    ensures WellFormed(ReplacePlacement(b, d, pl))
    ensures Placed(b, d) ==> FindPlacement(ReplacePlacement(b, d, pl), d) == Some(pl)
    ensures SameElementIds(b, ReplacePlacement(b, d, pl)) && SameExcept(b, ReplacePlacement(b, d, pl), d)
  {
    match Locate(b, d)
    case None =>
      SameExceptRefl(b, d);
    case Some(p) =>
      ReplaceAtUnique(b, p, pl);
      ReplaceAtSame(b, p, pl);
      SameIdsDistinct(b, ReplaceAt(b, p, pl));
      LocateUnique(ReplaceAt(b, p, pl), d, p);
  }

  // ---------------------------------------------------------------------------
  // What the element operations keep

  /** `r` lists elements of `b`, element `i` of `r` being element `g[i]` of `b`, none twice. */
  ghost predicate Reindexed<E, A>(b: Board<E, A>, r: Board<E, A>, g: seq<nat>) {
    |g| == |r| &&
    (forall i :: 0 <= i < |r| ==> g[i] < |b| && r[i] == b[g[i]]) &&
    (forall i, j :: 0 <= i < |g| && 0 <= j < |g| && i != j ==> g[i] != g[j])
  }

  lemma ReindexedKeeps<E, A>(b: Board<E, A>, r: Board<E, A>, g: seq<nat>)
    requires WellFormed(b) && Reindexed(b, r, g)
    ensures WellFormed(r)
    ensures forall d :: Placed(r, d) ==> Placed(b, d)
  {
    forall i, j | 0 <= i < j < |r| ensures r[i].id != r[j].id {
      if g[i] < g[j] { assert b[g[i]].id != b[g[j]].id; } else { assert b[g[j]].id != b[g[i]].id; }
    }
    forall i1, j1, i2, j2 |
      0 <= i1 < |r| && 0 <= j1 < |r[i1].content| && 0 <= i2 < |r| && 0 <= j2 < |r[i2].content| &&
      r[i1].content[j1].id == r[i2].content[j2].id
      ensures i1 == i2 && j1 == j2
    {
      assert b[g[i1]].content[j1].id == b[g[i2]].content[j2].id;
    }
    forall d | Placed(r, d) ensures Placed(b, d) {
      var i, j :| 0 <= i < |r| && 0 <= j < |r[i].content| && r[i].content[j].id == d;
      assert b[g[i]].content[j].id == d;
    }
  }

  function Indices(n: nat): (s: seq<nat>)
    ensures |s| == n && forall i :: 0 <= i < n ==> s[i] == i
  {
    seq(n, i requires 0 <= i < n => i)
  }

  /** Deleting element `k` keeps the invariant, and unplaces exactly its documents. */
  lemma DeleteElementKeeps<E, A>(b: Board<E, A>, k: nat)
    requires WellFormed(b) && k < |b|
    ensures WellFormed(Delete(b, k))
    ensures forall j :: 0 <= j < |b[k].content| ==> !Placed(Delete(b, k), b[k].content[j].id)
    ensures forall d :: !Placed(b, d) ==> !Placed(Delete(b, k), d)
    ensures forall i, j :: 0 <= i < |b| && i != k && 0 <= j < |b[i].content| ==>
      FindPlacement(Delete(b, k), b[i].content[j].id) == Some(b[i].content[j])
  {
    var r := Delete(b, k);
    var g := Delete(Indices(|b|), k);
    assert Reindexed(b, r, g);
    ReindexedKeeps(b, r, g);
    forall j | 0 <= j < |b[k].content| ensures !Placed(r, b[k].content[j].id) {
      forall i', j' | 0 <= i' < |r| && 0 <= j' < |r[i'].content|
        ensures r[i'].content[j'].id != b[k].content[j].id
      {
        assert r[i'] == b[g[i']] && g[i'] != k;
      }
    }
    forall i, j | 0 <= i < |b| && i != k && 0 <= j < |b[i].content|
      ensures FindPlacement(r, b[i].content[j].id) == Some(b[i].content[j])
    {
      var i' := if i < k then i else i - 1;
      assert r[i'] == b[i];
      LocateUnique(r, b[i].content[j].id, Position(i', j));
    }
  }

  /** `onNewElement` with a fresh id keeps the invariant. */
  lemma NewElementKeeps<E, A>(b: Board<E, A>, id: string, name: string, attrs: E)
    requires WellFormed(b) && !HasElement(b, id)
    ensures WellFormed(NewElement(b, id, name, attrs))
    ensures forall d :: FindPlacement(NewElement(b, id, name, attrs), d) == FindPlacement(b, d)
  {
    var r := NewElement(b, id, name, attrs);
    forall i, j | 0 <= i < j < |r| ensures r[i].id != r[j].id {
      if j == |b| { assert b[i].id != id; }
    }
    forall d ensures FindPlacement(r, d) == FindPlacement(b, d) {
      if Placed(b, d) {
        var p := Locate(b, d).value;
        assert r[p.elem] == b[p.elem];
        LocateUnique(r, d, p);
      } else {
        forall i, j | 0 <= i < |r| && 0 <= j < |r[i].content| ensures r[i].content[j].id != d {
          assert i < |b| && r[i] == b[i];
        }
      }
    }
  }

  /**
   * `onRemoveElement` keeps the invariant; the placements of the removed
   * element leave the board and every other placement is still found.
   */
  lemma RemoveElementKeeps<E, A>(b: Board<E, A>, id: string)
    requires WellFormed(b)
    ensures WellFormed(RemoveElement(b, id))
    ensures forall i, j :: 0 <= i < |b| && 0 <= j < |b[i].content| ==>
      if b[i].id == id then !Placed(RemoveElement(b, id), b[i].content[j].id)
      else FindPlacement(RemoveElement(b, id), b[i].content[j].id) == Some(b[i].content[j])
  {
    if HasElement(b, id) {
      var k := ElementIndex(b, id);
      RemoveElementAt(b, k);
      DeleteElementKeeps(b, k);
      forall i | 0 <= i < |b| && b[i].id == id ensures i == k {}
    } else {
      RemoveAbsentElement(b, id);
      forall i, j | 0 <= i < |b| && 0 <= j < |b[i].content|
        ensures FindPlacement(b, b[i].content[j].id) == Some(b[i].content[j])
      {
        LocateUnique(b, b[i].content[j].id, Position(i, j));
      }
    }
  }

  /** Deleting element `k` drops index `k` from the map. */
  lemma DeleteReindexed<E, A>(b: Board<E, A>, k: nat)
    requires k < |b|
    ensures Reindexed(b, Delete(b, k), Delete(Indices(|b|), k))
    ensures k !in Delete(Indices(|b|), k)
  {
  }

  /** Element `i` of `InsertAt(s, t, x)`, read off the original sequence. */
  lemma InsertAtIndex<T>(s: seq<T>, t: int, x: T, i: nat)
    requires i <= |s|
    ensures InsertAt(s, t, x)[i] ==
      if i < RelativeIndex(t, |s|) then s[i] else if i == RelativeIndex(t, |s|) then x else s[i - 1]
  {
  }

  /** Inserting element `k` of `b` into a reindexed board that lacks it. */
  lemma InsertReindexed<E, A>(b: Board<E, A>, s: Board<E, A>, g: seq<nat>, t: int, k: nat)
    requires Reindexed(b, s, g) && k < |b| && k !in g
    ensures Reindexed(b, InsertAt(s, t, b[k]), InsertAt(g, t, k))
  {
    var r := InsertAt(s, t, b[k]);
    var g' := InsertAt(g, t, k);
    forall i | 0 <= i < |r| ensures g'[i] < |b| && r[i] == b[g'[i]] {
      InsertAtIndex(s, t, b[k], i);
      InsertAtIndex(g, t, k, i);
    }
    forall i, j | 0 <= i < |g'| && 0 <= j < |g'| && i != j ensures g'[i] != g'[j] {
      InsertAtIndex(g, t, k, i);
      InsertAtIndex(g, t, k, j);
    }
  }

  /** With distinct ids, a move deletes element `k` and reinserts it. */
  lemma MoveElementIsInsert<E, A>(b: Board<E, A>, k: nat, index: int)
    requires DistinctIds(b) && k < |b|
    ensures HasElement(b, b[k].id)
    ensures MoveElement(b, b[k].id, index) == InsertAt(Delete(b, k), if index > k then index - 1 else index, b[k])
  {
    assert HasElement(b, b[k].id);
    assert ElementIndex(b, b[k].id) == k;
    RemoveElementAt(b, k);
  }

  /** `onMoveElement` keeps the invariant and every placement where it was. */
  lemma MoveElementKeeps<E, A>(b: Board<E, A>, k: nat, index: int)
    requires WellFormed(b) && k < |b|
    ensures HasElement(b, b[k].id)
    ensures WellFormed(MoveElement(b, b[k].id, index))
    ensures forall d :: FindPlacement(MoveElement(b, b[k].id, index), d) == FindPlacement(b, d)
  {
    MoveElementIsInsert(b, k, index);
    var target := if index > k then index - 1 else index;
    var r := MoveElement(b, b[k].id, index);
    DeleteReindexed(b, k);
    InsertReindexed(b, Delete(b, k), Delete(Indices(|b|), k), target, k);
    ReindexedKeeps(b, r, InsertAt(Delete(Indices(|b|), k), target, k));
    forall d | Placed(b, d) ensures FindPlacement(r, d) == FindPlacement(b, d) {
      MoveElementFinds(b, k, index, Locate(b, d).value);
    }
  }

  /** Under the invariant, a placement sitting at some position is the one `getDocument` finds. */
  lemma FoundAt<E, A>(r: Board<E, A>, x: Placement<A>, i: nat, j: nat)
    requires AtMostOnce(r) && i < |r| && j < |r[i].content| && r[i].content[j] == x
    ensures FindPlacement(r, x.id) == Some(x)
  {
    LocateUnique(r, x.id, Position(i, j));
  }

  /** An element of `s` keeps its index below the insertion point and moves up one from it. */
  lemma InsertAtKeepsAt<T>(s: seq<T>, t: int, x: T, e: nat)
    requires e < |s|
    ensures var i := if e < RelativeIndex(t, |s|) then e else e + 1;
      i < |InsertAt(s, t, x)| && InsertAt(s, t, x)[i] == s[e]
  {
  }

  /** Deleting element `k` and reinserting it anywhere leaves every placement findable. */
  lemma ReinsertedFinds<E, A>(b: Board<E, A>, k: nat, target: int, p: Position)
    requires k < |b| && ValidPosition(b, p)
    requires AtMostOnce(InsertAt(Delete(b, k), target, b[k]))
    ensures FindPlacement(InsertAt(Delete(b, k), target, b[k]), b[p.elem].content[p.slot].id) == Some(b[p.elem].content[p.slot])
  {
    var s := Delete(b, k);
    var r := InsertAt(s, target, b[k]);
    var x := b[p.elem].content[p.slot];
    if p.elem == k {
      FoundAt(r, x, RelativeIndex(target, |s|), p.slot);
    } else {
      var e := if p.elem < k then p.elem else p.elem - 1;
      assert s[e] == b[p.elem];
      InsertAtKeepsAt(s, target, b[k], e);
      FoundAt(r, x, if e < RelativeIndex(target, |s|) then e else e + 1, p.slot);
    }
  }

  /** The element holding a placement lands at a position `MoveElement` reports. */
  lemma MoveElementFinds<E, A>(b: Board<E, A>, k: nat, index: int, p: Position)
    requires WellFormed(b) && k < |b| && ValidPosition(b, p)
    requires HasElement(b, b[k].id) && WellFormed(MoveElement(b, b[k].id, index))
    ensures FindPlacement(MoveElement(b, b[k].id, index), b[p.elem].content[p.slot].id) == Some(b[p.elem].content[p.slot])
  {
    MoveElementIsInsert(b, k, index);
    ReinsertedFinds(b, k, if index > k then index - 1 else index, p);
  }

  /** Renaming or recolouring elements keeps the invariant and every placement. */
  lemma SameContentKeeps<E, A>(b: Board<E, A>, r: Board<E, A>)
    requires WellFormed(b) && SameElementIds(b, r)
    requires forall i :: 0 <= i < |b| ==> r[i].content == b[i].content
    ensures WellFormed(r)
    ensures forall d :: FindPlacement(r, d) == FindPlacement(b, d)
  {
    SameIdsDistinct(b, r);
    forall i1, j1, i2, j2 |
      0 <= i1 < |r| && 0 <= j1 < |r[i1].content| && 0 <= i2 < |r| && 0 <= j2 < |r[i2].content| &&
      r[i1].content[j1].id == r[i2].content[j2].id
      ensures i1 == i2 && j1 == j2
    {
      assert b[i1].content[j1].id == b[i2].content[j2].id;
    }
    forall d ensures FindPlacement(r, d) == FindPlacement(b, d) {
      if Placed(b, d) {
        var p := Locate(b, d).value;
        LocateUnique(r, d, p);
      } else {
        forall i, j | 0 <= i < |r| && 0 <= j < |r[i].content| ensures r[i].content[j].id != d {
          assert r[i].content[j] == b[i].content[j];
        }
      }
    }
  }
}

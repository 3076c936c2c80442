/**
 * The month grid of `MakeCalendar`: the cells run over whole weeks from the
 * week of the month's first day to the week of its last, clicking a cell
 * toggles its index in `checkedDates`, and hovering a cell shows its plus
 * icon. Days are numbered consecutively (a day number stands for a date), so
 * `addDays(day, 1)` is `day + 1` and `differenceInCalendarDays(a, b)` is
 * `a - b`.
 */
module MakeCalendarGrid {
  import opened Wrappers

  predicate NoDup(s: seq<int>) {
    forall i, j :: 0 <= i < j < |s| ==> s[i] != s[j]
  }

  /** `s` without the occurrences of `v`. */
  function Without(s: seq<int>, v: int): (r: seq<int>)
    ensures forall x :: x in r <==> x in s && x != v
    ensures |r| <= |s|
  {
    if |s| == 0 then []
    else if s[0] == v then Without(s[1..], v)
    else [s[0]] + Without(s[1..], v)
  }

  lemma {:induction false} WithoutNoDup(s: seq<int>, v: int)
    requires NoDup(s)
    ensures NoDup(Without(s, v))
  {
    if |s| > 0 {
      WithoutNoDup(s[1..], v);
      assert s[0] !in s[1..];
    }
  }

  lemma {:induction false} WithoutLast(s: seq<int>, v: int)
    requires v !in s
    ensures Without(s + [v], v) == s
  {
    if |s| > 0 {
      assert (s + [v])[1..] == s[1..] + [v];
      WithoutLast(s[1..], v);
      assert s == [s[0]] + s[1..];
    } else {
      assert [v][1..] == [];
    }
  }

  /** `dateClick`'s update: a checked index is removed, an unchecked one appended. */
  function Toggle(checked: seq<int>, index: int): (r: seq<int>)
    ensures index in checked ==> r == Without(checked, index)
    ensures index !in checked ==> r == checked + [index]
  {
    if index in checked then Without(checked, index) else checked + [index]
  }

  /** A toggle flips the index's membership and leaves every other index's alone, keeping the list free of duplicates. */
  lemma ToggleFlips(checked: seq<int>, index: int)
    requires NoDup(checked)
    ensures index in Toggle(checked, index) <==> index !in checked
    ensures forall x :: x != index ==> (x in Toggle(checked, index) <==> x in checked)
    ensures NoDup(Toggle(checked, index))
  {
    if index in checked {
      WithoutNoDup(checked, index);
    }
  }

  /** Toggling an unchecked index twice gives the list back. */
  lemma ToggleTwice(checked: seq<int>, index: int)
    requires index !in checked
    ensures Toggle(Toggle(checked, index), index) == checked
  {
    WithoutLast(checked, index);
  }

  class MakeCalendar {
    /** The checked cell indices, in the order they were checked. */
    var checkedDates: seq<int>
    /** The hovered cell, `undefined` as `None`. */
    var showButton: Option<int>

    constructor()
      ensures checkedDates == [] && showButton == None
    {
      checkedDates := [];
      showButton := None;
    }

    method DateClick(index: int)
      modifies this
      ensures checkedDates == Toggle(old(checkedDates), index)
      ensures showButton == old(showButton)
    {
      checkedDates := Toggle(checkedDates, index);
    }

    method HandleMouseEnter(index: int)
      modifies this
      ensures showButton == Some(index) && checkedDates == old(checkedDates)
    {
      showButton := Some(index);
    }

    method HandleMouseLeave()
      modifies this
      ensures showButton == None && checkedDates == old(checkedDates)
    {
      showButton := None;
    }

    /** Cell `i` shows its plus icon. */
    predicate ShowsPlus(i: int)
      reads this
    {
      showButton == Some(i)
    }

    /** Cell `i` is checked (`hasPost`). */
    predicate HasPost(i: int)
      reads this
    {
      i in checkedDates
    }
  }

  /** After hovering cell `i`, only cell `i` shows its plus icon; after leaving, none does. */
  method HoverShowsOnePlus(i: int, j: int) returns (during: bool, other: bool, after: bool)
    ensures during && (other <==> j == i) && !after
  {
    var c := new MakeCalendar();
    c.HandleMouseEnter(i);
    during := c.ShowsPlus(i);
    other := c.ShowsPlus(j);
    c.HandleMouseLeave();
    after := c.ShowsPlus(i);
  }

  /**
   * `createMonth`: every day from `startDate` to `endDate` inclusive, in
   * increasing order; empty when the end is before the start.
   */
  method CreateMonth(startDate: int, endDate: int) returns (monthArray: seq<int>)
    ensures |monthArray| == if endDate >= startDate then endDate - startDate + 1 else 0
    ensures forall k :: 0 <= k < |monthArray| ==> monthArray[k] == startDate + k
  {
    monthArray := [];
    var day := startDate;
    while endDate - day >= 0
      invariant day == startDate + |monthArray|
      invariant day <= startDate || day <= endDate + 1
      invariant forall k :: 0 <= k < |monthArray| ==> monthArray[k] == startDate + k
      decreases endDate - day + 1
    {
      monthArray := monthArray + [day];
      day := day + 1;
    }
  }
}

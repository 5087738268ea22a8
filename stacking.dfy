/**
 * The process-wide list of open popups, seen as values: for each popup, in
 * the order the popups were shown, its Top, Left, Height and anchor. The
 * operations that move popups are stated here on such lists; the classes in
 * PopupNotify and PopupNotifyOld are proved to act on their list exactly so.
 */
module Stacking {
  import opened Drawing
  import opened Tray

  /** One open popup as the stack sees it. */
  datatype Placed = Placed(top: int, left: int, height: int, loc: SystemTrayLocation)

  /** Every Top moved by delta; nothing else changes. */
  function Shift(ps: seq<Placed>, delta: int): (r: seq<Placed>)
    ensures |r| == |ps|
    ensures forall i :: 0 <= i < |ps| ==>
      r[i].top == ps[i].top + delta && r[i].left == ps[i].left && r[i].height == ps[i].height && r[i].loc == ps[i].loc
  {
    seq(|ps|, i requires 0 <= i < |ps| => ps[i].(top := ps[i].top + delta))
  }

  /** Two moves add up. */
  lemma ShiftShift(ps: seq<Placed>, a: int, b: int)
    ensures Shift(Shift(ps, a), b) == Shift(ps, a + b)
  {
  }

  /** List.IndexOf: the first position holding x, or -1 when there is none. */
  function IndexOf<T(==)>(s: seq<T>, x: T): (k: int)
    ensures -1 <= k < |s|
    ensures k == -1 <==> x !in s
    ensures 0 <= k ==> s[k] == x && x !in s[..k]
  {
    if s == [] then -1
    else if s[0] == x then 0
    else
      var k := IndexOf(s[1..], x);
      if k == -1 then -1 else k + 1
  }

  /** List.RemoveAt: the list without its k-th element. */
  function RemoveAt<T>(s: seq<T>, k: nat): (r: seq<T>)
    requires k < |s|
    ensures |r| == |s| - 1
    ensures forall i :: 0 <= i < k ==> r[i] == s[i]
    ensures forall i :: k <= i < |r| ==> r[i] == s[i + 1]
  {
    s[..k] + s[k + 1..]
  }

  /**
   * The list after RemoveAt(IndexOf(x)): without the first occurrence of x,
   * and unchanged when x is absent (RemoveAt(-1) throws before removing).
   */
  function RemoveFirst<T(==)>(s: seq<T>, x: T): seq<T>
  {
    if x in s then RemoveAt(s, IndexOf(s, x)) else s
  }

  /**
   * Removing the first occurrence of x from a list in which nothing repeats
   * leaves a list in which nothing repeats and x no longer occurs.
   */
  lemma RemoveFirstKeepsDistinct<T>(s: seq<T>, x: T)
    requires forall i, j :: 0 <= i < j < |s| ==> s[i] != s[j]
    requires x in s
    ensures var r := RemoveFirst(s, x);
      x !in r && forall i, j :: 0 <= i < j < |r| ==> r[i] != r[j]
  {
    var k := IndexOf(s, x);
    var r := RemoveAt(s, k);
    assert forall i :: 0 <= i < |r| ==> r[i] == s[if i < k then i else i + 1];
  }

  /** A move of amount pixels away from the anchored screen edge. */
  function PushDelta(loc: SystemTrayLocation, amount: int): (d: int)
    ensures IsBottom(loc) ==> d == -amount
    ensures loc == TopRight ==> d == amount
  {
    if IsBottom(loc) then -amount else amount
  }

  /**
   * The move Collapse gives each earlier popup, as written: the anchor test
   * names BottomLeft twice, so only a BottomLeft popup pulls them back down.
   */
  function CollapseDelta(loc: SystemTrayLocation, height: int): (d: int)
    ensures loc == BottomLeft ==> d == height
    ensures loc != BottomLeft ==> d == -height
  {
    if loc == BottomLeft || loc == BottomLeft then height else -height
  }

  /**
   * Collapse as written, for the k-th popup closing: the anchor test names
   * BottomLeft twice, so only a BottomLeft popup pulls the earlier ones back
   * down; on the other anchors they move up by its height. Both versions of
   * the popup pull by the closing popup's Height alone.
   */
  function CollapseSpec(ps: seq<Placed>, k: nat): (r: seq<Placed>)
    requires k < |ps|
    ensures ps[k].loc != BottomRight ==> r == Shift(ps[..k], -PushDelta(ps[k].loc, ps[k].height)) + ps[k + 1..]
    ensures ps[k].loc == BottomRight ==> r == Shift(ps[..k], PushDelta(ps[k].loc, ps[k].height)) + ps[k + 1..]
  {
    Shift(ps[..k], CollapseDelta(ps[k].loc, ps[k].height)) + ps[k + 1..]
  }

  /**
   * Collapse's effect, seen as placements: moving every entry before the
   * k-th by the k-th entry's CollapseDelta, leaving the others where they
   * are, then removing the k-th entry gives CollapseSpec.
   */
  lemma CollapseMatchesSpec(before: seq<Placed>, moved: seq<Placed>, k: nat)
    requires k < |before| && |moved| == |before|
    requires forall j :: 0 <= j < |before| ==>
      moved[j] == before[j].(top := before[j].top + (if j < k then CollapseDelta(before[k].loc, before[k].height) else 0))
    ensures RemoveAt(moved, k) == CollapseSpec(before, k)
  {
    var delta := CollapseDelta(before[k].loc, before[k].height);
    var after, expected := RemoveAt(moved, k), Shift(before[..k], delta) + before[k + 1..];
    forall j | 0 <= j < |after|
      ensures after[j] == expected[j]
    {
      if j < k {
        assert expected[j] == Shift(before[..k], delta)[j];
      } else {
        assert after[j] == moved[j + 1] && expected[j] == before[j + 1];
      }
    }
  }

  /** The vertical room the given popups take up, each followed by spacing pixels. */
  function StackHeight(ps: seq<Placed>, spacing: int): int
  {
    if ps == [] then 0 else ps[0].height + spacing + StackHeight(ps[1..], spacing)
  }

  /** The room taken by two runs of popups is the sum of the two. */
  lemma {:induction false} StackHeightConcat(a: seq<Placed>, b: seq<Placed>, spacing: int)
    ensures StackHeight(a + b, spacing) == StackHeight(a, spacing) + StackHeight(b, spacing)
  {
    if a != [] {
      assert (a + b)[1..] == a[1..] + b;
      StackHeightConcat(a[1..], b, spacing);
    } else {
      assert a + b == b;
    }
  }

  /** Moving popups vertically does not change the room they take up. */
  lemma {:induction false} StackHeightShift(ps: seq<Placed>, delta: int, spacing: int)
    ensures StackHeight(Shift(ps, delta), spacing) == StackHeight(ps, spacing)
  {
    if ps != [] {
      assert Shift(ps, delta)[1..] == Shift(ps[1..], delta);
      StackHeightShift(ps[1..], delta, spacing);
    }
  }

  /** The Top of a popup of the given height with `above` pixels of later popups between it and its corner. */
  function StackedTop(workArea: Rectangle, loc: SystemTrayLocation, height: int, above: int): (top: int)
    ensures top == HomeTop(workArea, loc, height) + PushDelta(loc, above)
  {
    if loc == TopRight then workArea.Top() + above else workArea.Bottom() - height - above
  }

  /**
   * The layout the stacking is meant to produce: every popup shares the
   * anchor, and each one sits in the anchor's corner pushed away from it by
   * exactly the popups shown after it, each followed by spacing pixels.
   */
  ghost predicate Stacked(ps: seq<Placed>, workArea: Rectangle, loc: SystemTrayLocation, spacing: int)
  {
    forall i :: 0 <= i < |ps| ==>
      ps[i].loc == loc && ps[i].top == StackedTop(workArea, loc, ps[i].height, StackHeight(ps[i + 1..], spacing))
  }

  /** One open popup after a newcomer is shown: it is pushed away by the room the newcomer takes. */
  lemma PushedEntryStacked(
    ps: seq<Placed>, workArea: Rectangle, loc: SystemTrayLocation, spacing: int, newcomer: Placed, i: nat)
    requires i < |ps|
    requires ps[i].top == StackedTop(workArea, loc, ps[i].height, StackHeight(ps[i + 1..], spacing))
    ensures var r := Shift(ps, PushDelta(loc, newcomer.height + spacing)) + [newcomer];
      r[i].top == StackedTop(workArea, loc, r[i].height, StackHeight(r[i + 1..], spacing))
  {
    var d := PushDelta(loc, newcomer.height + spacing);
    var r := Shift(ps, d) + [newcomer];
    assert r[i] == ps[i].(top := ps[i].top + d);
    assert r[i + 1..] == Shift(ps[i + 1..], d) + [newcomer];
    StackHeightConcat(Shift(ps[i + 1..], d), [newcomer], spacing);
    StackHeightShift(ps[i + 1..], d, spacing);
    assert StackHeight([newcomer], spacing) == newcomer.height + spacing;
  }

  /**
   * Showing a popup in its corner after pushing every open popup away by its
   * height plus spacing keeps the layout stacked.
   */
  lemma {:induction false} PushThenAppendKeepsStacked(
    ps: seq<Placed>, workArea: Rectangle, loc: SystemTrayLocation, spacing: int, newcomer: Placed, r: seq<Placed>)
    requires Stacked(ps, workArea, loc, spacing)
    requires newcomer.loc == loc && newcomer.top == HomeTop(workArea, loc, newcomer.height)
    requires r == Shift(ps, PushDelta(loc, newcomer.height + spacing)) + [newcomer]
    ensures Stacked(r, workArea, loc, spacing)
  {
    forall i | 0 <= i < |r|
      ensures r[i].loc == loc && r[i].top == StackedTop(workArea, loc, r[i].height, StackHeight(r[i + 1..], spacing))
    {
      if i < |ps| {
        PushedEntryStacked(ps, workArea, loc, spacing, newcomer, i);
      } else {
        assert r[i + 1..] == [];
      }
    }
  }

  /**
   * The room above the i-th popup, once the k-th (a later one) is gone and
   * those in between have moved, is that popup's height plus spacing less.
   */
  lemma StackHeightWithout(ps: seq<Placed>, i: nat, k: nat, delta: int, spacing: int)
    requires i < k < |ps|
    ensures StackHeight(Shift(ps[i + 1..k], delta) + ps[k + 1..], spacing) + ps[k].height + spacing
         == StackHeight(ps[i + 1..], spacing)
  {
    StackHeightConcat(Shift(ps[i + 1..k], delta), ps[k + 1..], spacing);
    StackHeightShift(ps[i + 1..k], delta, spacing);
    assert ps[i + 1..] == ps[i + 1..k] + ([ps[k]] + ps[k + 1..]);
    StackHeightConcat(ps[i + 1..k], [ps[k]] + ps[k + 1..], spacing);
    assert ([ps[k]] + ps[k + 1..])[1..] == ps[k + 1..];
  }

  /** One earlier popup after the k-th is closed: it is pulled back by the room the k-th took. */
  lemma PulledEntryStacked(
    ps: seq<Placed>, workArea: Rectangle, loc: SystemTrayLocation, spacing: int, k: nat, i: nat)
    requires i < k < |ps|
    requires ps[i].top == StackedTop(workArea, loc, ps[i].height, StackHeight(ps[i + 1..], spacing))
    ensures var r := Shift(ps[..k], -PushDelta(loc, ps[k].height + spacing)) + ps[k + 1..];
      r[i].top == StackedTop(workArea, loc, r[i].height, StackHeight(r[i + 1..], spacing))
  {
    var d := -PushDelta(loc, ps[k].height + spacing);
    var r := Shift(ps[..k], d) + ps[k + 1..];
    assert r[i] == ps[i].(top := ps[i].top + d);
    assert r[i + 1..] == Shift(ps[i + 1..k], d) + ps[k + 1..];
    StackHeightWithout(ps, i, k, d, spacing);
  }

  /**
   * Closing the k-th popup and pulling every earlier popup back towards the
   * corner by its height plus spacing keeps the layout stacked.
   */
  lemma {:induction false} PullThenRemoveKeepsStacked(
    ps: seq<Placed>, workArea: Rectangle, loc: SystemTrayLocation, spacing: int, k: nat, r: seq<Placed>)
    requires Stacked(ps, workArea, loc, spacing)
    requires k < |ps|
    requires r == Shift(ps[..k], -PushDelta(loc, ps[k].height + spacing)) + ps[k + 1..]
    ensures Stacked(r, workArea, loc, spacing)
  {
    forall i | 0 <= i < |r|
      ensures r[i].loc == loc && r[i].top == StackedTop(workArea, loc, r[i].height, StackHeight(r[i + 1..], spacing))
    {
      if i < k {
        PulledEntryStacked(ps, workArea, loc, spacing, k, i);
      } else {
        assert r[i] == ps[i + 1];
        assert r[i + 1..] == ps[i + 2..];
      }
    }
  }
}

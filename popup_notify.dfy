/**
 * PopupNotify, the .NET 2.0 toast popup: its layout, its placement in the
 * tray corner, the shifting of the other open popups when it appears
 * (leaving one pixel between neighbours) and when it closes, its slide
 * animations and its display timer.
 *
 * The process-wide list of open popups is an OpenPopups object handed to
 * each operation. The methods follow the code as written, including the
 * anchor test in Collapse that names BottomLeft twice and the pull-back by
 * Height where MakeRoom pushed by Height + 1; CollapseIntended is the
 * pull-back the stacking needs.
 */
module PopupNotify {
  import opened Drawing
  import opened Tray
  import opened Stacking

  /** The gap MakeRoom leaves between neighbouring popups. */
  const SpaceBetweenPopups := 1

  /** Designer sizes: the form's client area and the close button. */
  const DefaultWidth := 304
  const DefaultHeight := 66
  const CloseButtonWidth := 16

  /** What SetLayout assigns: the form's height and its child controls' bounds. */
  datatype Layout = Layout(icon: Rectangle, formHeight: int, closeButton: Point, title: Point, message: Rectangle)

  /**
   * SetLayout with padding 8 and a 1-pixel border: the icon sits 9 pixels in
   * from the top-left corner and the form is just tall enough to leave 9
   * pixels under it; the close button is drawn 3 pixels into that margin at
   * the top right; the title starts right of the icon, 5 pixels above it;
   * the message starts one pixel right of the title, directly under it, and
   * fills the form down to the 9-pixel margin at the right and the bottom.
   * The title's height comes from the font (the label sizes itself).
   */
  function ComputeLayout(formWidth: int, iconWidth: int, iconHeight: int, titleHeight: int): (l: Layout)
    ensures l.icon == Rectangle(9, 9, iconWidth, iconHeight)
    ensures l.icon.Bottom() + 9 == l.formHeight
    ensures l.closeButton == Point(formWidth - 9 - CloseButtonWidth + 3, 9 - 3)
    ensures l.title == Point(l.icon.Right(), l.icon.Top() - 5)
    ensures l.message.Left() == l.title.X + 1 && l.message.Top() == l.title.Y + titleHeight
    ensures l.message.Right() == formWidth - 9 && l.message.Bottom() == l.formHeight - 9
  {
    var padding, iconRightPadding, border := 8, 0, 1;
    var icon := Rectangle(padding + border, padding + border, iconWidth, iconHeight);
    var height := icon.Height + 2 * padding + 2 * border;
    var close := Point(formWidth - padding - border - CloseButtonWidth + 3, padding + border - 3);
    var title := Point(icon.Right() + iconRightPadding, icon.Top() - 5);
    var messageLeft := title.X + 1;
    var messageWidth := formWidth - messageLeft - padding - border;
    var messageTop := title.Y + titleHeight;
    var messageHeight := height - messageTop - padding - border;
    Layout(icon, height, close, title, Rectangle(messageLeft, messageTop, messageWidth, messageHeight))
  }

  /**
   * MakeRoom on the list of open popups: each is pushed away from the
   * anchored edge by the new popup's height plus the one-pixel gap.
   */
  function MakeRoomSpec(ps: seq<Placed>, height: int, loc: SystemTrayLocation): (r: seq<Placed>)
    ensures r == Shift(ps, PushDelta(loc, height + SpaceBetweenPopups))
  {
    var delta := if loc == BottomLeft || loc == BottomRight then -(height + SpaceBetweenPopups)
                 else height + SpaceBetweenPopups;
    Shift(ps, delta)
  }

  /** The Collapse the stacking needs: pull the earlier popups back by exactly MakeRoom's push. */
  function CollapseIntended(ps: seq<Placed>, k: nat): (r: seq<Placed>)
    requires k < |ps|
    ensures |r| == |ps| - 1 && r[k..] == ps[k + 1..]
  {
    var closing := ps[k];
    var delta := if closing.loc == BottomLeft || closing.loc == BottomRight then closing.height + SpaceBetweenPopups
                 else -(closing.height + SpaceBetweenPopups);
    Shift(ps[..k], delta) + ps[k + 1..]
  }

  /** The intended Collapse pulls every earlier popup back towards the corner by the closing popup's push. */
  lemma CollapseIntendedPulls(ps: seq<Placed>, k: nat)
    requires k < |ps|
    ensures CollapseIntended(ps, k) == Shift(ps[..k], -PushDelta(ps[k].loc, ps[k].height + SpaceBetweenPopups)) + ps[k + 1..]
  {
  }

  /**
   * Showing a popup keeps a stacked layout stacked: every popup stays in its
   * corner, pushed away by the popups shown after it and a one-pixel gap each.
   */
  lemma ShowKeepsStacked(ps: seq<Placed>, workArea: Rectangle, loc: SystemTrayLocation, shown: Placed)
    requires Stacked(ps, workArea, loc, SpaceBetweenPopups)
    requires shown.loc == loc && shown.top == HomeTop(workArea, loc, shown.height)
    ensures Stacked(MakeRoomSpec(ps, shown.height, loc) + [shown], workArea, loc, SpaceBetweenPopups)
  {
    PushThenAppendKeepsStacked(ps, workArea, loc, SpaceBetweenPopups, shown, MakeRoomSpec(ps, shown.height, loc) + [shown]);
  }

  /** Closing any popup by the intended rule keeps a stacked layout stacked, on every anchor. */
  lemma CollapseIntendedKeepsStacked(ps: seq<Placed>, workArea: Rectangle, loc: SystemTrayLocation, k: nat)
    requires Stacked(ps, workArea, loc, SpaceBetweenPopups)
    requires k < |ps|
    ensures Stacked(CollapseIntended(ps, k), workArea, loc, SpaceBetweenPopups)
  {
    assert ps[k].loc == loc;
    CollapseIntendedPulls(ps, k);
    PullThenRemoveKeepsStacked(ps, workArea, loc, SpaceBetweenPopups, k, CollapseIntended(ps, k));
  }

  /**
   * Showing a popup and closing it again, as the code is written, does not
   * put the earlier popups back: on a BottomLeft anchor they end one pixel
   * higher, on TopRight one pixel lower, and on BottomRight twice the
   * popup's height plus one pixel higher.
   */
  lemma ShowThenCloseDrift(ps: seq<Placed>, shown: Placed)
    ensures var after := CollapseSpec(MakeRoomSpec(ps, shown.height, shown.loc) + [shown], |ps|);
      && (shown.loc == BottomLeft ==> after == Shift(ps, -1))
      && (shown.loc == TopRight ==> after == Shift(ps, 1))
      && (shown.loc == BottomRight ==> after == Shift(ps, -(2 * shown.height + 1)))
  {
    var pushed := MakeRoomSpec(ps, shown.height, shown.loc);
    var grown := pushed + [shown];
    assert grown[..|ps|] == pushed;
    assert grown[|ps| + 1..] == [];
    assert grown[|ps|] == shown;
    ShiftShift(ps, PushDelta(shown.loc, shown.height + 1), -PushDelta(shown.loc, shown.height));
    ShiftShift(ps, PushDelta(shown.loc, shown.height + 1), PushDelta(shown.loc, shown.height));
  }

  /**
   * With the intended rule, showing a popup and closing it again puts every
   * earlier popup back where it was, on every anchor.
   */
  lemma ShowThenCloseIntendedRestores(ps: seq<Placed>, shown: Placed)
    ensures CollapseIntended(MakeRoomSpec(ps, shown.height, shown.loc) + [shown], |ps|) == ps
  {
    var pushed := MakeRoomSpec(ps, shown.height, shown.loc);
    var grown := pushed + [shown];
    assert grown[..|ps|] == pushed;
    assert grown[|ps| + 1..] == [];
    ShiftShift(ps, PushDelta(shown.loc, shown.height + 1), -PushDelta(shown.loc, shown.height + 1));
    assert Shift(ps, 0) == ps;
  }

  /**
   * Three popups of height 80 shown one after another at the bottom right
   * of a work area ending at 1000 sit 0, 81 and 162 pixels above their home;
   * closing the middle one moves the first one a further 80 pixels up, where
   * 81 pixels down was meant.
   */
  lemma ThreePopupsBottomRight()
    ensures var wa := Rectangle(0, 0, 1000, 1000);
      var p1 := Placed(1000 - 80, 1000 - 300, 80, BottomRight);
      var s1 := [p1];
      var s2 := MakeRoomSpec(s1, 80, BottomRight) + [p1];
      var s3 := MakeRoomSpec(s2, 80, BottomRight) + [p1];
      && s3 == [p1.(top := 1000 - 80 - 162), p1.(top := 1000 - 80 - 81), p1]
      && CollapseSpec(s3, 1) == [p1.(top := 1000 - 80 - 162 - 80), p1]
      && CollapseIntended(s3, 1) == [p1.(top := 1000 - 80 - 81), p1]
  {
  }

  /** A popup on screen. */
  class Popup {
    var Top: int
    var Left: int
    var Width: int
    var Height: int
    var IconWidth: int
    var IconHeight: int
    /** Whether IconImage has been given an image. */
    var hasIconImage: bool
    var iconVisible: bool
    var WaitOnMouseOver: bool
    /** How long the popup stays up, in milliseconds. */
    var WaitTime: int
    /** How long the slide animations take, in milliseconds. */
    var AnimateTime: int
    var sysLoc: SystemTrayLocation
    var layout: Layout
    var timerInterval: int
    var timerEnabled: bool
    /** The flag words handed to the native AnimateWindow, oldest first. */
    var animations: seq<bv32>
    var closed: bool

    /** The constructor's defaults: hover-pause on, 4 seconds on screen, 250 ms slides, a 48x48 icon. */
    constructor ()
      ensures Width == DefaultWidth && Height == DefaultHeight
      ensures IconWidth == 48 && IconHeight == 48
      ensures WaitOnMouseOver && WaitTime == 4000 && AnimateTime == 250
      ensures !hasIconImage && iconVisible
      ensures !timerEnabled && animations == [] && !closed
    {
      hasIconImage, iconVisible := false, true;
      Width, Height := DefaultWidth, DefaultHeight;
      IconWidth, IconHeight := 48, 48;
      WaitOnMouseOver, WaitTime, AnimateTime := true, 4000, 250;
      timerInterval, timerEnabled := 100, false;
      animations, closed := [], false;
    }

    function Bounds(): Rectangle
      reads this
    {
      Rectangle(Left, Top, Width, Height)
    }

    function AsPlaced(): Placed
      reads this`Top, this`Left, this`Height, this`sysLoc
    {
      Placed(Top, Left, Height, sysLoc)
    }

    /** SetLayout: lays out the child controls and sets the form's height from the icon's. */
    method SetLayout(titleHeight: int)
      modifies this`layout, this`Height
      ensures layout == ComputeLayout(Width, IconWidth, IconHeight, titleHeight)
      ensures Height == IconHeight + 18
    {
      layout := ComputeLayout(Width, IconWidth, IconHeight, titleHeight);
      Height := layout.formHeight;
    }

    /** AnimateWindow(positive, hide): one call of the native animation with the flag word built for it. */
    method AnimateWindow(positive: bool, hiding: bool)
      modifies this`animations
      ensures animations == old(animations) + [AnimateFlags(positive, hiding)]
    {
      animations := animations + [AnimateFlags(positive, hiding)];
    }

    /**
     * MakeRoom: pushes every open popup away from the corner to free it for
     * this one, by this popup's height and the gap; only their Top changes,
     * and the list itself does not.
     */
    method MakeRoom(open: OpenPopups)
      requires open.Valid()
      modifies open.popups`Top
      ensures forall k :: 0 <= k < |open.popups| ==>
        open.popups[k].Top == old(open.popups[k].Top) + PushDelta(sysLoc, Height + SpaceBetweenPopups)
    {
      var ps := open.popups;
      var i := 0;
      while i < |ps|
        invariant 0 <= i <= |ps|
        invariant forall k :: 0 <= k < i ==> ps[k].Top == old(ps[k].Top) + PushDelta(sysLoc, Height + SpaceBetweenPopups)
        invariant forall k :: i <= k < |ps| ==> ps[k].Top == old(ps[k].Top)
      {
        var popup := ps[i];
        if sysLoc == BottomLeft || sysLoc == BottomRight {
          popup.Top := popup.Top - (Height + SpaceBetweenPopups);
        } else {
          popup.Top := popup.Top + (Height + SpaceBetweenPopups);
        }
        i := i + 1;
      }
    }

    /** The corner placement of Notify: flush with both edges of the tray's corner. */
    method PlaceInCorner(workArea: Rectangle)
      modifies this`Top, this`Left
      ensures Top == HomeTop(workArea, sysLoc, Height) && Left == HomeLeft(workArea, sysLoc, Width)
    {
      if sysLoc == BottomRight {
        Top := workArea.Bottom() - Height;
        Left := workArea.Right() - Width;
      } else if sysLoc == TopRight {
        Top := workArea.Top();
        Left := workArea.Right() - Width;
      } else if sysLoc == BottomLeft {
        Top := workArea.Bottom() - Height;
        Left := workArea.Left();
      }
    }

    /**
     * The first half of Notify, which touches only this popup: hides the
     * icon box when there is no image, lays the popup out, finds the tray
     * and places the popup flush in that corner.
     */
    method Prepare(query: TaskbarQuery, workArea: Rectangle, titleHeight: int)
      modifies this`iconVisible, this`layout, this`Height, this`sysLoc, this`Top, this`Left
      ensures iconVisible == (old(iconVisible) && hasIconImage)
      ensures layout == ComputeLayout(Width, IconWidth, IconHeight, titleHeight) && Height == IconHeight + 18
      ensures sysLoc == FindSystemTray(query, workArea)
      ensures Top == HomeTop(workArea, sysLoc, Height) && Left == HomeLeft(workArea, sysLoc, Width)
    {
      if !hasIconImage {
        iconVisible := false;
      }
      SetLayout(titleHeight);
      sysLoc := FindSystemTray(query, workArea);
      PlaceInCorner(workArea);
    }

    /**
     * Notify, run when the form loads: prepares and places the popup, makes
     * room among the open popups (before joining them, so it does not move
     * itself), slides it in, then joins the list and starts the display
     * timer with WaitTime.
     */
    method Notify(open: OpenPopups, query: TaskbarQuery, workArea: Rectangle, titleHeight: int)
      requires open.Valid() && this !in open.popups
      modifies this`iconVisible, this`layout, this`Height, this`sysLoc, this`Top, this`Left, this`animations
      modifies this`timerInterval, this`timerEnabled, open`popups, open.popups`Top
      ensures open.Valid()
      ensures iconVisible == (old(iconVisible) && hasIconImage)
      ensures layout == ComputeLayout(Width, IconWidth, IconHeight, titleHeight) && Height == IconHeight + 18
      ensures sysLoc == FindSystemTray(query, workArea)
      ensures Top == HomeTop(workArea, sysLoc, Height) && Left == HomeLeft(workArea, sysLoc, Width)
      ensures animations == old(animations) + [AnimateFlags(ShowPositive(sysLoc), false)]
      ensures open.popups == old(open.popups) + [this]
      ensures forall k :: 0 <= k < |old(open.popups)| ==>
        old(open.popups)[k].Top == old(open.popups[k].Top) + PushDelta(sysLoc, Height + SpaceBetweenPopups)
      ensures timerEnabled && timerInterval == WaitTime
    {
      Prepare(query, workArea, titleHeight);
      MakeRoom(open);
      if sysLoc == BottomRight || sysLoc == BottomLeft {
        AnimateWindow(false, false);
      } else {
        AnimateWindow(true, false);
      }
      open.popups := open.popups + [this];
      timerInterval, timerEnabled := WaitTime, true;
    }

    /**
     * Collapse, run from the Closing handler: moves the popups shown before
     * this one by CollapseDelta, leaves the later ones where they are, and
     * removes this one from the list. When this popup is not in the list,
     * IndexOf gives -1, nothing moves and RemoveAt(-1) throws: found is false
     * and the list is unchanged.
     */
    method Collapse(open: OpenPopups) returns (found: bool)
      requires open.Valid()
      modifies open`popups, open.popups`Top
      ensures open.Valid() && this !in open.popups
      ensures found <==> this in old(open.popups)
      ensures forall j :: 0 <= j < |old(open.popups)| ==>
        old(open.popups)[j].Top == old(open.popups[j].Top)
          + (if j < IndexOf(old(open.popups), this) then CollapseDelta(sysLoc, Height) else 0)
      ensures open.popups == RemoveFirst(old(open.popups), this)
    {
      var ps := open.popups;
      var thisIndex := IndexOf(ps, this);
      PullBack(ps, thisIndex);
      if thisIndex < 0 {
        found := false;
        return;
      }
      RemoveFirstKeepsDistinct(ps, this);
      open.popups := RemoveAt(ps, thisIndex);
      found := true;
    }

    /** The loop of Collapse: moves the popups before position n by CollapseDelta, the nearest one first. */
    method PullBack(ps: seq<Popup>, n: int)
      requires -1 <= n <= |ps|
      requires forall i, j :: 0 <= i < j < |ps| ==> ps[i] != ps[j]
      modifies ps`Top
      ensures forall k :: 0 <= k < |ps| ==>
        ps[k].Top == old(ps[k].Top) + (if k < n then CollapseDelta(sysLoc, Height) else 0)
    {
      var i := n - 1;
      while i >= 0
        invariant -2 <= i < n
        invariant n >= 0 ==> i >= -1
        invariant forall k :: 0 <= k < |ps| ==>
          ps[k].Top == old(ps[k].Top) + (if i < k < n then CollapseDelta(sysLoc, Height) else 0)
      {
        var popup := ps[i];
        if sysLoc == BottomLeft || sysLoc == BottomLeft {
          popup.Top := popup.Top + Height;
        } else {
          popup.Top := popup.Top - Height;
        }
        i := i - 1;
      }
    }

    /**
     * Form.Close: raises Closing, whose handler runs Collapse; when that
     * throws, the form stays open.
     */
    method Close(open: OpenPopups)
      requires open.Valid()
      modifies this`closed, open`popups, open.popups`Top
      ensures open.Valid() && this !in open.popups
      ensures closed <==> old(closed) || this in old(open.popups)
      ensures forall j :: 0 <= j < |old(open.popups)| ==>
        old(open.popups)[j].Top == old(open.popups[j].Top)
          + (if j < IndexOf(old(open.popups), this) then CollapseDelta(sysLoc, Height) else 0)
      ensures open.popups == RemoveFirst(old(open.popups), this)
    {
      var found := Collapse(open);
      if found {
        closed := true;
      }
    }

    /** UnNotify: slides the popup out, the reverse of the way it came in, and closes it. */
    method UnNotify(open: OpenPopups)
      requires open.Valid()
      modifies this`animations, this`closed, open`popups, open.popups`Top
      ensures open.Valid() && this !in open.popups
      ensures animations == old(animations) + [AnimateFlags(HidePositive(sysLoc), true)]
      ensures closed <==> old(closed) || this in old(open.popups)
      ensures forall j :: 0 <= j < |old(open.popups)| ==>
        old(open.popups)[j].Top == old(open.popups[j].Top)
          + (if j < IndexOf(old(open.popups), this) then CollapseDelta(sysLoc, Height) else 0)
      ensures open.popups == RemoveFirst(old(open.popups), this)
    {
      if sysLoc == BottomRight || sysLoc == BottomLeft {
        AnimateWindow(true, true);
      } else if sysLoc == TopRight {
        AnimateWindow(false, true);
      }
      Close(open);
    }

    /**
     * displayTimer_Tick: while the cursor rests on a popup that waits on
     * mouse-over, poll again every second and change nothing else; on any
     * other tick, stop the timer and hide the popup, which slides out and
     * leaves the list.
     */
    method DisplayTimerTick(open: OpenPopups, cursor: Point)
      requires open.Valid()
      modifies this`timerInterval, this`timerEnabled, this`animations, this`closed, open`popups, open.popups`Top
      ensures open.Valid()
      ensures old(WaitOnMouseOver && Bounds().Contains(cursor)) ==>
        && timerInterval == 1000 && timerEnabled == old(timerEnabled) && closed == old(closed)
        && animations == old(animations) && open.popups == old(open.popups)
        && forall j :: 0 <= j < |open.popups| ==> open.popups[j].Top == old(open.popups[j].Top)
      ensures !old(WaitOnMouseOver && Bounds().Contains(cursor)) ==>
        && !timerEnabled && timerInterval == old(timerInterval)
        && animations == old(animations) + [AnimateFlags(HidePositive(sysLoc), true)]
        && this !in open.popups
        && (closed <==> old(closed) || this in old(open.popups))
        && (forall j :: 0 <= j < |old(open.popups)| ==>
              old(open.popups)[j].Top == old(open.popups[j].Top)
                + (if j < IndexOf(old(open.popups), this) then CollapseDelta(sysLoc, Height) else 0))
        && open.popups == RemoveFirst(old(open.popups), this)
    {
      if WaitOnMouseOver && Bounds().Contains(cursor) {
        timerInterval := 1000;
      } else {
        timerEnabled := false;
        UnNotify(open);
      }
    }
  }

  /** Where each popup of a list is, in list order. */
  ghost function PlacementsOf(ps: seq<Popup>): (r: seq<Placed>)
    reads ps
    ensures |r| == |ps| && forall i :: 0 <= i < |ps| ==> r[i] == ps[i].AsPlaced()
  {
    seq(|ps|, i requires 0 <= i < |ps| reads ps => ps[i].AsPlaced())
  }

  /** Placements commute with RemoveAt. */
  lemma PlacementsOfRemoveAt(ps: seq<Popup>, k: nat)
    requires k < |ps|
    ensures PlacementsOf(RemoveAt(ps, k)) == RemoveAt(PlacementsOf(ps), k)
  {
  }

  /**
   * Notify seen from the open list: when the open popups are stacked in the
   * corner the tray is in, they are still stacked once the new popup has
   * been shown, with the new popup at the end of the list.
   */
  method ShowStacked(open: OpenPopups, p: Popup, query: TaskbarQuery, workArea: Rectangle, titleHeight: int)
    requires open.Valid() && p !in open.popups
    requires Stacked(open.Placements(), workArea, FindSystemTray(query, workArea), SpaceBetweenPopups)
    modifies p, open, open.popups
    ensures open.Valid() && open.popups == old(open.popups) + [p]
    ensures Stacked(open.Placements(), workArea, FindSystemTray(query, workArea), SpaceBetweenPopups)
  {
    ghost var shownBefore := open.popups;
    ghost var placedBefore := open.Placements();
    p.Notify(open, query, workArea, titleHeight);
    ghost var delta := PushDelta(p.sysLoc, p.Height + SpaceBetweenPopups);
    ghost var after := open.Placements();
    forall k | 0 <= k < |shownBefore|
      ensures after[k] == Shift(placedBefore, delta)[k]
    {
      assert after[k] == shownBefore[k].AsPlaced();
    }
    assert after == MakeRoomSpec(placedBefore, p.Height, p.sysLoc) + [p.AsPlaced()];
    ShowKeepsStacked(placedBefore, workArea, p.sysLoc, p.AsPlaced());
  }

  /**
   * Collapse seen from the open list: what is left of it, as placements, is
   * CollapseSpec of the list before, so ShowThenCloseDrift describes what
   * showing a popup and closing it again does to the popups already open.
   */
  method CollapsePlacements(open: OpenPopups, p: Popup)
    requires open.Valid() && p in open.popups
    modifies open`popups, open.popups`Top
    ensures open.Valid() && open.popups == RemoveFirst(old(open.popups), p)
    ensures open.Placements() == CollapseSpec(old(open.Placements()), IndexOf(old(open.popups), p))
  {
    ghost var shownBefore := open.popups;
    ghost var placedBefore := open.Placements();
    ghost var k := IndexOf(shownBefore, p);
    ghost var delta := CollapseDelta(placedBefore[k].loc, placedBefore[k].height);
    var found := p.Collapse(open);
    ghost var moved := PlacementsOf(shownBefore);
    forall j | 0 <= j < |shownBefore|
      ensures moved[j] == placedBefore[j].(top := placedBefore[j].top + (if j < k then delta else 0))
    {
      assert placedBefore[j] == old(shownBefore[j].AsPlaced());
    }
    PlacementsOfRemoveAt(shownBefore, k);
    CollapseMatchesSpec(placedBefore, moved, k);
  }

  /** The process-wide list of open popups, oldest first. */
  class OpenPopups {
    var popups: seq<Popup>

    constructor ()
      ensures popups == [] && Valid()
    {
      popups := [];
    }

    /** A popup is in the list at most once. */
    ghost predicate Valid()
      reads this
    {
      forall i, j :: 0 <= i < j < |popups| ==> popups[i] != popups[j]
    }

    /** Where each open popup is, oldest first. */
    ghost function Placements(): (r: seq<Placed>)
      reads this, popups
      ensures |r| == |popups|
    {
      PlacementsOf(popups)
    }
  }
}

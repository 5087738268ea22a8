/**
 * The .NET 1.1 PopupNotify: the same toast popup as the .NET 2.0 one, with
 * a taller fixed form, a different child layout, no gap between stacked
 * popups, an animation that locks the icon image (and so fails when there
 * is none) and a Closing handler that disposes the background brush.
 *
 * As in PopupNotify, the process-wide list of open popups is an OpenPopups
 * object handed to each operation, and the methods follow the code as
 * written. Here MakeRoom and Collapse move by the same Height, so only the
 * anchor test in Collapse that names BottomLeft twice breaks the stacking.
 */
module PopupNotifyOld {
  import opened Drawing
  import opened Tray
  import opened Stacking

  /** Designer sizes: the form's client area and the close button. */
  const DefaultWidth := 304
  const DefaultHeight := 112
  const CloseButtonWidth := 16
  /** SetLayout gives the title a fixed height. */
  const TitleHeight := 16

  /** What SetLayout assigns: the bounds of the form's child controls. */
  datatype Layout = Layout(icon: Rectangle, closeButton: Point, title: Rectangle, message: Rectangle)

  /**
   * SetLayout with padding 8 and a 4-pixel border: the icon sits 12 pixels
   * in from the top-left corner; the close button is 8 pixels in from the
   * right edge, 9 from the top; title and message form one column starting
   * 8 pixels right of the icon and ending 8 pixels left of the close button;
   * the title is 16 pixels tall at the close button's height, the message
   * starts 8 pixels under it and fills the form down to a 12-pixel margin.
   * The form's own size is left alone.
   */
  function ComputeLayout(formWidth: int, formHeight: int, iconWidth: int, iconHeight: int): (l: Layout)
    ensures l.icon == Rectangle(12, 12, iconWidth, iconHeight)
    ensures l.closeButton == Point(formWidth - CloseButtonWidth - 8, 9)
    ensures l.title.Top() == l.closeButton.Y && l.title.Height == TitleHeight
    ensures l.title.Left() == l.icon.Right() + 8 && l.title.Right() + 8 == l.closeButton.X
    ensures l.message.Left() == l.title.Left() && l.message.Width == l.title.Width
    ensures l.message.Top() == l.title.Bottom() + 8 && l.message.Bottom() + 12 == formHeight
  {
    var padding, padding2, border := 8, 8, 4;
    var close := Point(formWidth - padding - border - CloseButtonWidth + 4, padding + border - 3);
    var icon := Rectangle(padding + border, padding + border, iconWidth, iconHeight);
    var titleLeft := icon.Right() + padding2;
    var title := Rectangle(titleLeft, padding + border - 3, close.X - titleLeft - padding2, TitleHeight);
    var messageLeft := icon.Right() + padding2;
    var messageTop := title.Bottom() + padding2;
    var message := Rectangle(messageLeft, messageTop, close.X - messageLeft - padding2,
                             formHeight - messageTop - padding - border);
    Layout(icon, close, title, message)
  }

  /** MakeRoom on the list of open popups: each is pushed away from the anchored edge by the new popup's height. */
  function MakeRoomSpec(ps: seq<Placed>, height: int, loc: SystemTrayLocation): (r: seq<Placed>)
    ensures r == Shift(ps, PushDelta(loc, height))
  {
    var delta := if loc == BottomLeft || loc == BottomRight then -height else height;
    Shift(ps, delta)
  }

  /** The Collapse the stacking needs: pull the earlier popups back towards the anchored edge by the closing popup's height. */
  function CollapseIntended(ps: seq<Placed>, k: nat): (r: seq<Placed>)
    requires k < |ps|
    ensures |r| == |ps| - 1 && r[k..] == ps[k + 1..]
  {
    var closing := ps[k];
    var delta := if closing.loc == BottomLeft || closing.loc == BottomRight then closing.height else -closing.height;
    Shift(ps[..k], delta) + ps[k + 1..]
  }

  /** The intended Collapse pulls every earlier popup back towards the corner by the closing popup's push. */
  lemma CollapseIntendedPulls(ps: seq<Placed>, k: nat)
    requires k < |ps|
    ensures CollapseIntended(ps, k) == Shift(ps[..k], -PushDelta(ps[k].loc, ps[k].height + 0)) + ps[k + 1..]
  {
  }

  /** Showing a popup keeps a stacked layout stacked: popups touch, with no gap between them. */
  lemma ShowKeepsStacked(ps: seq<Placed>, workArea: Rectangle, loc: SystemTrayLocation, shown: Placed)
    requires Stacked(ps, workArea, loc, 0)
    requires shown.loc == loc && shown.top == HomeTop(workArea, loc, shown.height)
    ensures Stacked(MakeRoomSpec(ps, shown.height, loc) + [shown], workArea, loc, 0)
  {
    PushThenAppendKeepsStacked(ps, workArea, loc, 0, shown, MakeRoomSpec(ps, shown.height, loc) + [shown]);
  }

  /**
   * Collapse as written keeps a stacked layout stacked on the BottomLeft and
   * TopRight anchors, where its anchor test happens to choose the right
   * direction.
   */
  lemma CollapseKeepsStacked(ps: seq<Placed>, workArea: Rectangle, loc: SystemTrayLocation, k: nat)
    requires Stacked(ps, workArea, loc, 0)
    requires k < |ps| && loc != BottomRight
    ensures Stacked(CollapseSpec(ps, k), workArea, loc, 0)
  {
    assert ps[k].loc == loc;
    assert CollapseSpec(ps, k) == Shift(ps[..k], -PushDelta(loc, ps[k].height + 0)) + ps[k + 1..];
    PullThenRemoveKeepsStacked(ps, workArea, loc, 0, k, CollapseSpec(ps, k));
  }

  /** Closing any popup by the intended rule keeps a stacked layout stacked, on every anchor. */
  lemma CollapseIntendedKeepsStacked(ps: seq<Placed>, workArea: Rectangle, loc: SystemTrayLocation, k: nat)
    requires Stacked(ps, workArea, loc, 0)
    requires k < |ps|
    ensures Stacked(CollapseIntended(ps, k), workArea, loc, 0)
  {
    assert ps[k].loc == loc;
    CollapseIntendedPulls(ps, k);
    PullThenRemoveKeepsStacked(ps, workArea, loc, 0, k, CollapseIntended(ps, k));
  }

  /**
   * Showing a popup and closing it again, as the code is written, puts the
   * earlier popups back exactly on the BottomLeft and TopRight anchors, and
   * leaves them twice the popup's height higher on BottomRight.
   */
  lemma ShowThenCloseDrift(ps: seq<Placed>, shown: Placed)
    ensures var after := CollapseSpec(MakeRoomSpec(ps, shown.height, shown.loc) + [shown], |ps|);
      && (shown.loc != BottomRight ==> after == ps)
      && (shown.loc == BottomRight ==> after == Shift(ps, -2 * shown.height))
  {
    var pushed := MakeRoomSpec(ps, shown.height, shown.loc);
    var grown := pushed + [shown];
    assert grown[..|ps|] == pushed;
    assert grown[|ps| + 1..] == [];
    assert grown[|ps|] == shown;
    ShiftShift(ps, PushDelta(shown.loc, shown.height), -PushDelta(shown.loc, shown.height));
    ShiftShift(ps, PushDelta(shown.loc, shown.height), PushDelta(shown.loc, shown.height));
    assert Shift(ps, 0) == ps;
  }

  /** With the intended rule, showing a popup and closing it again restores the earlier popups on every anchor. */
  lemma ShowThenCloseIntendedRestores(ps: seq<Placed>, shown: Placed)
    ensures CollapseIntended(MakeRoomSpec(ps, shown.height, shown.loc) + [shown], |ps|) == ps
  {
    var pushed := MakeRoomSpec(ps, shown.height, shown.loc);
    var grown := pushed + [shown];
    assert grown[..|ps|] == pushed;
    assert grown[|ps| + 1..] == [];
    ShiftShift(ps, PushDelta(shown.loc, shown.height), -PushDelta(shown.loc, shown.height));
    assert Shift(ps, 0) == ps;
  }

  /** A popup on screen. */
  class Popup {
    var Top: int
    var Left: int
    var Width: int
    var Height: int
    var IconWidth: int
    var IconHeight: int
    /** Whether IconImage has been given an image. */
    var hasIconImage: bool
    var iconVisible: bool
    var WaitOnMouseOver: bool
    /** How long the popup stays up, in milliseconds. */
    var WaitTime: int
    /** How long the slide animations take, in milliseconds. */
    var AnimateTime: int
    var sysLoc: SystemTrayLocation
    var layout: Layout
    var timerInterval: int
    var timerEnabled: bool
    /** The flag words handed to the native AnimateWindow, oldest first. */
    var animations: seq<bv32>
    /** Whether the gradient brush has been created, which happens the first time the background is painted. */
    var hasBackgroundBrush: bool
    var closed: bool

    /** The constructor's defaults: hover-pause on, 4 seconds on screen, 250 ms slides, a 48x48 icon. */
    constructor ()
      ensures Width == DefaultWidth && Height == DefaultHeight
      ensures IconWidth == 48 && IconHeight == 48
      ensures WaitOnMouseOver && WaitTime == 4000 && AnimateTime == 250
      ensures !hasIconImage && iconVisible && !hasBackgroundBrush
      ensures !timerEnabled && animations == [] && !closed
    {
      hasIconImage, iconVisible := false, true;
      Width, Height := DefaultWidth, DefaultHeight;
      IconWidth, IconHeight := 48, 48;
      WaitOnMouseOver, WaitTime, AnimateTime := true, 4000, 250;
      timerInterval, timerEnabled := 100, false;
      animations, hasBackgroundBrush, closed := [], false, false;
    }

    function Bounds(): Rectangle
      reads this
    {
      Rectangle(Left, Top, Width, Height)
    }

    function AsPlaced(): Placed
      reads this`Top, this`Left, this`Height, this`sysLoc
    {
      Placed(Top, Left, Height, sysLoc)
    }

    /** SetLayout: lays out the child controls inside the form, whose size it keeps. */
    method SetLayout()
      modifies this`layout
      ensures layout == ComputeLayout(Width, Height, IconWidth, IconHeight)
    {
      layout := ComputeLayout(Width, Height, IconWidth, IconHeight);
    }

    /**
     * AnimateWindow(positive, hide): the native animation runs under a lock
     * on the icon image; with no image the lock throws before the call, so
     * ok is false and nothing is animated.
     */
    method AnimateWindow(positive: bool, hiding: bool) returns (ok: bool)
      modifies this`animations
      ensures ok == hasIconImage
      ensures ok ==> animations == old(animations) + [AnimateFlags(positive, hiding)]
      ensures !ok ==> animations == old(animations)
    {
      if !hasIconImage {
        return false;
      }
      animations := animations + [AnimateFlags(positive, hiding)];
      ok := true;
    }

    /**
     * MakeRoom: pushes every open popup away from the corner by this popup's
     * height; only their Top changes, and the list itself does not.
     */
    method MakeRoom(open: OpenPopups)
      requires open.Valid()
      modifies open.popups`Top
      ensures forall k :: 0 <= k < |open.popups| ==>
        open.popups[k].Top == old(open.popups[k].Top) + PushDelta(sysLoc, Height)
    {
      var ps := open.popups;
      var i := 0;
      while i < |ps|
        invariant 0 <= i <= |ps|
        invariant forall k :: 0 <= k < i ==> ps[k].Top == old(ps[k].Top) + PushDelta(sysLoc, Height)
        invariant forall k :: i <= k < |ps| ==> ps[k].Top == old(ps[k].Top)
      {
        var popup := ps[i];
        if sysLoc == BottomLeft || sysLoc == BottomRight {
          popup.Top := popup.Top - Height;
        } else {
          popup.Top := popup.Top + Height;
        }
        i := i + 1;
      }
    }

    /** The corner placement of Notify: flush with both edges of the tray's corner. */
    method PlaceInCorner(workArea: Rectangle)
      modifies this`Top, this`Left
      ensures Top == HomeTop(workArea, sysLoc, Height) && Left == HomeLeft(workArea, sysLoc, Width)
    {
      if sysLoc == BottomRight {
        Top := workArea.Bottom() - Height;
        Left := workArea.Right() - Width;
      } else if sysLoc == TopRight {
        Top := workArea.Top();
        Left := workArea.Right() - Width;
      } else if sysLoc == BottomLeft {
        Top := workArea.Bottom() - Height;
        Left := workArea.Left();
      }
    }

    /**
     * The first half of Notify, which touches only this popup: hides the
     * icon box when there is no image, lays the popup out, finds the tray
     * and places the popup flush in that corner.
     */
    method Prepare(query: TaskbarQuery, workArea: Rectangle)
      modifies this`iconVisible, this`layout, this`sysLoc, this`Top, this`Left
      ensures iconVisible == (old(iconVisible) && hasIconImage)
      ensures layout == ComputeLayout(Width, Height, IconWidth, IconHeight)
      ensures sysLoc == FindSystemTray(query, workArea)
      ensures Top == HomeTop(workArea, sysLoc, Height) && Left == HomeLeft(workArea, sysLoc, Width)
    {
      if !hasIconImage {
        iconVisible := false;
      }
      SetLayout();
      sysLoc := FindSystemTray(query, workArea);
      PlaceInCorner(workArea);
    }

    /**
     * Notify, run when the form loads: prepares and places the popup, makes
     * room among the open popups and slides it in; when it has an icon
     * image it then joins the list and starts the display timer with
     * WaitTime. Without an image the animation throws after the others
     * have made room: the popup never joins the list and no timer runs.
     */
    method Notify(open: OpenPopups, query: TaskbarQuery, workArea: Rectangle)
      requires open.Valid() && this !in open.popups
      modifies this`iconVisible, this`layout, this`sysLoc, this`Top, this`Left, this`animations
      modifies this`timerInterval, this`timerEnabled, open`popups, open.popups`Top
      ensures open.Valid()
      ensures iconVisible == (old(iconVisible) && hasIconImage)
      ensures layout == ComputeLayout(Width, Height, IconWidth, IconHeight)
      ensures sysLoc == FindSystemTray(query, workArea)
      ensures Top == HomeTop(workArea, sysLoc, Height) && Left == HomeLeft(workArea, sysLoc, Width)
      ensures forall k :: 0 <= k < |old(open.popups)| ==>
        old(open.popups)[k].Top == old(open.popups[k].Top) + PushDelta(sysLoc, Height)
      ensures hasIconImage ==>
        && animations == old(animations) + [AnimateFlags(ShowPositive(sysLoc), false)]
        && open.popups == old(open.popups) + [this]
        && timerEnabled && timerInterval == WaitTime
      ensures !hasIconImage ==>
        && animations == old(animations) && open.popups == old(open.popups)
        && timerEnabled == old(timerEnabled) && timerInterval == old(timerInterval)
    {
      Prepare(query, workArea);
      MakeRoom(open);
      var ok;
      if sysLoc == BottomRight || sysLoc == BottomLeft {
        ok := AnimateWindow(false, false);
      } else {
        ok := AnimateWindow(true, false);
      }
      if !ok {
        return;
      }
      open.popups := open.popups + [this];
      timerInterval, timerEnabled := WaitTime, true;
    }

    /**
     * Collapse, run from the Closing handler: moves the popups shown before
     * this one by CollapseDelta, leaves the later ones where they are, and
     * removes this one from the list. When this popup is not in the list,
     * IndexOf gives -1, nothing moves and RemoveAt(-1) throws: found is false
     * and the list is unchanged.
     */
    method Collapse(open: OpenPopups) returns (found: bool)
      requires open.Valid()
      modifies open`popups, open.popups`Top
      ensures open.Valid() && this !in open.popups
      ensures found <==> this in old(open.popups)
      ensures forall j :: 0 <= j < |old(open.popups)| ==>
        old(open.popups)[j].Top == old(open.popups[j].Top)
          + (if j < IndexOf(old(open.popups), this) then CollapseDelta(sysLoc, Height) else 0)
      ensures open.popups == RemoveFirst(old(open.popups), this)
    {
      var ps := open.popups;
      var thisIndex := IndexOf(ps, this);
      PullBack(ps, thisIndex);
      if thisIndex < 0 {
        found := false;
        return;
      }
      RemoveFirstKeepsDistinct(ps, this);
      open.popups := RemoveAt(ps, thisIndex);
      found := true;
    }

    /** The loop of Collapse: moves the popups before position n by CollapseDelta, the nearest one first. */
    method PullBack(ps: seq<Popup>, n: int)
      requires -1 <= n <= |ps|
      requires forall i, j :: 0 <= i < j < |ps| ==> ps[i] != ps[j]
      modifies ps`Top
      ensures forall k :: 0 <= k < |ps| ==>
        ps[k].Top == old(ps[k].Top) + (if k < n then CollapseDelta(sysLoc, Height) else 0)
    {
      var i := n - 1;
      while i >= 0
        invariant -2 <= i < n
        invariant n >= 0 ==> i >= -1
        invariant forall k :: 0 <= k < |ps| ==>
          ps[k].Top == old(ps[k].Top) + (if i < k < n then CollapseDelta(sysLoc, Height) else 0)
      {
        var popup := ps[i];
        if sysLoc == BottomLeft || sysLoc == BottomLeft {
          popup.Top := popup.Top + Height;
        } else {
          popup.Top := popup.Top - Height;
        }
        i := i - 1;
      }
    }

    /** OnPaintBackground: the first paint creates the gradient brush, later ones reuse it. */
    method PaintBackground()
      modifies this`hasBackgroundBrush
      ensures hasBackgroundBrush
    {
      if !hasBackgroundBrush {
        hasBackgroundBrush := true;
      }
    }

    /**
     * Form.Close: raises Closing, whose handler runs Collapse and then
     * disposes the background brush. When Collapse throws, or when the
     * popup was never painted and the brush does not exist, the handler
     * throws and the form stays open; in the second case the list has
     * already been collapsed.
     */
    method Close(open: OpenPopups)
      requires open.Valid()
      modifies this`closed, open`popups, open.popups`Top
      ensures open.Valid() && this !in open.popups
      ensures closed <==> old(closed) || (this in old(open.popups) && hasBackgroundBrush)
      ensures forall j :: 0 <= j < |old(open.popups)| ==>
        old(open.popups)[j].Top == old(open.popups[j].Top)
          + (if j < IndexOf(old(open.popups), this) then CollapseDelta(sysLoc, Height) else 0)
      ensures open.popups == RemoveFirst(old(open.popups), this)
    {
      var found := Collapse(open);
      if found && hasBackgroundBrush {
        closed := true;
      }
    }

    /**
     * UnNotify: slides the popup out, the reverse of the way it came in, and
     * closes it; when the animation throws (no icon image), nothing else
     * happens.
     */
    method UnNotify(open: OpenPopups)
      requires open.Valid()
      modifies this`animations, this`closed, open`popups, open.popups`Top
      ensures open.Valid()
      ensures hasIconImage ==>
        && animations == old(animations) + [AnimateFlags(HidePositive(sysLoc), true)]
        && this !in open.popups
        && (closed <==> old(closed) || (this in old(open.popups) && hasBackgroundBrush))
        && (forall j :: 0 <= j < |old(open.popups)| ==>
              old(open.popups)[j].Top == old(open.popups[j].Top)
                + (if j < IndexOf(old(open.popups), this) then CollapseDelta(sysLoc, Height) else 0))
        && open.popups == RemoveFirst(old(open.popups), this)
      ensures !hasIconImage ==>
        && animations == old(animations) && closed == old(closed) && open.popups == old(open.popups)
        && forall j :: 0 <= j < |open.popups| ==> open.popups[j].Top == old(open.popups[j].Top)
    {
      var ok := true;
      if sysLoc == BottomRight || sysLoc == BottomLeft {
        ok := AnimateWindow(true, true);
      } else if sysLoc == TopRight {
        ok := AnimateWindow(false, true);
      }
      if !ok {
        return;
      }
      Close(open);
    }

    /**
     * displayTimer_Tick: while the cursor rests on a popup that waits on
     * mouse-over, poll again every second and change nothing else; on any
     * other tick, stop the timer and hide the popup.
     */
    method DisplayTimerTick(open: OpenPopups, cursor: Point)
      requires open.Valid()
      modifies this`timerInterval, this`timerEnabled, this`animations, this`closed, open`popups, open.popups`Top
      ensures open.Valid()
      ensures old(WaitOnMouseOver && Bounds().Contains(cursor)) ==>
        && timerInterval == 1000 && timerEnabled == old(timerEnabled) && closed == old(closed)
        && animations == old(animations) && open.popups == old(open.popups)
        && forall j :: 0 <= j < |open.popups| ==> open.popups[j].Top == old(open.popups[j].Top)
      ensures !old(WaitOnMouseOver && Bounds().Contains(cursor)) ==>
        && !timerEnabled && timerInterval == old(timerInterval)
        && (hasIconImage ==>
              && animations == old(animations) + [AnimateFlags(HidePositive(sysLoc), true)]
              && this !in open.popups
              && (closed <==> old(closed) || (this in old(open.popups) && hasBackgroundBrush))
              && (forall j :: 0 <= j < |old(open.popups)| ==>
                    old(open.popups)[j].Top == old(open.popups[j].Top)
                      + (if j < IndexOf(old(open.popups), this) then CollapseDelta(sysLoc, Height) else 0))
              && open.popups == RemoveFirst(old(open.popups), this))
        && (!hasIconImage ==>
              && animations == old(animations) && closed == old(closed) && open.popups == old(open.popups)
              && forall j :: 0 <= j < |open.popups| ==> open.popups[j].Top == old(open.popups[j].Top))
    {
      if WaitOnMouseOver && Bounds().Contains(cursor) {
        timerInterval := 1000;
      } else {
        timerEnabled := false;
        UnNotify(open);
      }
    }
  }

  /** Where each popup of a list is, in list order. */
  ghost function PlacementsOf(ps: seq<Popup>): (r: seq<Placed>)
    reads ps
    ensures |r| == |ps| && forall i :: 0 <= i < |ps| ==> r[i] == ps[i].AsPlaced()
  {
    seq(|ps|, i requires 0 <= i < |ps| reads ps => ps[i].AsPlaced())
  }

  /** Placements commute with RemoveAt. */
  lemma PlacementsOfRemoveAt(ps: seq<Popup>, k: nat)
    requires k < |ps|
    ensures PlacementsOf(RemoveAt(ps, k)) == RemoveAt(PlacementsOf(ps), k)
  {
  }

  /**
   * Notify seen from the open list: when the open popups are stacked in the
   * corner the tray is in, they are still stacked once a popup with an icon
   * image has been shown, with the new popup at the end of the list.
   */
  method ShowStacked(open: OpenPopups, p: Popup, query: TaskbarQuery, workArea: Rectangle)
    requires open.Valid() && p !in open.popups
    requires Stacked(open.Placements(), workArea, FindSystemTray(query, workArea), 0)
    modifies p, open, open.popups
    ensures open.Valid()
    ensures p.hasIconImage ==>
      open.popups == old(open.popups) + [p] && Stacked(open.Placements(), workArea, FindSystemTray(query, workArea), 0)
  {
    ghost var shownBefore := open.popups;
    ghost var placedBefore := open.Placements();
    p.Notify(open, query, workArea);
    if p.hasIconImage {
      ghost var delta := PushDelta(p.sysLoc, p.Height);
      ghost var after := open.Placements();
      forall k | 0 <= k < |shownBefore|
        ensures after[k] == Shift(placedBefore, delta)[k]
      {
        assert after[k] == shownBefore[k].AsPlaced();
      }
      assert after == MakeRoomSpec(placedBefore, p.Height, p.sysLoc) + [p.AsPlaced()];
      ShowKeepsStacked(placedBefore, workArea, p.sysLoc, p.AsPlaced());
    }
  }

  /**
   * Collapse seen from the open list: what is left of it, as placements, is
   * CollapseSpec of the list before.
   */
  method CollapsePlacements(open: OpenPopups, p: Popup)
    requires open.Valid() && p in open.popups
    modifies open`popups, open.popups`Top
    ensures open.Valid() && open.popups == RemoveFirst(old(open.popups), p)
    ensures open.Placements() == CollapseSpec(old(open.Placements()), IndexOf(old(open.popups), p))
  {
    ghost var shownBefore := open.popups;
    ghost var placedBefore := open.Placements();
    ghost var k := IndexOf(shownBefore, p);
    ghost var delta := CollapseDelta(placedBefore[k].loc, placedBefore[k].height);
    var found := p.Collapse(open);
    ghost var moved := PlacementsOf(shownBefore);
    forall j | 0 <= j < |shownBefore|
      ensures moved[j] == placedBefore[j].(top := placedBefore[j].top + (if j < k then delta else 0))
    {
      assert placedBefore[j] == old(shownBefore[j].AsPlaced());
    }
    PlacementsOfRemoveAt(shownBefore, k);
    CollapseMatchesSpec(placedBefore, moved, k);
  }

  /**
   * Collapse seen from the open list: on the BottomLeft and TopRight
   * anchors, a stacked list of open popups is still stacked once one of
   * them has left it.
   */
  method CollapseStacked(open: OpenPopups, p: Popup, workArea: Rectangle)
    requires open.Valid() && p in open.popups && p.sysLoc != BottomRight
    requires Stacked(open.Placements(), workArea, p.sysLoc, 0)
    modifies open`popups, open.popups`Top
    ensures open.Valid() && open.popups == RemoveFirst(old(open.popups), p)
    ensures Stacked(open.Placements(), workArea, p.sysLoc, 0)
  {
    ghost var placedBefore := open.Placements();
    ghost var k := IndexOf(open.popups, p);
    CollapsePlacements(open, p);
    CollapseKeepsStacked(placedBefore, workArea, p.sysLoc, k);
  }

  /** The process-wide list of open popups, oldest first. */
  class OpenPopups {
    var popups: seq<Popup>

    constructor ()
      ensures popups == [] && Valid()
    {
      popups := [];
    }

    /** A popup is in the list at most once. */
    ghost predicate Valid()
      reads this
    {
      forall i, j :: 0 <= i < j < |popups| ==> popups[i] != popups[j]
    }

    /** Where each open popup is, oldest first. */
    ghost function Placements(): (r: seq<Placed>)
      reads this, popups
      ensures |r| == |popups|
    {
      PlacementsOf(popups)
    }
  }
}

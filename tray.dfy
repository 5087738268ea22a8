/**
 * The parts of PopupNotify that the .NET 2.0 file and its .NET 1.1 twin
 * declare with identical code: the three tray anchors, the Win32 RECT
 * structure, the AnimateWindow flag values, the classification of the
 * taskbar rectangle, the flag word passed to AnimateWindow, the slide
 * direction used for each anchor and the corner a new popup is placed in.
 */
module Tray {
  import opened Drawing

  /** Where the notification area is, and so which screen corner popups stack from. */
  datatype SystemTrayLocation = BottomLeft | BottomRight | TopRight

  predicate IsBottom(loc: SystemTrayLocation) {
    loc == BottomLeft || loc == BottomRight
  }

  /** The Win32 RECT: four edges, right and bottom exclusive. */
  datatype RECT = RECT(Left: int, Top: int, Right: int, Bottom: int) {
    /** The height as the structure reports it: it counts both edges. */
    function Height(): int { Bottom - Top + 1 }
    /** The width as the structure reports it: it counts both edges. */
    function Width(): int { Right - Left + 1 }
    function Size(): Size { MakeSize(Width(), Height()) }
    function Location(): Point { Point(Left, Top) }
    /** The implicit conversion to a rectangle, and ToRectangle. */
    function ToRectangle(): Rectangle { FromLTRB(Left, Top, Right, Bottom) }
  }

  /** FromRectangle, the RECT(Rectangle) constructor and the implicit conversion from a rectangle. */
  function FromRectangle(r: Rectangle): (rc: RECT)
    ensures rc.Left == r.Left() && rc.Top == r.Top() && rc.Right == r.Right() && rc.Bottom == r.Bottom()
  {
    RECT(r.Left(), r.Top(), r.Right(), r.Bottom())
  }

  /** Converting a RECT to a rectangle and back gives the same RECT. */
  lemma RectRoundTrip(rc: RECT)
    ensures FromRectangle(rc.ToRectangle()) == rc
  {
  }

  /** Converting a rectangle to a RECT and back gives the same rectangle. */
  lemma RectangleRoundTrip(r: Rectangle)
    ensures FromRectangle(r).ToRectangle() == r
  {
  }

  /**
   * The structure's Width and Height count one more pixel than the rectangle
   * it converts to: they treat the right and bottom edges as inclusive.
   */
  lemma RectSizeCountsBothEdges(rc: RECT)
    ensures rc.Width() == rc.ToRectangle().Width + 1
    ensures rc.Height() == rc.ToRectangle().Height + 1
    ensures rc.Location() == rc.ToRectangle().Location()
  {
  }

  /** What the taskbar query SHAppBarMessage(ABM_GETTASKBARPOS) supplies. */
  datatype TaskbarQuery = QueryFailed | TaskbarAt(rc: RECT)

  /** The taskbar is taller than it is wide. */
  predicate IsVertical(rc: RECT) {
    rc.Bottom - rc.Top > rc.Right - rc.Left
  }

  /**
   * FindSystemTray: a vertical taskbar reaching past the work area's right
   * edge means the tray is bottom-right, any other vertical one bottom-left;
   * a horizontal (or square) taskbar reaching below the work area means
   * bottom-right, any other top-right; a failed query means bottom-right.
   */
  function FindSystemTray(query: TaskbarQuery, workArea: Rectangle): (loc: SystemTrayLocation)
    ensures query.QueryFailed? ==> loc == BottomRight
    ensures loc == BottomLeft <==>
      query.TaskbarAt? && IsVertical(query.rc) && query.rc.Right <= workArea.Right()
    ensures loc == TopRight <==>
      query.TaskbarAt? && !IsVertical(query.rc) && query.rc.Bottom <= workArea.Bottom()
  {
    match query
    case QueryFailed => BottomRight
    case TaskbarAt(rc) =>
      var taskBarHeight := rc.Bottom - rc.Top;
      var taskBarWidth := rc.Right - rc.Left;
      if taskBarHeight > taskBarWidth then
        if rc.Right > workArea.Right() then BottomRight else BottomLeft
      else
        if rc.Bottom > workArea.Bottom() then BottomRight else TopRight
  }

  /** The vertical test agrees with the structure's own Height and Width. */
  lemma VerticalBySize(rc: RECT)
    ensures IsVertical(rc) <==> rc.Height() > rc.Width()
  {
  }

  // AnimateWindowFlags
  const AW_HOR_POSITIVE: bv32 := 0x0000_0001
  const AW_HOR_NEGATIVE: bv32 := 0x0000_0002
  const AW_VER_POSITIVE: bv32 := 0x0000_0004
  const AW_VER_NEGATIVE: bv32 := 0x0000_0008
  const AW_CENTER: bv32 := 0x0000_0010
  const AW_HIDE: bv32 := 0x0001_0000
  const AW_ACTIVATE: bv32 := 0x0002_0000
  const AW_SLIDE: bv32 := 0x0004_0000
  const AW_BLEND: bv32 := 0x0008_0000

  /**
   * The flag word AnimateWindow(positive, hide) hands to the native call:
   * always a slide, exactly one vertical direction, chosen by positive, and
   * the hide flag exactly when hiding; no other flag is ever set.
   */
  function AnimateFlags(positive: bool, hiding: bool): (flags: bv32)
    ensures (flags & AW_SLIDE) != 0
    ensures ((flags & AW_VER_POSITIVE) != 0) == positive
    ensures ((flags & AW_VER_NEGATIVE) != 0) == !positive
    ensures ((flags & AW_HIDE) != 0) == hiding
    ensures (flags & !(AW_SLIDE | AW_VER_POSITIVE | AW_VER_NEGATIVE | AW_HIDE)) == 0
  {
    var direction := if positive then AW_VER_POSITIVE else AW_VER_NEGATIVE;
    var hideFlag := if hiding then AW_HIDE else 0;
    AW_SLIDE | direction | hideFlag
  }

  /** Different (positive, hide) requests never produce the same flag word. */
  lemma AnimateFlagsInjective(p1: bool, h1: bool, p2: bool, h2: bool)
    requires AnimateFlags(p1, h1) == AnimateFlags(p2, h2)
    ensures p1 == p2 && h1 == h2
  {
    var f1, f2 := AnimateFlags(p1, h1), AnimateFlags(p2, h2);
    assert (f1 & AW_VER_POSITIVE != 0) == (f2 & AW_VER_POSITIVE != 0);
    assert (f1 & AW_HIDE != 0) == (f2 & AW_HIDE != 0);
  }

  /**
   * The direction Notify slides a popup in with: upwards (negative) from a
   * bottom corner, downwards (positive) from the top-right corner.
   */
  function ShowPositive(loc: SystemTrayLocation): (positive: bool)
    ensures positive <==> !IsBottom(loc)
  {
    match loc
    case BottomRight => false
    case TopRight => true
    case BottomLeft => false
  }

  /** The direction UnNotify slides a popup out with: the reverse of the one Notify slid it in with. */
  function HidePositive(loc: SystemTrayLocation): (positive: bool)
    ensures positive == !ShowPositive(loc)
  {
    if loc == BottomRight || loc == BottomLeft then true else false
  }

  /** Every popup leaves the screen the way it came in, reversed. */
  lemma HideReversesShow(loc: SystemTrayLocation)
    ensures AnimateFlags(HidePositive(loc), true) & (AW_VER_POSITIVE | AW_VER_NEGATIVE)
         != AnimateFlags(ShowPositive(loc), false) & (AW_VER_POSITIVE | AW_VER_NEGATIVE)
  {
    var showWord, hideWord := AnimateFlags(ShowPositive(loc), false), AnimateFlags(HidePositive(loc), true);
    assert (showWord & AW_VER_POSITIVE != 0) != (hideWord & AW_VER_POSITIVE != 0);
    assert showWord & AW_VER_POSITIVE == (showWord & (AW_VER_POSITIVE | AW_VER_NEGATIVE)) & AW_VER_POSITIVE;
    assert hideWord & AW_VER_POSITIVE == (hideWord & (AW_VER_POSITIVE | AW_VER_NEGATIVE)) & AW_VER_POSITIVE;
  }

  /** The Top Notify gives a popup of the given height: flush with the anchored edge. */
  function HomeTop(workArea: Rectangle, loc: SystemTrayLocation, height: int): (top: int)
    ensures IsBottom(loc) ==> top + height == workArea.Bottom()
    ensures loc == TopRight ==> top == workArea.Top()
  {
    if loc == TopRight then workArea.Top() else workArea.Bottom() - height
  }

  /** The Left Notify gives a popup of the given width: flush with the anchored edge. */
  function HomeLeft(workArea: Rectangle, loc: SystemTrayLocation, width: int): (left: int)
    ensures loc == BottomLeft ==> left == workArea.Left()
    ensures loc != BottomLeft ==> left + width == workArea.Right()
  {
    if loc == BottomLeft then workArea.Left() else workArea.Right() - width
  }
}

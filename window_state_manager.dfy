/**
 * WindowStateManager: remembers a form's size, location and window state
 * for each screen resolution it has been shown on. The table maps a screen
 * size to a WindowSizeLocation record; the current record is shared with
 * the table, so that updates made while the form is resized or moved land
 * in the table as well. When the display settings change, the form takes
 * the record for the new resolution (or a new one) and is moved back on
 * screen if that record would leave it off screen.
 *
 * Screen.FromRectangle is a parameter: the screen size the form is on, and
 * a function giving the working area of the screen a rectangle is on.
 */
module WindowStateManager {
  import opened Drawing

  datatype FormWindowState = Normal | Minimized | Maximized

  datatype FormStartPosition = Manual | CenterScreen | WindowsDefaultLocation | WindowsDefaultBounds | CenterParent

  /** The form whose state is managed: the properties the manager reads and assigns. */
  class Form {
    var Size: Size
    var Location: Point
    var WindowState: FormWindowState
    var StartPosition: FormStartPosition

    constructor (size: Size, location: Point)
      ensures Size == size && Location == location
      ensures WindowState == Normal && StartPosition == WindowsDefaultLocation
    {
      Size, Location := size, location;
      WindowState, StartPosition := Normal, WindowsDefaultLocation;
    }
  }

  /** One row of the table: the form's size and location on a screen of the given size. */
  class WindowSizeLocation {
    var Size: Size
    var Location: Point
    var ScreenSize: Size

    constructor (windowSize: Size, windowPos: Point, screenSize: Size)
      ensures Size == windowSize && Location == windowPos && ScreenSize == screenSize
    {
      Size, Location, ScreenSize := windowSize, windowPos, screenSize;
    }
  }

  /** Every record of the table is stored under its own screen size. */
  ghost predicate StoredUnderOwnScreen(table: map<Size, WindowSizeLocation>)
    reads table.Values
  {
    forall s :: s in table ==> table[s].ScreenSize == s
  }

  /** The table after writing each record, in order, under its screen size. */
  function WithEntries(table: map<Size, WindowSizeLocation>, ws: seq<WindowSizeLocation>): (r: map<Size, WindowSizeLocation>)
    reads ws
    ensures forall s :: s in table ==> s in r
  {
    if ws == [] then table
    else
      var last := ws[|ws| - 1];
      WithEntries(table, ws[..|ws| - 1])[last.ScreenSize := last]
  }

  /** Writing records adds exactly their screen sizes to the keys and removes none. */
  lemma {:induction false} WithEntriesKeys(table: map<Size, WindowSizeLocation>, ws: seq<WindowSizeLocation>)
    ensures WithEntries(table, ws).Keys == table.Keys + set w | w in ws :: w.ScreenSize
  {
    if ws != [] {
      var init := ws[..|ws| - 1];
      WithEntriesKeys(table, init);
      assert ws == init + [ws[|ws| - 1]];
      assert (set w | w in ws :: w.ScreenSize) == (set w | w in init :: w.ScreenSize) + {ws[|ws| - 1].ScreenSize};
    }
  }

  /** On duplicate screen sizes the last record written wins. */
  lemma {:induction false} WithEntriesLastWins(table: map<Size, WindowSizeLocation>, ws: seq<WindowSizeLocation>, i: nat)
    requires i < |ws|
    requires forall j :: i < j < |ws| ==> ws[j].ScreenSize != ws[i].ScreenSize
    ensures ws[i].ScreenSize in WithEntries(table, ws) && WithEntries(table, ws)[ws[i].ScreenSize] == ws[i]
  {
    if i < |ws| - 1 {
      WithEntriesLastWins(table, ws[..|ws| - 1], i);
    }
  }

  /** A row whose screen size no record carries keeps its record. */
  lemma {:induction false} WithEntriesKeepsOthers(table: map<Size, WindowSizeLocation>, ws: seq<WindowSizeLocation>, s: Size)
    requires s in table
    requires forall j :: 0 <= j < |ws| ==> ws[j].ScreenSize != s
    ensures WithEntries(table, ws)[s] == table[s]
  {
    if ws != [] {
      WithEntriesKeepsOthers(table, ws[..|ws| - 1], s);
    }
  }

  /** Writing records under their own screen sizes keeps every record under its own screen size. */
  lemma {:induction false} WithEntriesStoredUnderOwnScreen(table: map<Size, WindowSizeLocation>, ws: seq<WindowSizeLocation>)
    requires StoredUnderOwnScreen(table)
    ensures StoredUnderOwnScreen(WithEntries(table, ws))
  {
    if ws != [] {
      WithEntriesStoredUnderOwnScreen(table, ws[..|ws| - 1]);
    }
  }

  /**
   * The off-screen rescue as written: a window left of (or above) the
   * working area is moved flush with its left (top) edge, one whose left
   * (top) edge lies beyond the working area's right (bottom) edge is moved
   * flush with that edge, and otherwise the coordinate is kept. The size is
   * not changed.
   */
  function OffscreenRescue(loc: Point, size: Size, workingArea: Rectangle): (p: Point)
    ensures loc.X < workingArea.Left() ==> p.X == workingArea.Left()
    ensures workingArea.Left() <= loc.X && loc.X > workingArea.Right() ==> p.X + size.Width == workingArea.Right()
    ensures workingArea.Left() <= loc.X <= workingArea.Right() ==> p.X == loc.X
    ensures loc.Y < workingArea.Top() ==> p.Y == workingArea.Top()
    ensures workingArea.Top() <= loc.Y && loc.Y > workingArea.Bottom() ==> p.Y + size.Height == workingArea.Bottom()
    ensures workingArea.Top() <= loc.Y <= workingArea.Bottom() ==> p.Y == loc.Y
  {
    var x := if loc.X < workingArea.X then workingArea.X
             else if loc.X > workingArea.Right() then workingArea.Right() - size.Width
             else loc.X;
    var y := if loc.Y < workingArea.Y then workingArea.Y
             else if loc.Y > workingArea.Bottom() then workingArea.Bottom() - size.Height
             else loc.Y;
    Point(x, y)
  }

  /** The rescue the comment above it asks for: a window starting at the right or bottom edge is moved in as well. */
  function OffscreenRescueIntended(loc: Point, size: Size, workingArea: Rectangle): (p: Point)
    ensures loc.X < workingArea.Left() ==> p.X == workingArea.Left()
    ensures workingArea.Left() <= loc.X && loc.X >= workingArea.Right() ==> p.X + size.Width == workingArea.Right()
    ensures workingArea.Left() <= loc.X < workingArea.Right() ==> p.X == loc.X
    ensures loc.Y < workingArea.Top() ==> p.Y == workingArea.Top()
    ensures workingArea.Top() <= loc.Y && loc.Y >= workingArea.Bottom() ==> p.Y + size.Height == workingArea.Bottom()
    ensures workingArea.Top() <= loc.Y < workingArea.Bottom() ==> p.Y == loc.Y
  {
    var x := if loc.X < workingArea.X then workingArea.X
             else if loc.X >= workingArea.Right() then workingArea.Right() - size.Width
             else loc.X;
    var y := if loc.Y < workingArea.Y then workingArea.Y
             else if loc.Y >= workingArea.Bottom() then workingArea.Bottom() - size.Height
             else loc.Y;
    Point(x, y)
  }

  /** A non-empty working area and a non-empty window. */
  predicate NonEmpty(size: Size, workingArea: Rectangle) {
    size.Width > 0 && size.Height > 0 && workingArea.Width > 0 && workingArea.Height > 0
  }

  /**
   * The rescue as written brings a non-empty window back onto a non-empty
   * working area exactly when the window does not start on the working
   * area's right or bottom edge; one that does stays where it is, off screen.
   */
  lemma OffscreenRescueOnScreen(loc: Point, size: Size, workingArea: Rectangle)
    requires NonEmpty(size, workingArea)
    ensures workingArea.IntersectsWith(FromLocationSize(OffscreenRescue(loc, size, workingArea), size))
        <==> loc.X != workingArea.Right() && loc.Y != workingArea.Bottom()
  {
  }

  /** The window (100, 0) of size 10x10 next to the working area (0, 0, 100, 100) is off screen and stays there. */
  lemma OffscreenRescueMissesRightEdge()
    ensures !Rectangle(0, 0, 100, 100).IntersectsWith(Rectangle(100, 0, 10, 10))
    ensures OffscreenRescue(Point(100, 0), Size(10, 10), Rectangle(0, 0, 100, 100)) == Point(100, 0)
  {
  }

  /** The intended rescue moves that window to (90, 0), flush with the working area's right edge. */
  lemma OffscreenRescueIntendedMovesIn()
    ensures OffscreenRescueIntended(Point(100, 0), Size(10, 10), Rectangle(0, 0, 100, 100)) == Point(90, 0)
    ensures Rectangle(0, 0, 100, 100).IntersectsWith(Rectangle(90, 0, 10, 10))
  {
  }

  /** The intended rescue always brings a non-empty window back onto a non-empty working area. */
  lemma OffscreenRescueIntendedOnScreen(loc: Point, size: Size, workingArea: Rectangle)
    requires NonEmpty(size, workingArea)
    ensures workingArea.IntersectsWith(FromLocationSize(OffscreenRescueIntended(loc, size, workingArea), size))
  {
  }

  /** The location the form ends up with: rescued when its rectangle misses the working area of its screen. */
  function LocationOnScreen(loc: Point, size: Size, workingAreaOf: Rectangle -> Rectangle): Point
  {
    var windowRect := FromLocationSize(loc, size);
    var workingArea := workingAreaOf(windowRect);
    if !workingArea.IntersectsWith(windowRect) then OffscreenRescue(loc, size, workingArea) else loc
  }

  class WindowStateManager {
    var parent: Form?
    var windowState: FormWindowState
    var loadedWindowState: FormWindowState
    var allowSaveMinimized: bool
    var stateByResolution: map<Size, WindowSizeLocation>
    /** The record for the resolution the form is on; null until the parent is set. */
    var thisState: WindowSizeLocation?
    /** Set while the manager itself moves and sizes the form, so that the handlers ignore it. */
    var settingState: bool

    /** The manager state the code asserts in OnResize and OnMove: the current record is the table's record for its screen size. */
    ghost predicate Valid()
      reads this, thisState, stateByResolution.Values
    {
      && StoredUnderOwnScreen(stateByResolution)
      && (thisState != null ==> thisState.ScreenSize in stateByResolution && stateByResolution[thisState.ScreenSize] == thisState)
    }

    constructor ()
      ensures Valid() && stateByResolution == map[] && parent == null && thisState == null
      ensures windowState == Normal && !allowSaveMinimized && !settingState
    {
      parent, thisState := null, null;
      windowState, loadedWindowState := Normal, Normal;
      allowSaveMinimized, settingState := false, false;
      stateByResolution := map[];
    }

    /**
     * The Parent setter: takes a record with the form's size and location on
     * its screen; when the table already knows that screen size, takes the
     * stored record instead, switches the form to manual placement, remembers
     * the window state to restore on Load and applies the record to the
     * form. Either way the record is stored under its screen size.
     */
    method SetParent(form: Form, screenSize: Size)
      requires Valid()
      modifies this, form`StartPosition, form`Location, form`Size, form`WindowState
      ensures Valid() && parent == form && thisState != null && thisState.ScreenSize == screenSize
      ensures stateByResolution == old(stateByResolution)[screenSize := thisState]
      ensures windowState == old(windowState) && allowSaveMinimized == old(allowSaveMinimized)
      ensures screenSize in old(stateByResolution) ==>
        && thisState == old(stateByResolution[screenSize]) && !settingState
        && form.StartPosition == Manual && loadedWindowState == windowState
        && form.Location == thisState.Location && form.Size == thisState.Size && form.WindowState == windowState
      ensures screenSize !in old(stateByResolution) ==>
        && fresh(thisState) && thisState.Size == form.Size && thisState.Location == form.Location
        && form.StartPosition == old(form.StartPosition) && form.WindowState == old(form.WindowState)
        && form.Size == old(form.Size) && form.Location == old(form.Location)
        && loadedWindowState == old(loadedWindowState) && settingState == old(settingState)
    {
      parent := form;
      thisState := new WindowSizeLocation(form.Size, form.Location, screenSize);
      if thisState.ScreenSize in stateByResolution {
        form.StartPosition := Manual;
        loadedWindowState := windowState;
        thisState := stateByResolution[thisState.ScreenSize];
        SetWindowState();
      }
      stateByResolution := stateByResolution[thisState.ScreenSize := thisState];
    }

    /**
     * The Resolutions getter: an array with one element per table row,
     * holding that row's record; keys lists the screen sizes in the order
     * the table yields them. Stored under their own screen sizes, the
     * records are all different.
     */
    method GetResolutions() returns (output: array<WindowSizeLocation?>, ghost keys: seq<Size>)
      ensures fresh(output)
      ensures output.Length == |stateByResolution| == |keys|
      ensures forall j :: 0 <= j < |keys| ==> keys[j] in stateByResolution && output[j] == stateByResolution[keys[j]]
      ensures forall s :: s in stateByResolution ==> s in keys
      ensures forall i, j :: 0 <= i < j < |keys| ==> keys[i] != keys[j]
      ensures StoredUnderOwnScreen(stateByResolution) ==>
        forall i, j :: 0 <= i < j < output.Length ==> output[i] != output[j]
    {
      output := new WindowSizeLocation?[|stateByResolution|];
      keys := [];
      var remaining := stateByResolution.Keys;
      var i := 0;
      while remaining != {}
        invariant remaining <= stateByResolution.Keys
        invariant i == |keys| && i + |remaining| == |stateByResolution|
        invariant forall j :: 0 <= j < i ==>
          keys[j] in stateByResolution && keys[j] !in remaining && output[j] == stateByResolution[keys[j]]
        invariant forall s :: s in stateByResolution && s !in remaining ==> s in keys
        invariant forall a, b :: 0 <= a < b < i ==> keys[a] != keys[b]
        decreases |remaining|
      {
        var s :| s in remaining;
        output[i] := stateByResolution[s];
        keys := keys + [s];
        remaining := remaining - {s};
        i := i + 1;
      }
      if StoredUnderOwnScreen(stateByResolution) {
        forall a, b | 0 <= a < b < output.Length
          ensures output[a] != output[b]
        {
          assert output[a].ScreenSize == keys[a] && output[b].ScreenSize == keys[b];
        }
      }
    }

    /**
     * The Resolutions setter: writes each record, in order, under its screen
     * size. The manager stays consistent as long as no record is written
     * under the current record's screen size, which would take the table's
     * row away from the current record.
     */
    method SetResolutions(value: array<WindowSizeLocation>)
      modifies this`stateByResolution
      ensures stateByResolution == WithEntries(old(stateByResolution), value[..])
      ensures old(Valid()) && (thisState == null || forall j :: 0 <= j < value.Length ==> value[j].ScreenSize != thisState.ScreenSize)
        ==> Valid()
    {
      for i := 0 to value.Length
        invariant stateByResolution == WithEntries(old(stateByResolution), value[..i])
      {
        var wsl := value[i];
        stateByResolution := stateByResolution[wsl.ScreenSize := wsl];
        assert value[..i + 1][..i] == value[..i];
      }
      assert value[..value.Length] == value[..];
      if old(Valid()) {
        WithEntriesStoredUnderOwnScreen(old(stateByResolution), value[..]);
        if thisState != null && forall j :: 0 <= j < value.Length ==> value[j].ScreenSize != thisState.ScreenSize {
          WithEntriesKeepsOthers(old(stateByResolution), value[..], thisState.ScreenSize);
        }
      }
    }

    /** SetWindowState: applies the current record and window state to the form with settingState raised. */
    method SetWindowState()
      requires parent != null && thisState != null
      modifies this`settingState, parent`Location, parent`Size, parent`WindowState
      ensures parent.Location == thisState.Location && parent.Size == thisState.Size
      ensures parent.WindowState == windowState && !settingState
    {
      settingState := true;
      parent.Location := thisState.Location;
      parent.Size := thisState.Size;
      parent.WindowState := windowState;
      settingState := false;
    }

    /** OnResize: outside SetWindowState, a normal window's size is recorded, in the table's row as well. */
    method OnResize()
      requires Valid() && parent != null && thisState != null
      modifies thisState`Size
      ensures Valid()
      ensures !settingState && parent.WindowState == Normal ==>
        thisState.Size == parent.Size && stateByResolution[thisState.ScreenSize].Size == parent.Size
      ensures settingState || parent.WindowState != Normal ==> thisState.Size == old(thisState.Size)
    {
      if !settingState && parent.WindowState == Normal {
        thisState.Size := parent.Size;
        assert thisState.Size == stateByResolution[thisState.ScreenSize].Size;
      }
    }

    /**
     * OnMove: outside SetWindowState and while the form stays on a screen
     * of the current record's size, a normal window's location is recorded
     * and the window state is saved unless it is Minimized and saving
     * Minimized is not allowed.
     */
    method OnMove(screenSize: Size)
      requires Valid() && parent != null && thisState != null
      modifies thisState`Location, this`windowState
      ensures Valid()
      ensures var recording := !settingState && screenSize == thisState.ScreenSize;
        && (recording && parent.WindowState == Normal ==>
              thisState.Location == parent.Location && stateByResolution[thisState.ScreenSize].Location == parent.Location)
        && (!(recording && parent.WindowState == Normal) ==> thisState.Location == old(thisState.Location))
        && (recording && !(parent.WindowState == Minimized && !allowSaveMinimized) ==> windowState == parent.WindowState)
        && (!(recording && !(parent.WindowState == Minimized && !allowSaveMinimized)) ==> windowState == old(windowState))
    {
      if !settingState {
        if screenSize == thisState.ScreenSize {
          if parent.WindowState == Normal {
            thisState.Location := parent.Location;
            assert thisState.Location == stateByResolution[thisState.ScreenSize].Location;
          }
          if !(parent.WindowState == Minimized && !allowSaveMinimized) {
            windowState := parent.WindowState;
          }
        }
      }
    }

    /** OnLoad: restores the window state the Parent setter remembered. */
    method OnLoad()
      requires parent != null
      modifies parent`WindowState
      ensures parent.WindowState == loadedWindowState
    {
      parent.WindowState := loadedWindowState;
    }

    /**
     * OnDisplaySettingsChanged: switches to the table's record for the new
     * screen size, or stores a new one holding the form's size and location
     * (the previous record's, when the form is not in the normal state);
     * moves the record back on screen when its rectangle misses the working
     * area; and applies it to the form. Only the current record's location
     * may change among the table's records.
     */
    method OnDisplaySettingsChanged(screenSize: Size, workingAreaOf: Rectangle -> Rectangle)
      requires Valid() && parent != null && thisState != null
      modifies this`thisState, this`stateByResolution, this`settingState, stateByResolution.Values`Location
      modifies parent`Location, parent`Size, parent`WindowState
      ensures Valid() && thisState != null && thisState.ScreenSize == screenSize
      ensures screenSize in old(stateByResolution) ==>
        thisState == old(stateByResolution[screenSize]) && stateByResolution == old(stateByResolution)
      ensures screenSize !in old(stateByResolution) ==>
        && fresh(thisState) && stateByResolution == old(stateByResolution)[screenSize := thisState]
        && thisState.Size == (if old(parent.WindowState) == Normal then old(parent.Size) else old(thisState.Size))
      ensures var before :=
          if screenSize in old(stateByResolution) then old(stateByResolution[screenSize].Location)
          else if old(parent.WindowState) == Normal then old(parent.Location)
          else old(thisState.Location);
        thisState.Location == LocationOnScreen(before, thisState.Size, workingAreaOf)
      ensures forall s :: s in old(stateByResolution) && s != screenSize ==>
        old(stateByResolution)[s].Location == old(stateByResolution[s].Location)
      ensures parent.Location == thisState.Location && parent.Size == thisState.Size
      ensures parent.WindowState == windowState && !settingState
    {
      SwitchRecord(screenSize);
      RescueLocation(workingAreaOf);
      SetWindowState();
    }

    /**
     * The first step of OnDisplaySettingsChanged: the table's record for the
     * new screen size becomes current; when there is none, a new record with
     * the form's size and location (the previous record's, when the form is
     * not in the normal state) is stored and becomes current.
     */
    method SwitchRecord(screenSize: Size)
      requires Valid() && parent != null && thisState != null
      modifies this`thisState, this`stateByResolution
      ensures Valid() && thisState != null && thisState.ScreenSize == screenSize
      ensures screenSize in old(stateByResolution) ==>
        thisState == old(stateByResolution[screenSize]) && stateByResolution == old(stateByResolution)
      ensures screenSize !in old(stateByResolution) ==>
        && fresh(thisState) && stateByResolution == old(stateByResolution)[screenSize := thisState]
        && thisState.Size == (if parent.WindowState == Normal then parent.Size else old(thisState.Size))
        && thisState.Location == (if parent.WindowState == Normal then parent.Location else old(thisState.Location))
    {
      if screenSize in stateByResolution {
        thisState := stateByResolution[screenSize];
      } else {
        var newState := new WindowSizeLocation(parent.Size, parent.Location, screenSize);
        if parent.WindowState != Normal {
          newState.Location := thisState.Location;
          newState.Size := thisState.Size;
        }
        thisState := newState;
        stateByResolution := stateByResolution[thisState.ScreenSize := thisState];
      }
    }

    /**
     * The second step of OnDisplaySettingsChanged: when the current record's
     * rectangle misses the working area of its screen, the record is moved
     * by the off-screen rescue; its size is kept.
     */
    method RescueLocation(workingAreaOf: Rectangle -> Rectangle)
      requires thisState != null
      modifies thisState`Location
      ensures thisState.Location == LocationOnScreen(old(thisState.Location), thisState.Size, workingAreaOf)
    {
      var windowRect := FromLocationSize(thisState.Location, thisState.Size);
      var workingArea := workingAreaOf(windowRect);
      if !workingArea.IntersectsWith(windowRect) {
        var newLoc := Point(thisState.Location.X, thisState.Location.Y);
        if thisState.Location.X < workingArea.X {
          newLoc := newLoc.(X := workingArea.X);
        } else if thisState.Location.X > workingArea.Right() {
          newLoc := newLoc.(X := workingArea.Right() - thisState.Size.Width);
        }
        if thisState.Location.Y < workingArea.Y {
          newLoc := newLoc.(Y := workingArea.Y);
        } else if thisState.Location.Y > workingArea.Bottom() {
          newLoc := newLoc.(Y := workingArea.Bottom() - thisState.Size.Height);
        }
        thisState.Location := newLoc;
      }
    }
  }
}

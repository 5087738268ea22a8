# brh-forms widgets in Dafny

A Dafny model of the behaviour of four Windows Forms widgets from brh-forms:

- **PopupNotify**: a "toast" popup, in its .NET 2.0 form (`PopupNotify.cs`) and its .NET 1.1 form (`PopupNotifyOld.cs`).
  - A popup finds the corner where the notification area is and lays out its controls.
  - It is placed flush in that corner, pushing the popups already open away from it, and slides in.
  - A display timer hides it again unless the cursor rests on it.
  - On closing, it leaves the process-wide list of open popups, and the popups shown before it are pulled back.
- **WindowStateManager**: keeps one size/location record per screen resolution.
  - It updates the current record as the form is moved and resized.
  - When the display settings change, it switches records.
  - It moves a form that would end up off screen back onto the working area.
- **WebLinkLabel**: a label whose text may contain `<url=U>T</url>` blocks.
  - It shows each block as the text T.
  - That stretch of the shown text becomes a link to U.

Modules:

- `drawing.dfy` (`Drawing`): the `Point`, `Size` and `Rectangle` value types the code computes with.
- `tray.dfy` (`Tray`): code the two popup files declare identically. This covers:
  - the tray anchors;
  - the Win32 `RECT`;
  - the `AnimateWindowFlags` values and the flag word built for each animation;
  - `FindSystemTray`;
  - the show/hide slide directions;
  - the corner a popup is placed in.
- `stacking.dfy` (`Stacking`): the open-popup list as a list of placements (Top, Left, Height, anchor).
  - It defines the moves `MakeRoom` and `Collapse` make.
  - It defines the layout the stacking is meant to produce (`Stacked`) and the lemmas showing which moves keep it.
- `popup_notify.dfy` (`PopupNotify`) and `popup_notify_old.dfy` (`PopupNotifyOld`): each popup is a `Popup` object whose methods update its fields.
  - The static `openPopups` list is an `OpenPopups` object handed to each operation.
  - `ShowStacked`, `CollapsePlacements` and `CollapseStacked` tie what the methods do to the open list to the value-level functions and the stacking lemmas.
- `window_state_manager.dfy` (`WindowStateManager`): the manager as a class.
  - The resolution table is a `map` from screen size to `WindowSizeLocation` objects.
  - The current record is shared with the table, as in the code.
- `web_link_label.dfy` (`WebLinkLabel`): the markup pattern, the matches `Regex.Matches` yields, and the text and links the `LinkText` setter produces.
  - The setter's loop is a method proved against those functions.

Parameters stand for what the code asks the system:
- `TaskbarQuery` stands for `SHAppBarMessage`.
- The work area, the cursor position and `Screen.FromRectangle` (a screen size and a working-area function) are parameters.
- So is the title label's height, which the .NET 2.0 popup takes from the font.

The classes follow the code as written, including the three defects listed under Findings. The corrected rules are stated beside them and proved to have the properties the code is evidently after.

## Model

| member | source | states |
|---|---|---|
| Drawing.FromLocationSize | WindowStateManager.cs:212 | the rectangle built from a location and a size has exactly that location and size |
| Drawing.FromLTRB | PopupNotify.cs:596-599 | the rectangle built from four edges has exactly those left, top, right and bottom edges |
| Tray.FromRectangle | PopupNotify.cs:625-628 | the RECT built from a rectangle carries its four edges |
| Tray.RectRoundTrip | PopupNotify.cs:596-604 | converting a RECT to a rectangle and back gives the same RECT |
| Tray.RectangleRoundTrip | PopupNotify.cs:596-604 | converting a rectangle to a RECT and back gives the same rectangle |
| Tray.RectSizeCountsBothEdges | PopupNotify.cs:614-623 | RECT's Width and Height are one more than those of the rectangle it converts to; the locations agree |
| Tray.FindSystemTray | PopupNotify.cs:316-347 | a failed query gives BottomRight; BottomLeft exactly for a vertical taskbar not reaching past the work area's right edge; TopRight exactly for a horizontal one not reaching below its bottom |
| Tray.VerticalBySize | PopupNotify.cs:323-326 | the taskbar is vertical by the edge differences exactly when RECT's Height exceeds its Width |
| Tray.AnimateFlags | PopupNotify.cs:237-253 | the flag word always has AW_SLIDE, AW_VER_POSITIVE exactly when positive, AW_VER_NEGATIVE exactly when not, AW_HIDE exactly when hiding, and no other bit |
| Tray.AnimateFlagsInjective | PopupNotify.cs:237-253 | different (positive, hide) requests never give the same flag word |
| Tray.ShowPositive | PopupNotify.cs:189-212 | Notify slides in downwards exactly on the top anchor |
| Tray.HidePositive | PopupNotify.cs:225-232 | UnNotify slides out in the reverse of the direction Notify slid in with, on every anchor |
| Tray.HideReversesShow | PopupNotify.cs:189-232 | the flag words UnNotify and Notify pass for the same anchor differ in their vertical-direction bits |
| Tray.HomeTop | PopupNotify.cs:189-208 | a new popup's Top puts it flush with the anchored top or bottom edge of the work area |
| Tray.HomeLeft | PopupNotify.cs:189-208 | a new popup's Left puts it flush with the left edge on BottomLeft and with the right edge otherwise |
| Stacking.IndexOf | PopupNotify.cs:295 | List.IndexOf gives -1 exactly when the popup is absent, otherwise the first position holding it |
| Stacking.RemoveAt | PopupNotify.cs:311 | List.RemoveAt: the list loses its k-th entry; earlier entries keep their places, later ones move down by one |
| Stacking.RemoveFirstKeepsDistinct | PopupNotify.cs:295-311 | RemoveAt(IndexOf(x)) on a list without repeats leaves a list without repeats that no longer holds x |
| Stacking.CollapseDelta | PopupNotify.cs:301-308 | as written, the earlier popups move down by the closing popup's height on BottomLeft and up by it on every other anchor |
| Stacking.CollapseSpec | PopupNotify.cs:291-313 | Collapse as written removes the k-th popup and keeps the later ones; it pulls the earlier ones back towards the corner by its height on BottomLeft and TopRight, and pushes them further away on BottomRight |
| Stacking.CollapseMatchesSpec | PopupNotify.cs:291-313 | moving the entries before the k-th by its CollapseDelta, keeping the others, then removing the k-th gives CollapseSpec |
| Stacking.PushThenAppendKeepsStacked | PopupNotify.cs:178-221 | pushing every open popup away by the newcomer's height plus the spacing, then appending the newcomer in its corner, keeps a stacked layout stacked |
| Stacking.PullThenRemoveKeepsStacked | PopupNotify.cs:291-313 | removing the k-th popup and pulling every earlier one back by its height plus the spacing keeps a stacked layout stacked |
| PopupNotify.ComputeLayout | PopupNotify.cs:152-175 | the icon sits at (9, 9); the form ends 9 pixels below it; the close button is 3 pixels into the top-right margin; the title starts right of the icon, 5 pixels above it; the message starts one pixel right of the title, below it, and reaches the right and bottom margins |
| PopupNotify.MakeRoomSpec | PopupNotify.cs:272-289 | MakeRoom pushes every open popup away from the anchored edge by the new popup's height plus the one-pixel gap |
| PopupNotify.CollapseIntendedPulls | PopupNotify.cs:272-313 | the corrected Collapse pulls the earlier popups back by exactly MakeRoom's push (height plus gap) on every anchor, keeps the later ones and removes the closing one |
| PopupNotify.ShowKeepsStacked | PopupNotify.cs:178-221 | showing a popup keeps a stacked layout stacked, with a one-pixel gap between neighbours |
| PopupNotify.CollapseIntendedKeepsStacked | PopupNotify.cs:291-313 | closing any popup by the corrected rule keeps a stacked layout stacked |
| PopupNotify.ShowThenCloseDrift | PopupNotify.cs:272-313 | as written, showing a popup and closing it leaves the earlier popups one pixel higher on BottomLeft, one lower on TopRight, and twice its height plus one higher on BottomRight |
| PopupNotify.ShowThenCloseIntendedRestores | PopupNotify.cs:272-313 | with the corrected rule, showing a popup and closing it again restores every earlier popup on every anchor |
| PopupNotify.ThreePopupsBottomRight | PopupNotify.cs:272-313 | three 80-pixel popups at the bottom right sit 0, 81 and 162 pixels above home; closing the middle one moves the oldest 80 pixels up as written, and 81 down by the corrected rule |
| PopupNotify.Popup.constructor | PopupNotify.cs:144-149 | the defaults: a 304x66 form, a 48x48 icon, hover-pause on, 4000 ms on screen, 250 ms slides, no animation run, not closed |
| PopupNotify.Popup.SetLayout | PopupNotify.cs:152-175 | the controls take ComputeLayout's bounds and the form's height becomes the icon's height plus 18 |
| PopupNotify.Popup.AnimateWindow | PopupNotify.cs:237-270 | one native animation is run with the flag word for (positive, hide) |
| PopupNotify.Popup.MakeRoom | PopupNotify.cs:272-289 | every open popup's Top moves away from the anchored edge by this popup's height plus one; the list is unchanged |
| PopupNotify.Popup.PlaceInCorner | PopupNotify.cs:189-208 | the popup is placed flush with both edges of the tray's corner |
| PopupNotify.Popup.Prepare | PopupNotify.cs:178-187 | the icon box is hidden when there is no image; the popup is laid out, finds the tray and is placed in its corner |
| PopupNotify.Popup.Notify | PopupNotify.cs:178-221 | the popup is placed in the corner, every popup already open is pushed away by its height plus one, it slides in, joins the end of the list and starts its timer with WaitTime |
| PopupNotify.Popup.Collapse | PopupNotify.cs:291-313 | the popups before this one move by CollapseDelta, the rest keep their Top; this one leaves the list; when it was not in the list, IndexOf's -1 makes RemoveAt throw and the list is unchanged |
| PopupNotify.Popup.PullBack | PopupNotify.cs:297-309 | the loop moves exactly the popups before the given position by CollapseDelta |
| PopupNotify.Popup.Close | PopupNotify.cs:729-737 | closing runs Collapse: the popup leaves the list (which is unchanged when it was not in it), the earlier popups move by CollapseDelta, and the form closes exactly when the popup was in the list |
| PopupNotify.Popup.UnNotify | PopupNotify.cs:223-235 | the popup slides out the way HidePositive says and then closes as Close does, with the same removal, moves and closed flag |
| PopupNotify.Popup.DisplayTimerTick | PopupNotify.cs:716-727 | with WaitOnMouseOver set and the cursor inside the popup, only the interval changes, to 1000; otherwise the timer stops and the popup slides out and closes as UnNotify does: it leaves the list, the earlier popups move by CollapseDelta and the form closes exactly when it was in the list |
| PopupNotify.ShowStacked | PopupNotify.cs:178-221 | Notify on a stacked open list appends the popup and keeps the list stacked, one pixel between neighbours |
| PopupNotify.CollapsePlacements | PopupNotify.cs:291-313 | the open list after Collapse, seen as placements, is CollapseSpec of the list before |
| PopupNotify.OpenPopups.constructor | PopupNotify.cs:105 | the process starts with no open popups |
| PopupNotifyOld.ComputeLayout | PopupNotifyOld.cs:147-170 | the icon sits at (12, 12); the close button is 8 pixels in from the right edge and 9 from the top; title and message form one column between the icon and the close button; the 16-pixel title is level with the close button; the message starts 8 pixels below it and ends 12 pixels above the form's bottom |
| PopupNotifyOld.MakeRoomSpec | PopupNotifyOld.cs:260-276 | MakeRoom pushes every open popup away from the anchored edge by the new popup's height |
| PopupNotifyOld.CollapseIntendedPulls | PopupNotifyOld.cs:260-300 | the corrected Collapse pulls the earlier popups back by exactly MakeRoom's push on every anchor, keeps the later ones and removes the closing one |
| PopupNotifyOld.ShowKeepsStacked | PopupNotifyOld.cs:173-216 | showing a popup keeps a stacked layout stacked, the popups touching |
| PopupNotifyOld.CollapseKeepsStacked | PopupNotifyOld.cs:278-300 | Collapse as written keeps a stacked layout stacked on the BottomLeft and TopRight anchors |
| PopupNotifyOld.CollapseIntendedKeepsStacked | PopupNotifyOld.cs:278-300 | closing any popup by the corrected rule keeps a stacked layout stacked on every anchor |
| PopupNotifyOld.ShowThenCloseDrift | PopupNotifyOld.cs:260-300 | as written, showing a popup and closing it restores the earlier popups on BottomLeft and TopRight and leaves them twice its height higher on BottomRight |
| PopupNotifyOld.ShowThenCloseIntendedRestores | PopupNotifyOld.cs:260-300 | with the corrected rule, showing a popup and closing it again restores every earlier popup on every anchor |
| PopupNotifyOld.Popup.constructor | PopupNotifyOld.cs:139-144 | the defaults: a 304x112 form, a 48x48 icon, hover-pause on, 4000 ms on screen, 250 ms slides, no brush, not closed |
| PopupNotifyOld.Popup.SetLayout | PopupNotifyOld.cs:147-170 | the controls take ComputeLayout's bounds for the form's own size |
| PopupNotifyOld.Popup.AnimateWindow | PopupNotifyOld.cs:234-258 | with an icon image, one native animation runs with the flag word for (positive, hide); without one, the lock on the image throws and nothing is animated |
| PopupNotifyOld.Popup.MakeRoom | PopupNotifyOld.cs:260-276 | every open popup's Top moves away from the anchored edge by this popup's height; the list is unchanged |
| PopupNotifyOld.Popup.PlaceInCorner | PopupNotifyOld.cs:184-207 | the popup is placed flush with both edges of the tray's corner |
| PopupNotifyOld.Popup.Prepare | PopupNotifyOld.cs:173-182 | the icon box is hidden when there is no image; the popup is laid out, finds the tray and is placed in its corner |
| PopupNotifyOld.Popup.Notify | PopupNotifyOld.cs:173-216 | the open popups are always pushed away by its height; with an icon image it slides in, joins the list and starts its timer; without one the animation throws, so it never joins the list and no timer runs |
| PopupNotifyOld.Popup.Collapse | PopupNotifyOld.cs:278-300 | the popups before this one move by CollapseDelta, the rest keep their Top; this one leaves the list; when it was not in the list, RemoveAt(-1) throws and the list is unchanged |
| PopupNotifyOld.Popup.PullBack | PopupNotifyOld.cs:284-296 | the loop moves exactly the popups before the given position by CollapseDelta |
| PopupNotifyOld.Popup.PaintBackground | PopupNotifyOld.cs:444-450 | after a paint, the gradient brush exists |
| PopupNotifyOld.Popup.Close | PopupNotifyOld.cs:744-758 | closing runs Collapse and disposes the brush; the form closes exactly when the popup was in the list and the brush exists, and the list is collapsed either way |
| PopupNotifyOld.Popup.UnNotify | PopupNotifyOld.cs:218-232 | with an icon image the popup slides out and closes as Close does; without one the animation throws and nothing changes |
| PopupNotifyOld.Popup.DisplayTimerTick | PopupNotifyOld.cs:731-742 | with WaitOnMouseOver set and the cursor inside the popup, only the interval changes, to 1000; otherwise the timer stops and UnNotify runs: with an icon image the popup slides out, leaves the list, the earlier popups move by CollapseDelta and the form closes exactly when it was in the list and the brush exists; without one nothing else changes |
| PopupNotifyOld.ShowStacked | PopupNotifyOld.cs:173-216 | Notify of a popup with an icon image on a stacked open list appends it and keeps the list stacked, the popups touching |
| PopupNotifyOld.CollapsePlacements | PopupNotifyOld.cs:278-300 | the open list after Collapse, seen as placements, is CollapseSpec of the list before |
| PopupNotifyOld.CollapseStacked | PopupNotifyOld.cs:278-300 | on the BottomLeft and TopRight anchors, Collapse on a stacked open list removes the popup and keeps the list stacked |
| PopupNotifyOld.OpenPopups.constructor | PopupNotifyOld.cs:107 | the process starts with no open popups |
| WindowStateManager.WindowSizeLocation.constructor | WindowStateManager.cs:292-297 | a record holds the given window size, window location and screen size |
| WindowStateManager.WithEntries | WindowStateManager.cs:97-103 | writing records never removes a screen size from the table |
| WindowStateManager.WithEntriesKeys | WindowStateManager.cs:97-103 | the Resolutions setter adds exactly the records' screen sizes to the table's keys |
| WindowStateManager.WithEntriesLastWins | WindowStateManager.cs:97-103 | for a screen size written more than once, the last record written is the one stored |
| WindowStateManager.WithEntriesKeepsOthers | WindowStateManager.cs:97-103 | a row whose screen size no record carries keeps its record |
| WindowStateManager.WithEntriesStoredUnderOwnScreen | WindowStateManager.cs:97-103 | writing records under their screen sizes keeps every record under its own screen size |
| WindowStateManager.OffscreenRescue | WindowStateManager.cs:211-229 | as written, a coordinate before the working area is moved to its near edge; one strictly beyond its far edge puts the window flush with that edge; any other coordinate is kept |
| WindowStateManager.OffscreenRescueOnScreen | WindowStateManager.cs:211-229 | as written, the rescue brings a non-empty window onto a non-empty working area exactly when it does not start on the right or bottom edge |
| WindowStateManager.OffscreenRescueMissesRightEdge | WindowStateManager.cs:218-222 | the 10x10 window at (100, 0) misses the working area (0, 0, 100, 100) and the rescue as written leaves it there |
| WindowStateManager.OffscreenRescueIntended | WindowStateManager.cs:211-229 | the corrected rescue also moves in a window that starts exactly on the far edge |
| WindowStateManager.OffscreenRescueIntendedMovesIn | WindowStateManager.cs:218-222 | the corrected rescue moves that window to (90, 0), where it meets the working area |
| WindowStateManager.OffscreenRescueIntendedOnScreen | WindowStateManager.cs:211-229 | the corrected rescue always brings a non-empty window onto a non-empty working area |
| WindowStateManager.WindowStateManager.constructor | WindowStateManager.cs:33-36 | the table starts empty, with no parent and no current record |
| WindowStateManager.WindowStateManager.SetParent | WindowStateManager.cs:42-78 | the current record is a new one for the form on its screen, or the stored one for that screen size, which is then applied to the form in manual placement, with the window state remembered for Load; either way the record is stored under that screen size |
| WindowStateManager.WindowStateManager.GetResolutions | WindowStateManager.cs:85-96 | the array is a new one, with one element per table row, holding that row's record, in the order the keys are enumerated, each key once; when every record is stored under its own screen size, the elements are all different |
| WindowStateManager.WindowStateManager.SetResolutions | WindowStateManager.cs:97-103 | each record of the array is written, in order, under its screen size; when no record is written under the current record's screen size, a consistent manager stays consistent |
| WindowStateManager.WindowStateManager.SetWindowState | WindowStateManager.cs:130-138 | the form takes the current record's location and size and the saved window state; settingState ends lowered |
| WindowStateManager.WindowStateManager.OnResize | WindowStateManager.cs:140-149 | outside SetWindowState, a normal window's size is recorded, and the table's row sees it; otherwise the record is unchanged |
| WindowStateManager.WindowStateManager.OnMove | WindowStateManager.cs:151-172 | outside SetWindowState and on a screen of the record's size, a normal window's location is recorded in the table's row, and the window state is saved unless it is a Minimized state that may not be saved; otherwise nothing changes |
| WindowStateManager.WindowStateManager.OnLoad | WindowStateManager.cs:178-181 | the form takes the window state remembered by the Parent setter |
| WindowStateManager.WindowStateManager.OnDisplaySettingsChanged | WindowStateManager.cs:183-232 | the stored record for the new screen size, or a new stored one from the form (or the previous record when not normal), becomes current; it is rescued when off screen and applied to the form; no other record's location changes |
| WindowStateManager.WindowStateManager.SwitchRecord | WindowStateManager.cs:189-209 | the table's record for the screen size becomes current, or a new one with the form's (or, when not normal, the previous record's) size and location is stored and becomes current |
| WindowStateManager.WindowStateManager.RescueLocation | WindowStateManager.cs:211-229 | the current record's location becomes the rescued location when its rectangle misses the working area, and is kept otherwise |
| WebLinkLabel.OccursIsMarkup | WebLinkLabel.cs:32-37 | for a URL and a link text that fit the groups, a match occurs part by part exactly when the text at its index is "<url=" + URL + ">" + link text + "</url>" |
| WebLinkLabel.MatchAtSound | WebLinkLabel.cs:32-37 | whatever the scanner finds at a position is an occurrence of the pattern there |
| WebLinkLabel.MatchAtComplete | WebLinkLabel.cs:32-37 | wherever the pattern occurs with a URL free of '>' and a link text free of '<', both non-empty, the scanner finds exactly that match |
| WebLinkLabel.Matches | WebLinkLabel.cs:64 | the matches run left to right, each starting at or after the end of the one before, inside the text, with non-empty link text |
| WebLinkLabel.MatchesFound | WebLinkLabel.cs:64 | each listed match is what the pattern gives at its index |
| WebLinkLabel.MatchesLeftmost | WebLinkLabel.cs:64 | no position before the first match holds the pattern, and no position at all when there is no match |
| WebLinkLabel.NoMatchesIffNoPattern | WebLinkLabel.cs:64 | a text has no match exactly when no position holds the pattern |
| WebLinkLabel.ShownText | WebLinkLabel.cs:61-77 | the shown text is shorter than the raw text by the markup of every match: 12 characters plus its URL each |
| WebLinkLabel.LinksFrom | WebLinkLabel.cs:72-74 | one link is added per match |
| WebLinkLabel.LinkSpans | WebLinkLabel.cs:66-74 | every link spans exactly its match's link text in the shown text and carries its URL |
| WebLinkLabel.LinksOrdered | WebLinkLabel.cs:66-74 | every link is non-empty and starts at or after the offset, and each ends no later than the next one starts |
| WebLinkLabel.NoMatchShownUnchanged | WebLinkLabel.cs:61-79 | text without a match is shown unchanged, with no links |
| WebLinkLabel.EmptyLinkTextIsLiteral | WebLinkLabel.cs:33 | "<url=x></url>" is not a link: the group [^<]+ needs a character, so the text shows as it is |
| WebLinkLabel.EmptyUrlIsLiteral | WebLinkLabel.cs:33 | "<url=>t</url>" is not a link: the group [^>]+ needs a character, so the text shows as it is |
| WebLinkLabel.WebLinkLabel.constructor | WebLinkLabel.cs:39 | the label starts with empty raw text, empty shown text and no links of its own (the base class's default link is left out) |
| WebLinkLabel.WebLinkLabel.SetLinkText | WebLinkLabel.cs:53-81 | the raw text is kept, and the loop's shown text and links are those of Rendered, the matches' rendering |
| WebLinkLabel.WebLinkLabel.SetText | WebLinkLabel.cs:90-93 | assigning Text assigns LinkText: the raw text is the value and the label shows its rendering |
| WebLinkLabel.RenderedLinks | WebLinkLabel.cs:53-81 | after LinkText is set there is one link per match, in match order, each non-empty, over its match's link text, carrying its URL and ending before the next starts; the shown text is the raw text less the markup |

## Left out

- Painting is not modelled. This covers the gradient, the border, the close-button bitmaps with their visual-style themes, and the close button's hot, cold and pushed images on mouse enter, leave and down. The .NET 1.1 popup's brush is kept only as a flag, because `Closing` depends on whether it exists.
- Native calls are not modelled beyond their inputs. `SetWindowPos` and `ShowWindow` have no effect in the model. `AnimateWindow` is recorded as the flag word it receives. `SHAppBarMessage` is the `TaskbarQuery` parameter, and `APPBARDATA.Create` is not part of this model.
- `PopupNotify.Popup.AnimateWindow` does not model the `ArgumentException` the .NET 2.0 popup catches around the native call: the call always runs.
- Locks on the open list and on the icon image are not modelled, since the model is single-threaded. The one effect they have is kept: the .NET 1.1 lock throws when there is no image. The `Application.ThreadException` subscription around it is not modelled either.
- Timers are not modelled as running. A popup records its timer interval and whether the timer is enabled, and `DisplayTimerTick` is one tick.
- `Screen.PrimaryScreen.WorkingArea`, `Cursor.Position` and `Screen.FromRectangle` are parameters.
- The .NET 2.0 title label's height comes from the font's metrics, so it is a parameter of `SetLayout`.
- `PopupNotify.Popup.Notify`: the model has the popup not yet in the open list, because Load runs once per form.
- `PopupNotifyOld.Popup.Notify`: the model has the popup not yet in the open list, for the same reason.
- Title, message, icon image and colour properties are plain fields or left out, since they only store values. So are `InitializeComponent`, `Dispose` and the designer code.
- `RECT.GetHashCode` is not modelled. Its 32-bit rotations never affect the layout.
- Strings are sequences of UTF-16 code units, as in .NET: each Dafny `char` of the raw text stands for one code unit, so link starts and lengths count code units. The scanner only compares ASCII delimiters. A Dafny string literal holding a character outside the Basic Multilingual Plane is one `char` where .NET has two code units, so it is not such an input.
- Coordinates are unbounded integers: the framework's 32-bit overflow is not reproduced.
- In `WindowStateManager`, `Save` and `Load` (XML serialisation), the empty `OnClosing` and the parameterless `WindowSizeLocation` constructor used only by the serialiser are not modelled.
- The Parent setter's event subscriptions are not modelled; `OnResize`, `OnMove`, `OnLoad` and `OnDisplaySettingsChanged` are methods the caller invokes. The `Parent` getter, the `WindowState` and `AllowSaveMinimized` accessors, and the unused docking fields are plain fields.
- `WindowStateManager.WindowStateManager.SetWindowState` does not model `Application.DoEvents`, or the Move and Resize events the form raises while it assigns Location and Size. In the code those handlers run with `settingState` raised and change nothing.
- `WebLinkLabel.WebLinkLabel.constructor`: the `LinkLabel` base constructor's default link is not modelled. That link covers the whole text (`LinkArea` (0, -1)) and stays until `LinkText` is first assigned; its length -1 does not fit the `nat` length of `Link`. The model's fresh label has no links, which is what the label holds from its first `LinkText` assignment on.
- In `WebLinkLabel`, `OnLinkClicked` (which launches a browser) and `SuspendLayout`/`ResumeLayout` are not modelled. The `Links` collection is a sequence of (start, length, data) links.
- `WebLinkLabel.Matches` is a hand-written scanner, not a .NET regular-expression engine. `MatchAtSound` and `MatchAtComplete` show that it finds the pattern `<url=(?<url>[^>]+)>(?<link>[^<]+)</url>` exactly where it occurs. The left-to-right, non-overlapping order of `Regex.Matches` is built into `Matches`.

## Findings

| source | as written | input that shows it | evidently intended | confidence | as-written member | corrected member |
|---|---|---|---|---|---|---|
| PopupNotify.cs:301 | the anchor test in Collapse names BottomLeft twice, so on BottomRight the earlier popups move up, away from the corner, when one closes | three 80-pixel popups at the bottom right; closing the middle one moves the oldest 80 pixels further up | `BottomLeft \|\| BottomRight`, as in MakeRoom: pull the earlier popups back towards the anchored edge | high, not executed | PopupNotify.ThreePopupsBottomRight | PopupNotify.CollapseIntendedKeepsStacked |
| PopupNotify.cs:303-307 | Collapse pulls the earlier popups back by Height, while MakeRoom pushed them by Height + 1 | showing and closing one popup on BottomLeft leaves every earlier popup one pixel higher | pull back by Height + spaceBetweenPopups | high, not executed | PopupNotify.ShowThenCloseDrift | PopupNotify.ShowThenCloseIntendedRestores |
| PopupNotifyOld.cs:288 | the same anchor test names BottomLeft twice | showing and closing one popup on BottomRight leaves every earlier popup twice its height higher | `BottomLeft \|\| BottomRight` | high, not executed | PopupNotifyOld.ShowThenCloseDrift | PopupNotifyOld.CollapseIntendedKeepsStacked |
| WindowStateManager.cs:220 | the off-screen rescue tests `X > workingArea.Right`, but Right is exclusive, so a window starting exactly on the right (or, at line 225, bottom) edge is off screen and stays there | working area (0, 0, 100, 100), a 10x10 window at (100, 0) | `>=`, so that the window is moved to (90, 0) | high, not executed | WindowStateManager.OffscreenRescueOnScreen | WindowStateManager.OffscreenRescueIntendedOnScreen |

The classes keep the code as written. The corrected rules are the value-level functions `PopupNotify.CollapseIntended`, `PopupNotifyOld.CollapseIntended` and `WindowStateManager.OffscreenRescueIntended`. Each has its property proved:
- stacking is kept on every anchor;
- a show followed by a close restores the earlier popups;
- every non-empty window is brought back on screen.

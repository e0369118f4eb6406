# Keyboard Jockey overlay core, modelled in Dafny

Keyboard Jockey drives the mouse and window switching from the keyboard. A
hotkey shows a full-screen overlay. The overlay splits every monitor into
labelled cells, and typing a cell's three letters moves the cursor to the
cell's center. A fourth letter `a`–`h` picks one of eight points around
that center. Arrow keys nudge the cursor. Enter clicks. Page Up and Page
Down scroll the window under the cursor. Tab cycles through the top-level
windows, ranked by how much of each one is visible. Typing while cycling
searches the window titles.

This project models the core of `KeyboardJockey.cpp` and proves properties
of it:

- `wrappers.dfy` (`Wrappers`): the `Option` type.
- `geometry.dfy` (`Geometry`): rectangles and exact pixel counting. A
  "region" is a sequence of disjoint rectangles inside a bounding
  rectangle. Subtracting one rectangle from a region gives a region with
  exactly the remaining pixels, and a region's summed area equals its pixel
  count. This is the reference for the GDI region arithmetic in
  `EnumerateAppWindows`.
- `grid.dfy` (`Grid`): labels, sub-point letters, the cell-count cap and
  the grid build (`BuildGridCells`, as nested loops over an accumulating
  cell list and label map).
- `windows.dfy` (`Windows`): the `EnumWindowsProc` inclusion rule, the
  visible-area pass, ranking by visible area, the removal of hidden
  windows, and the case-insensitive title search.
- `keys.dfy` (`Keys`): virtual-key codes and `IsTypingKey`.
- `overlay.dfy` (`Overlay`): the overlay's global variables as one `State`
  record, held in the field `st` of class `Overlay`. Its methods are the
  source's functions (`ShowGrid`, `HideGrid`, `ExitScrollMode`,
  `MoveMouseByArrowKey`, `ProcessTypedChar`, `CycleHighlight`, …) and the
  window-message handlers (`OnKeyDown`, `OnChar`, `OnKeyUp`,
  `OnKillFocus`, `OnTimer`, `OnHotkey`). Each method updates `st` in place
  and returns the OS effects it requests, in order, as a list of `Command`
  values. Each key and character handler is proved equal to a function of
  the old state (`KeyDownStep`, `CharStep` and the step functions they are
  built from), and lemmas about those functions state what a key does.
  OS queries (modifier keys, cursor position, the current window list)
  arrive as an `Env` parameter.

Every `Overlay` method that changes `st` requires and keeps the class
invariant `Valid()`, except three inner steps that run while it is briefly
broken: `DropHighlight` and `LeaveMouseMove` inside `AcceptLetter`, and the
list refresh `EnumerateAppWindows` inside `CycleHighlight`. `Valid()` says:

- at most three typed lower-case letters;
- a highlight of -1 or an index into the offered window lists;
- offered lists no longer than the full lists;
- scroll mode only while the overlay is input-transparent;
- a grid whose labels are distinct and mapped to their centers.

Notable behaviour of the code:

- When columns equal rows, the cap loop removes a row, not a column.
- The grid is built once at start-up (`WM_CREATE`, line 2491), not each
  time it is shown.
- Sub-point 4 is not the cell's center in general: the cell
  0..86 × 0..86 has center (43, 43) but sub-point 4 at (42, 42)
  (`Grid.SubPointFourIsNotCenter`).
- The ranking uses `std::sort`, which is not stable. The model proves only
  what any correct sort gives: sorted, a permutation, and the area sequence
  fixed (`Windows.RankingAreasDetermined`).
- An empty search query leaves the lists as they are. It does not empty
  them.
- Hiding the grid by Escape, the hotkey or focus loss ends scroll mode but
  leaves the overlay input-transparent. Only `ExitScrollMode` clears that
  style (`Overlay.ScrollModeEndings`).

## Model

| member | source | states |
|---|---|---|
| Grid.Prefix | KeyboardJockey.cpp:531 | monitor i gets the prefix letter 'a' + i |
| Grid.GenerateLabel | KeyboardJockey.cpp:537-548 | a label starts with the monitor prefix; it has three letters exactly when the index is below 676, otherwise it is the prefix alone |
| Grid.LabelRoundTrip | KeyboardJockey.cpp:537-548 | for an index below 676, both code letters are in a–z and decoding them gives back the index |
| Grid.LabelsDistinct | KeyboardJockey.cpp:537-548 | different indices below 676 get different labels |
| Grid.GetSubPointIndex | KeyboardJockey.cpp:1331-1340 | the result is in 0..8, and it is 4 exactly for characters outside a–h |
| Grid.SubLabelRoundTrip | KeyboardJockey.cpp:1331-1340 | a–h and the eight outer sub-point indices map to each other one to one |
| Grid.SubPointIndexInjective | KeyboardJockey.cpp:1331-1340 | different letters a–h select different sub-points |
| Grid.CapGrid | KeyboardJockey.cpp:569-571 | the shrink loop ends at the closed form CappedDims |
| Grid.CappedDimsStep | KeyboardJockey.cpp:569-571 | one shrink step (the larger side, rows on a tie) does not change where the loop ends |
| Grid.CappedDimsSpec | KeyboardJockey.cpp:564-571 | the capped grid is at least 1 × 1, no larger than the uncapped one, and at most 676 cells; it is unchanged when it already fits; it is maximal, since one more column or row would exceed 676 |
| Grid.LayoutOf | KeyboardJockey.cpp:560-576 | a monitor's grid has at least one column and row and at most 676 cells |
| Grid.LayoutFits | KeyboardJockey.cpp:560-576 | on a non-empty monitor, columns and rows fit in the width and height, and the cell and sub-cell sizes are the floor divisions |
| Grid.BuildGridCells | KeyboardJockey.cpp:550-607 | the built cell list is every monitor's cells in order, and the label map is the map those cells define |
| Grid.AppendMonitorCells | KeyboardJockey.cpp:559-606 | one monitor's pass appends exactly that monitor's cells and keeps the map in step |
| Grid.AppendCells | KeyboardJockey.cpp:578-605 | the row loop appends the monitor's cells in row-major order and keeps the map in step |
| Grid.AppendRow | KeyboardJockey.cpp:580-604 | one row appends the next cols cells and advances the index by cols |
| Grid.BuildCell | KeyboardJockey.cpp:581-599 | the cell built at (row, col) is cell number row * cols + col of the monitor |
| Grid.ComputeSubPoints | KeyboardJockey.cpp:593-599 | the 3 × 3 loop yields the nine sub-points in row-major order |
| Grid.CellsInsideMonitor | KeyboardJockey.cpp:582-599 | every cell of a non-empty monitor is a non-empty rectangle inside the monitor that holds its center and all nine sub-points |
| Grid.CellFits | KeyboardJockey.cpp:582-599 | the same for the cell at any (row, col) of a layout that divides the monitor |
| Grid.MonitorCellShape | KeyboardJockey.cpp:578-603 | a monitor has cols × rows ≤ 676 cells; cell k sits at row k / cols and column k % cols and carries label index k |
| Grid.AllCellsLabels | KeyboardJockey.cpp:550-607 | all labels have three letters and a prefix of an enumerated monitor, all labels are distinct, and every cell has nine sub-points |
| Grid.LabelMapLookup | KeyboardJockey.cpp:602 | the label map sends each cell's label to its center and has no other keys |
| Grid.FirstCellSpec | KeyboardJockey.cpp:1407-1418 | the search finds nothing exactly when no cell has the label; otherwise it returns the first cell that has it |
| Grid.FindCell | KeyboardJockey.cpp:1407-1418 | the loop with break returns the index of that first cell |
| Grid.FirstCellAgreesWithMap | KeyboardJockey.cpp:1407-1426 | with distinct labels, the linear search and the map lookup find the same cell center |
| Grid.FindAgreesWithMap | KeyboardJockey.cpp:601-602 | with distinct labels, the map holds each cell's center and no other cell shares its label |
| Grid.FullHdExample | KeyboardJockey.cpp:550-607 | one 1920 × 1080 monitor at 96 DPI gets a 22 × 12 grid of 87 × 90 cells; cell "aaa" is centered at (43, 45) and its sub-point e is (72, 45) |
| Grid.SubPointFourIsNotCenter | KeyboardJockey.cpp:586-597 | on an 860 × 860 monitor, the first cell's center is (43, 43) but its sub-point 4 is (42, 42) |
| Geometry.SubtractSpec | KeyboardJockey.cpp:1116 | q minus a is a region inside q that covers exactly the pixels of q outside a |
| Geometry.RegionMinusSpec | KeyboardJockey.cpp:1113-1118 | subtracting a from a region keeps it a region and removes exactly the pixels of a |
| Geometry.RegionPixels | KeyboardJockey.cpp:1127-1130 | the summed area of a region's rectangles equals its pixel count |
| Geometry.VisiblePixelsBounds | KeyboardJockey.cpp:1108-1134 | a window's visible pixels are at most its area, and all of it when nothing is above |
| Windows.FetchTitle | KeyboardJockey.cpp:1058-1059 | the title read is a prefix of the real one, at most 255 characters long, and all of it when it fits |
| Windows.Classify | KeyboardJockey.cpp:1050-1098 | a window is skipped exactly when it is the application's own, invisible, untitled, a tool window, or neither minimized nor of positive size; a kept window is minimized exactly when iconic; it is recorded with its handle, rectangle, title and area 0 |
| Windows.CollectedMembers | KeyboardJockey.cpp:1101-1104 | the two lists hold exactly the windows the rule accepts as normal or as minimized, and together are no longer than the snapshot |
| Windows.CollectedWindows | KeyboardJockey.cpp:1050-1098 | collected windows are never the application's own and always titled, and normal ones have a non-empty rectangle |
| Windows.CollectWindows | KeyboardJockey.cpp:1102-1104 | the enumeration loop fills both lists in Z-order as the rule decides |
| Windows.VisibleRegionSpec | KeyboardJockey.cpp:1109-1118 | the region left after subtracting the windows above is inside the window and covers exactly its pixels that no window above covers |
| Windows.VisibleRegionArea | KeyboardJockey.cpp:1109-1133 | the summed area of that region is the window's visible pixel count |
| Windows.SubtractAll | KeyboardJockey.cpp:1110-1118 | the subtraction loop computes that region |
| Windows.SumAreas | KeyboardJockey.cpp:1123-1133 | the summing loop computes the region's total area |
| Windows.VisibleAreaOf | KeyboardJockey.cpp:1109-1134 | a window's computed area is the number of its pixels no window above it covers |
| Windows.ComputeVisibleAreas | KeyboardJockey.cpp:1108-1136 | the area pass sets each window's visibleArea to its visible pixel count over the windows before it |
| Windows.VisibleAreaBounds | KeyboardJockey.cpp:1108-1136 | the pass changes only visibleArea; each area lies between 0 and the window's area, and the front window keeps its whole area |
| Windows.OverlapExample | KeyboardJockey.cpp:1108-1136 | a 100 × 100 window at the front shows 10000 pixels; a 100 × 100 window behind it, offset by (50, 50), shows 7500 |
| Windows.VisibleAreasSum | KeyboardJockey.cpp:1108-1136 | the visible areas of a window stack, each counted under the windows before it, add up to exactly the number of pixels of the windows' union, so never to more than the area of a box holding them |
| Windows.InsertPerm | KeyboardJockey.cpp:1139-1142 | inserting a window adds exactly that window |
| Windows.InsertSorted | KeyboardJockey.cpp:1139-1142 | inserting into a list sorted by descending area keeps it sorted |
| Windows.SortByVisibleArea | KeyboardJockey.cpp:1139-1142 | the result is sorted by descending visible area and is a permutation of the input |
| Windows.RankingAreasDetermined | KeyboardJockey.cpp:1139-1142 | any two sorted permutations of the same windows have the same area at every position, so only equal-area windows can trade places |
| Windows.KeepMembers | KeyboardJockey.cpp:1151-1154 | the filter keeps exactly the elements that pass, and no more elements than it was given |
| Windows.KeepIsSubsequence | KeyboardJockey.cpp:1151-1154 | the kept elements appear in their original order |
| Windows.KeepIdempotent | KeyboardJockey.cpp:1169-1175 | filtering twice by the same test equals filtering once |
| Windows.KeepSorted | KeyboardJockey.cpp:1151-1154 | filtering a list sorted by area keeps it sorted |
| Windows.KeepShown | KeyboardJockey.cpp:1151-1154 | the erase/remove_if pass leaves exactly the windows with positive visible area, in order |
| Windows.LowerChar | KeyboardJockey.cpp:1166 | A–Z become a–z; every other character is unchanged; no upper-case letter is left |
| Windows.Lower | KeyboardJockey.cpp:1171 | lower-casing a string maps each character and keeps the length |
| Windows.LowerIdempotent | KeyboardJockey.cpp:1171 | lower-casing twice equals lower-casing once |
| Windows.ContainsSpec | KeyboardJockey.cpp:1172 | the substring test holds exactly when the query occurs at some position of the title |
| Windows.TitleMatchesIgnoresCase | KeyboardJockey.cpp:1165-1172 | the match does not depend on the case of the query |
| Windows.EmptyQueryMatchesAll | KeyboardJockey.cpp:1172 | the empty query occurs in every title |
| Windows.FilterByTitle | KeyboardJockey.cpp:1168-1175 | the filter loop keeps, in order, the windows whose lower-cased title contains the lower-cased query |
| Windows.EnumerateAppWindows | KeyboardJockey.cpp:1101-1155 | the full list is the collected normal windows with their visible areas, sorted by descending area; the cycling list is its windows with positive area, still sorted; both minimized lists are the collected minimized windows |
| Keys.IsTypingKey | KeyboardJockey.cpp:466-490 | a key counts as typing exactly when its code is not in the table of 11 modifiers, 6 lock and print keys and 24 function keys |
| Keys.OrdinaryKeysType | KeyboardJockey.cpp:466-490 | letters, digits, Space, Enter, Backspace, Tab, Escape and the arrows count as typing |
| Overlay.NextHighlight | KeyboardJockey.cpp:1203-1213 | a step from -1 or any window index stays in range; forward wraps from the last window to the first, and back wraps from the first (or none) to the last |
| Overlay.CycleInverse | KeyboardJockey.cpp:1203-1213 | Shift+Tab undoes Tab and Tab undoes Shift+Tab |
| Overlay.CycleForwardPeriod | KeyboardJockey.cpp:1203-1213 | from any highlighted window, n Tab presses (0 < n ≤ total) come back to it exactly when n is the number of windows |
| Overlay.TargetOf | KeyboardJockey.cpp:2179-2186 | the highlight names a window exactly when it is in range: first the normal windows, then the minimized ones |
| Overlay.HideIdempotent | KeyboardJockey.cpp:1283-1306 | hiding twice is hiding once and the second time requests nothing; after hiding, no mode is on and nothing is typed |
| Overlay.ScrollModeEndings | KeyboardJockey.cpp:274-285 | leaving scroll mode by a key clears the input-transparent style; hiding the grid directly ends scroll mode but keeps the style |
| Overlay.ResolutionTargets | KeyboardJockey.cpp:1402-1428 | on the built grid, a cell's label moves the cursor to its center; a fourth letter a–h moves it to that sub-point, and any other fourth letter to the center; a buffer naming no cell moves nothing |
| Overlay.TypingFirstCell | KeyboardJockey.cpp:1402-1428 | "aaa" goes to the center of the cell labelled aaa, and "aaae" to its sub-point e |
| Overlay.TypingExample | KeyboardJockey.cpp:1402-1428 | on one 1920 × 1080 monitor at 96 DPI, "aaa" moves the cursor to (43, 45) and "aaae" to (72, 45) |
| Overlay.AfterLetterOk | KeyboardJockey.cpp:1378-1420 | a label letter keeps the state consistent; the buffer grows by the letter, or is emptied on the fourth |
| Overlay.StepSize | KeyboardJockey.cpp:2248-2250 | an arrow moves 1 pixel with Shift, else 50 with Ctrl, else 10 |
| Overlay.EscapeHides | KeyboardJockey.cpp:2163-2255 | Escape hides the grid in every mode, scroll mode included |
| Overlay.SwitchingIgnoresOtherKeys | KeyboardJockey.cpp:2170-2243 | in window-switching mode every key other than Escape, Enter, Tab and Backspace changes nothing and asks nothing |
| Overlay.TabStartsSwitching | KeyboardJockey.cpp:2320-2323 | Tab in grid mode, with a window to offer, enters window switching with the first window highlighted (the last with Shift), keeps the typed letters, and restarts the text-mode timer |
| Overlay.TabCycles | KeyboardJockey.cpp:2212-2216 | outside scroll mode, a search and text mode, Tab is the CycleHighlight step (back with Shift) in window-switching and grid mode alike |
| Overlay.TabShiftTabRoundTrip | KeyboardJockey.cpp:2212-2216 | while cycling, Shift+Tab after Tab, and Tab after Shift+Tab, give back the state before |
| Overlay.ShiftPeekRoundTrip | KeyboardJockey.cpp:2268-2274 | in grid mode, pressing Shift changes no state and dims the overlay to the peek opacity, fainter than the grid unless the overlay is invisible for mouse moves; releasing Shift restores the mode's opacity |
| Overlay.EnterClicksTypedCell | KeyboardJockey.cpp:2300-2318 | after typing a cell's label, Enter moves the cursor to the cell's center, hides the grid, waits and clicks |
| Overlay.LetterTyped | KeyboardJockey.cpp:2398-2410 | a lower-case letter in grid mode, outside scroll mode, is handled as a label letter |
| Overlay.TypingLabelMovesCursor | KeyboardJockey.cpp:2406-2410 | typing a cell's three label letters from an empty buffer in grid mode leaves the label in the buffer and, at the third letter, moves the cursor to the cell's center |
| Overlay.Overlay.constructor | KeyboardJockey.cpp:2484-2495 | at start-up every flag is off, nothing is typed or highlighted, and the grid is built over the monitors |
| Overlay.Overlay.ShowGrid | KeyboardJockey.cpp:1252-1280 | showing when already shown does nothing; otherwise the cursor is restored if hidden, the buffer is cleared, mouse-move mode ends, the overlay is set to grid opacity and shown |
| Overlay.Overlay.HideGrid | KeyboardJockey.cpp:1283-1306 | hiding clears the whole grid session (typed letters, highlight, search, text mode, all four lists, scroll mode) and stops the text-mode timer; hiding when hidden does nothing |
| Overlay.Overlay.ExitScrollMode | KeyboardJockey.cpp:274-285 | outside scroll mode nothing happens; inside, the input-transparent style and the mouse watcher are removed and the grid is hidden |
| Overlay.Overlay.MoveMouseByArrowKey | KeyboardJockey.cpp:1358-1369 | the cursor moves by (dx, dy); on entering mouse-move mode the overlay becomes invisible |
| Overlay.Overlay.ProcessTypedChar | KeyboardJockey.cpp:1372-1432 | a character that is not a letter after lower-casing, or any character while hidden, does nothing; a letter ends highlighting and mouse-move mode, restarts the reset timer, moves the cursor as its buffer resolves, and empties the buffer on the fourth letter |
| Overlay.Overlay.AcceptLetter | KeyboardJockey.cpp:1378-1431 | the letter branch of ProcessTypedChar, with the same state and effects |
| Overlay.Overlay.DropHighlight | KeyboardJockey.cpp:1382-1387 | a letter typed while a window is highlighted clears the highlight and the cycling list and restores grid opacity |
| Overlay.Overlay.LeaveMouseMove | KeyboardJockey.cpp:1390-1393 | a letter ends mouse-move mode and restores grid opacity |
| Overlay.Overlay.ResolveTyped | KeyboardJockey.cpp:1402-1428 | the cursor move is the one the buffer resolves to |
| Overlay.Overlay.EnumerateAppWindows | KeyboardJockey.cpp:1101-1155 | the four lists are replaced by the enumeration of a desktop snapshot and nothing else changes |
| Overlay.Overlay.FilterAppWindowsBySearch | KeyboardJockey.cpp:1157-1195 | with no search, nothing changes; otherwise both offered lists are the full lists filtered by the search, and the first match is highlighted |
| Overlay.Overlay.RestoreLists | KeyboardJockey.cpp:2222-2236 | back from a search, the offered lists are all windows in text mode, or only the visible ones otherwise, plus all minimized ones; the first is highlighted |
| Overlay.Overlay.CycleHighlight | KeyboardJockey.cpp:1197-1219 | equals CycleStep: with both offered lists empty, the lists are first replaced by the enumeration of the desktop; with no window, nothing more happens; otherwise the highlight steps with wrap, text mode ends, the overlay turns see-through and the text-mode timer restarts |
| Overlay.Overlay.ActivateHighlighted | KeyboardJockey.cpp:2177-2195 | with no highlighted window nothing happens; otherwise the grid hides, then after a delay the window is activated and restored if minimized |
| Overlay.Overlay.LeaveTextSearch | KeyboardJockey.cpp:2198-2212 | Tab during a search or text mode returns to cycling the visible windows, without minimized ones, highlighting the first |
| Overlay.Overlay.EnterTextMode | KeyboardJockey.cpp:2461-2471 | text mode offers every window of the full lists and highlights the first if there is one |
| Overlay.Overlay.HideCursor | KeyboardJockey.cpp:2275-2280 | Space hides the cursor unless it is already hidden |
| Overlay.Overlay.HideGridAndCursor | KeyboardJockey.cpp:2275-2280 | Space hides the grid, then the cursor |
| Overlay.Overlay.ClickAtTyped | KeyboardJockey.cpp:2300-2318 | Enter moves to the typed cell's center if three letters name one, hides the grid, waits, and clicks (right with Ctrl) |
| Overlay.Overlay.ScrollPage | KeyboardJockey.cpp:2348-2373 | Page Up or Page Down enters scroll mode once (overlay input-transparent, mouse watched) and scrolls three notches up or down |
| Overlay.Overlay.SearchBackspace | KeyboardJockey.cpp:2219-2239 | Backspace drops the last search letter; an emptied search restores the unfiltered lists, a shorter one filters again; with no search nothing changes |
| Overlay.Overlay.TabModeKeyDown | KeyboardJockey.cpp:2171-2243 | equals TabModeStep: Escape hides; Enter with a highlighted window hides, waits, activates it and restores it if minimized, and with none does nothing; Tab leaves a search or text mode, or else cycles (enumerating first when no window is offered); Backspace shortens the search and restores or re-filters the lists; any other key changes nothing and asks nothing |
| Overlay.Overlay.TabModeListKey | KeyboardJockey.cpp:2196-2243 | equals TabListStep: Tab as in TabInTabMode; Backspace gives AfterSearchBackspace (shorter search, then the unfiltered lists or the lists filtered again, first window highlighted) with no command; other keys change nothing |
| Overlay.Overlay.TabInTabMode | KeyboardJockey.cpp:2196-2218 | equals TabStep: during a search or text mode, back to cycling the visible windows (first highlighted, minimized ones dropped, every other field unchanged, see-through overlay, timer restarted); otherwise the CycleHighlight outcome, back with Shift |
| Overlay.Overlay.GridModeKeyDown | KeyboardJockey.cpp:2247-2376 | equals GridStep: Escape hides; an arrow moves the cursor by 1, 50 or 10 pixels (Shift, Ctrl, neither) and, on entering mouse-move mode, makes the overlay invisible; the other keys as in GridModeActionKey |
| Overlay.Overlay.GridModeActionKey | KeyboardJockey.cpp:2268-2373 | equals GridActionStep: Shift sets the peek opacity and changes no state; Space hides the grid and then the cursor; Enter moves to the typed cell's center if three letters name one, hides, waits and clicks (right with Ctrl); Tab is the CycleHighlight outcome, enumerating first when no window is offered; the rest as in GridModeEditKey |
| Overlay.Overlay.GridModeEditKey | KeyboardJockey.cpp:2325-2373 | equals GridEditStep: Backspace drops the last typed letter; Page Up and Page Down enter scroll mode once and scroll three notches; other keys change nothing |
| Overlay.Overlay.OnKeyDown | KeyboardJockey.cpp:2163-2376 | equals KeyDownStep for every key and mode: in scroll mode a key other than the paging keys and Escape leaves scroll mode; otherwise the key is handled as in window-switching mode or as in grid mode; a Tab that cycles from empty lists leaves the lists of an enumeration of the desktop |
| Overlay.Overlay.OnChar | KeyboardJockey.cpp:2378-2413 | equals CharStep for every character and mode: typing leaves scroll mode; '*' while highlighting or searching outside text mode enters text mode; a letter extends the search and filters the lists in window-switching mode, and otherwise is a label letter as in ProcessTypedChar (nothing while the grid is hidden); any other character, '*' included, does nothing |
| Overlay.Overlay.OnKeyUp | KeyboardJockey.cpp:2415-2426 | releasing Shift outside highlighting sets the opacity of the current mode, ModeAlpha (see ShiftPeekRoundTrip); any other key-up asks nothing |
| Overlay.Overlay.OnKillFocus | KeyboardJockey.cpp:2428-2431 | losing focus hides the grid |
| Overlay.Overlay.OnTimer | KeyboardJockey.cpp:2433-2474 | the reset timer clears a search (restoring the lists) or else the typed letters; the text-mode timer turns a highlighting session into text mode; both stop themselves |
| Overlay.Overlay.OnHotkey | KeyboardJockey.cpp:2497-2505 | the show-grid hotkey toggles the grid; any other hotkey does nothing |

## Left out

- Rendering: painting, fonts, the palette dialog, the cached grid bitmap, `InvalidateRect`, `UpdateWindow` and `SetCursor` calls. They change no modelled state.
- Tray icon, context menu, hotkey registration, and `WinMain`'s message loop.
- The global keyboard hook, the mouse hook and the animated cursor restore (lines 287-464 and 492-521). `IsTypingKey` is modelled; the hooks that call it and that set `cursorHidden` are not.
- `ScrollMouseProc` (line 267): mouse movement ending scroll mode. Its effect is `Overlay.Overlay.ExitScrollMode`, which is modelled.
- Monitor enumeration and the DPI query, with its fallback to 96 DPI. The monitors arrive as a parameter of the `Overlay.Overlay.constructor`. `Grid.ValidMonitors` asks for fewer than 0xD700 monitors, so that every prefix `'a' + i` is a character, and for DPI values that give a positive cell size. From the 27th monitor on, the prefixes are not letters, as in the source (line 531).
- Window handles are integers. `Overlay.Overlay.ActivateHighlighted`: the NULL-handle guard of lines 2186 and 2290 is not modelled, because enumerated handles are never NULL.
- `RestoreIfMinimized` stands for the `IsIconic` test and `SW_RESTORE` of lines 2190-2193. Whether the window is minimized at that moment is the OS's answer.
- Windows.EnumerateAppWindows: the sort is modelled as an insertion sort over a sequence, not in place. Its contract states sorted-and-permutation and not the order of ties, because `std::sort` is unstable.
- Windows.LowerChar: lower-cases A–Z only; `towlower` also maps letters outside ASCII.
- Windows.VisibleAreaOf: integers are unbounded. The 32-bit `int` sum of line 1129 could overflow on huge rectangles, and that is not modelled.
- Grid.LayoutOf: integers are unbounded, so 32-bit overflow of `cols * rows` and of the DPI scaling is not modelled.
- The grid-mode Enter branch that activates a highlighted window (lines 2282-2299) and the grid-mode Backspace branch that edits a search (lines 2327-2341) are left out. Grid mode is entered only with no highlight and no search, so they never run. `Overlay.Overlay.GridModeKeyDown` requires a negative highlight for the same reason.
- Overlay.Overlay.ClickAtTyped: the Ctrl state is read after the 50 ms sleep in the source (line 2313). The model reads it from the key event's `Env`.
- `Sleep` is a `Sleep(ms)` command. Timers are `StartTimer` and `StopTimer` commands, and their firing is a call to `Overlay.Overlay.OnTimer`.
- `ProcessTypedChar`'s guard on the overlay window existing (line 1396) is taken as always true, because the overlay exists whenever the grid is shown.

/** The overlay's mode state machine. The mode is implicit in a handful of
    flags, the typed-label buffer, the window-search string, the highlight
    index and the four window lists; the window-message handlers update them
    and emit the effects they ask of the OS as Command values. */
module Overlay {
  import opened Geometry
  import opened Wrappers
  import opened Grid
  import opened Windows
  import opened Keys

  const TimerReset := 1
  const TimerTabText := 2
  const ResetTimeoutMs := 3000
  const TabTextTimeoutMs := 4000
  const GridAlpha := 160
  const MouseMoveAlpha := 0
  const ShiftPeekAlpha := 51
  const ActivationDelayMs := 50
  const WheelDelta := 120
  const HotkeyShowGrid := 1

  /** An effect a handler asks of the OS, in the order it asks. */
  datatype Command =
    | ShowOverlay                      // show, bring to front and focus the overlay
    | HideOverlay
    | SetAlpha(alpha: int)             // whole-window opacity, 0 to 255
    | SetColorKey                      // background colour fully transparent
    | SetColorKeyAlpha(alpha: int)     // background transparent, the rest at alpha
    | SetInputTransparent(on: bool)    // mouse input passes through the overlay
    | WatchMouse(on: bool)             // scroll-mode mouse hook installed or removed
    | MoveCursor(to: Point)
    | Click(right: bool)
    | Wheel(delta: int)
    | Sleep(ms: int)
    | Activate(hwnd: int)              // bring a window to the foreground
    | RestoreIfMinimized(hwnd: int)
    | StartTimer(id: int, ms: int)
    | StopTimer(id: int)
    | HideSystemCursor
    | RestoreSystemCursors

  /** What a key handler asks the OS when it runs: modifier state, cursor
      position, and the top-level windows front to back. */
  datatype Env = Env(shiftDown: bool, ctrlDown: bool, cursor: Point, windows: seq<WindowInfo>)

  /** The overlay's global variables: the mode flags, the typed label
      letters, the window search string, the highlight index (-1 for none),
      the windows offered for switching and the full lists they are drawn
      from. */
  datatype State = State(gridVisible: bool, mouseMoveMode: bool, scrollMode: bool, tabTextMode: bool,
                         cursorHidden: bool, inputTransparent: bool, typed: string, search: string,
                         highlight: int, app: seq<AppWindow>, allApp: seq<AppWindow>,
                         minimized: seq<AppWindow>, allMinimized: seq<AppWindow>)

  /** The globals at start-up. */
  const Initial := State(false, false, false, false, false, false, [], [], -1, [], [], [], [])

  /** What every handler keeps: at most three typed lower-case letters; a
      highlight that is -1 or names a window of the two offered lists; the
      offered lists no longer than the full lists; and scroll mode only while
      mouse input passes through the overlay. */
  predicate StateOk(s: State) {
    |s.typed| <= 3 && (forall k :: 0 <= k < |s.typed| ==> 'a' <= s.typed[k] <= 'z') &&
    -1 <= s.highlight < |s.app| + |s.minimized| &&
    |s.app| <= |s.allApp| && |s.minimized| <= |s.allMinimized| &&
    (s.scrollMode ==> s.inputTransparent)
  }

  /** The window-switching mode: a window is highlighted, the all-windows
      text mode is on, or a search is being typed. */
  predicate InTabMode(s: State) {
    s.highlight >= 0 || s.tabTextMode || s.search != []
  }

  /** Cursor step of an arrow key: 1 pixel with Shift, else 50 with Ctrl,
      else 10. */
  function StepSize(shift: bool, ctrl: bool): (step: int)
    ensures shift ==> step == 1
    ensures !shift && ctrl ==> step == 50
    ensures !shift && !ctrl ==> step == 10
  {
    if shift then 1 else if ctrl then 50 else 10
  }

  /** Offset of an arrow key, scaled by the step. */
  function ArrowOffset(vk: int, step: int): (int, int) {
    if vk == VkLeft then (-step, 0)
    else if vk == VkRight then (step, 0)
    else if vk == VkUp then (0, -step)
    else (0, step)
  }

  // ---------------------------------------------------------------------
  // Highlight cycling

  /** One step of the highlight over total windows, wrapping at both ends. */
  function NextHighlight(h: int, total: int, forward: bool): (r: int)
    requires total > 0
    ensures -1 <= h < total ==> 0 <= r < total
    ensures forward && h == total - 1 ==> r == 0
    ensures !forward && h <= 0 ==> r == total - 1
  {
    if forward then (if h + 1 >= total then 0 else h + 1)
    else (if h - 1 < 0 then total - 1 else h - 1)
  }

  /** A step back undoes a step forward and the other way round. */
  lemma CycleInverse(h: int, total: int)
    requires 0 <= h < total
    ensures NextHighlight(NextHighlight(h, total, true), total, false) == h
    ensures NextHighlight(NextHighlight(h, total, false), total, true) == h
  {
  }

  /** n steps forward. */
  function CycleForward(h: int, total: int, n: nat): int
    requires total > 0
  {
    if n == 0 then h else NextHighlight(CycleForward(h, total, n - 1), total, true)
  }

  /** Before the end of the list, n steps forward move n places. */
  lemma {:induction false} CycleForwardNoWrap(h: int, total: int, n: nat)
    requires 0 <= h && h + n < total
    ensures CycleForward(h, total, n) == h + n
  {
    if n > 0 {
      CycleForwardNoWrap(h, total, n - 1);
    }
  }

  /** a steps then b steps are a + b steps. */
  lemma {:induction false} CycleForwardSplit(h: int, total: int, a: nat, b: nat)
    requires total > 0
    ensures CycleForward(h, total, a + b) == CycleForward(CycleForward(h, total, a), total, b)
  {
    if b > 0 {
      CycleForwardSplit(h, total, a, b - 1);
    }
  }

  /** Tab pressed as many times as there are windows comes back to the
      highlighted window, and no smaller number of presses does. */
  lemma CycleForwardPeriod(h: int, total: int, n: nat)
    requires 0 <= h < total && 0 < n <= total
    ensures CycleForward(h, total, n) == h <==> n == total
  {
    if h + n < total {
      CycleForwardNoWrap(h, total, n);
    } else {
      var toEnd := total - 1 - h;
      CycleForwardNoWrap(h, total, toEnd);
      assert CycleForward(h, total, toEnd + 1) == 0;
      var rest := n - (toEnd + 1);
      CycleForwardSplit(h, total, toEnd + 1, rest);
      CycleForwardNoWrap(0, total, rest);
    }
  }

  /** Highlight after a list change: the first window if there is any. */
  function FirstHighlight(app: seq<AppWindow>, minimized: seq<AppWindow>): int {
    if app != [] then 0 else if minimized != [] then 0 else -1
  }

  /** The window Enter activates: highlight indices run over the normal
      windows, then on into the minimized ones. */
  function TargetOf(app: seq<AppWindow>, minimized: seq<AppWindow>, h: int): (t: Option<int>)
    ensures t.Some? <==> 0 <= h < |app| + |minimized|
    ensures 0 <= h < |app| ==> t == Some(app[h].hwnd)
    ensures |app| <= h < |app| + |minimized| ==> t == Some(minimized[h - |app|].hwnd)
  {
    if h >= 0 && h < |app| then Some(app[h].hwnd)
    else if h >= |app| && h - |app| < |minimized| then Some(minimized[h - |app|].hwnd)
    else None
  }

  // ---------------------------------------------------------------------
  // Hiding

  /** The state after hiding the grid: everything the grid session held is
      cleared. The input-transparent style and the cursor flag are kept. */
  function AfterHide(s: State): State {
    if !s.gridVisible then s
    else s.(gridVisible := false, mouseMoveMode := false, typed := [], app := [], allApp := [],
            minimized := [], allMinimized := [], highlight := -1, search := [],
            tabTextMode := false, scrollMode := false)
  }

  function HideCommands(s: State): seq<Command> {
    if !s.gridVisible then []
    else [HideOverlay, StopTimer(TimerTabText)] + (if s.scrollMode then [WatchMouse(false)] else [])
  }

  /** Hiding twice is hiding once, and the second time asks nothing of the
      OS; after hiding, no mode is left on. */
  lemma HideIdempotent(s: State)
    ensures AfterHide(AfterHide(s)) == AfterHide(s) && HideCommands(AfterHide(s)) == []
    ensures s.gridVisible ==> !InTabMode(AfterHide(s)) && !AfterHide(s).scrollMode &&
                              !AfterHide(s).mouseMoveMode && AfterHide(s).typed == []
  {
  }

  /** Leaving scroll mode by a key: the overlay takes input again, then hides. */
  function AfterExitScroll(s: State): State {
    if !s.scrollMode then s
    else AfterHide(s.(scrollMode := false, inputTransparent := false))
  }

  function ExitScrollCommands(s: State): seq<Command> {
    if !s.scrollMode then []
    else [SetInputTransparent(false), WatchMouse(false)] + HideCommands(s.(scrollMode := false, inputTransparent := false))
  }

  /** Scroll mode ends in two ways. Leaving it by typing or by a key other
      than Page Up, Page Down and Escape clears the input-transparent style;
      Escape, focus loss and the hotkey hide the grid directly, which ends
      scroll mode but leaves the style set. */
  lemma ScrollModeEndings(s: State)
    requires s.gridVisible && s.scrollMode && s.inputTransparent
    ensures !AfterExitScroll(s).scrollMode && !AfterExitScroll(s).inputTransparent
    ensures !AfterHide(s).scrollMode && AfterHide(s).inputTransparent
  {
  }

  // ---------------------------------------------------------------------
  // Typed labels

  /** Where a buffer of typed letters sends the cursor: three letters that
      name a cell go to its center; a fourth letter picks a point inside the
      first cell named by the first three. */
  function Resolution(cells: seq<GridCell>, gridMap: map<string, Point>, t: string): seq<Command>
    requires forall i :: 0 <= i < |cells| ==> |cells[i].subPoints| == 9
  {
    if |t| == 4 then
      match FirstCell(cells, t[..3])
      case None => []
      case Some(c) => [MoveCursor(SubTarget(c, t[3]))]
    else if |t| == 3 && t in gridMap then [MoveCursor(gridMap[t])]
    else []
  }

  /** On the built grid, typing a cell's label moves the cursor to its
      center, and a fourth letter a to h moves it to the matching outer
      sub-point (any other fourth letter, to the center); a buffer naming no
      cell moves nothing. */
  lemma ResolutionTargets(cells: seq<GridCell>, i: int, t: string)
    requires DistinctLabels(cells) && forall k :: 0 <= k < |cells| ==> |cells[k].subPoints| == 9
    requires 0 <= i < |cells|
    ensures t == cells[i].lbl && |t| == 3 ==>
      Resolution(cells, LabelMap(cells), t) == [MoveCursor(cells[i].center)]
    ensures |t| == 4 && t[..3] == cells[i].lbl ==>
      Resolution(cells, LabelMap(cells), t) ==
        [MoveCursor(if 'a' <= t[3] <= 'h' then cells[i].subPoints[GetSubPointIndex(t[3])] else cells[i].center)]
    ensures (|t| == 3 || |t| == 4) && (forall k :: 0 <= k < |cells| ==> cells[k].lbl != t[..3]) ==>
      Resolution(cells, LabelMap(cells), t) == []
  {
    LabelMapLookup(cells);
    FirstCellSpec(cells, cells[i].lbl);
    if |t| == 3 || |t| == 4 {
      FirstCellSpec(cells, t[..3]);
      FirstCellAgreesWithMap(cells, t[..3]);
      if |t| == 3 { assert t[..3] == t; }
    }
  }

  /** The buffers aaa and aaae resolve to the first cell when it is
      labelled aaa. */
  lemma TypingFirstCell(cells: seq<GridCell>)
    requires DistinctLabels(cells) && forall k :: 0 <= k < |cells| ==> |cells[k].subPoints| == 9
    requires |cells| > 0 && cells[0].lbl == "aaa"
    ensures Resolution(cells, LabelMap(cells), "aaa") == [MoveCursor(cells[0].center)]
    ensures Resolution(cells, LabelMap(cells), "aaae") == [MoveCursor(cells[0].subPoints[GetSubPointIndex('e')])]
  {
    ResolutionTargets(cells, 0, "aaa");
    assert "aaae"[..3] == "aaa";
    ResolutionTargets(cells, 0, "aaae");
  }

  /** On one 1920 x 1080 monitor at 96 DPI, typing aaa moves the cursor to
      (43, 45), and typing aaae moves it to (72, 45). */
  lemma TypingExample(m: Monitor, cells: seq<GridCell>)
    requires m == Monitor(Rect(0, 0, 1920, 1080), 96) && cells == AllCells([m])
    ensures |cells| == 264 && forall k :: 0 <= k < |cells| ==> |cells[k].subPoints| == 9
    ensures Resolution(cells, LabelMap(cells), "aaa") == [MoveCursor(Point(43, 45))]
    ensures Resolution(cells, LabelMap(cells), "aaae") == [MoveCursor(Point(72, 45))]
  {
    FullHdExample(m, cells);
    AllCellsLabels([m]);
    TypingFirstCell(cells);
  }

  /** The state after a label letter c: appended to the buffer, which is
      emptied once it holds four letters; window highlighting and mouse-move
      mode end. */
  function AfterLetter(s: State, c: char): State {
    var t := s.typed + [c];
    s.(typed := if |t| == 4 then [] else t,
       highlight := if s.highlight >= 0 then -1 else s.highlight,
       app := if s.highlight >= 0 then [] else s.app,
       mouseMoveMode := false)
  }

  /** Typing keeps the overlay state consistent: the buffer grows by the
      letter or, on the fourth letter, is emptied, so it never holds four. */
  lemma AfterLetterOk(s: State, c: char)
    requires StateOk(s) && 'a' <= c <= 'z'
    ensures StateOk(AfterLetter(s, c))
    ensures AfterLetter(s, c).typed == s.typed + [c] || (|s.typed| == 3 && AfterLetter(s, c).typed == [])
  {
  }

  // ---------------------------------------------------------------------
  // What each key does, as a function of the state

  /** A handler's outcome: the new globals and the effects asked of the OS. */
  type Step = (State, seq<Command>)

  /** The four window lists of a state, as an enumeration. */
  function ListsOf(s: State): Enumeration {
    Enumeration(s.allApp, s.app, s.allMinimized, s.minimized)
  }

  /** The state with its four window lists replaced by an enumeration's. */
  function WithLists(s: State, e: Enumeration): State {
    s.(app := e.app, allApp := e.all, minimized := e.minimized, allMinimized := e.allMinimized)
  }

  /** Back to the unfiltered lists: every normal window when all is set, only
      those with a visible part otherwise, and every minimized window; the
      first is highlighted. */
  function Restored(s: State, all: bool): State {
    var a := if all then s.allApp else Keep(s.allApp, Shown);
    s.(app := a, minimized := s.allMinimized, highlight := FirstHighlight(a, s.allMinimized))
  }

  /** With a search string, the windows of the full lists whose titles
      contain it, ignoring case, with the first highlighted; with none, no
      change. */
  function Filtered(s: State): State {
    if s.search == [] then s
    else
      var a, m := Keep(s.allApp, TitleMatches(s.search)), Keep(s.allMinimized, TitleMatches(s.search));
      s.(app := a, minimized := m, highlight := FirstHighlight(a, m))
  }

  /** Backspace while searching: the last search letter goes; an emptied
      search brings back the unfiltered lists, a shorter one filters again. */
  function AfterSearchBackspace(s: State): State {
    if s.search == [] then s
    else
      var q := s.search[..|s.search| - 1];
      if q == [] then Restored(s.(search := []), s.tabTextMode) else Filtered(s.(search := q))
  }

  /** Text mode: every window of the full lists is offered and the first is
      highlighted; with both lists empty the highlight is left alone. */
  function InTextMode(s: State): State {
    s.(tabTextMode := true, search := [], app := s.allApp, minimized := s.allMinimized,
       highlight := if s.allApp != [] || s.allMinimized != [] then 0 else s.highlight)
  }

  /** Cycling shows the highlight over a see-through overlay and restarts
      the text-mode timer. */
  const CyclingCommands: seq<Command> := [SetColorKey, StopTimer(TimerTabText), StartTimer(TimerTabText, TabTextTimeoutMs)]

  /** Tab cycling. With both offered lists empty the lists are first taken
      from e, the enumeration of the desktop at that moment; with still no
      window nothing more happens. */
  function CycleStep(s: State, forward: bool, e: Enumeration): Step {
    var t := if s.app == [] && s.minimized == [] then WithLists(s, e) else s;
    var total := |t.app| + |t.minimized|;
    if total == 0 then (t, [])
    else (t.(highlight := NextHighlight(t.highlight, total, forward), tabTextMode := false), CyclingCommands)
  }

  /** Tab during a search or in text mode: back to cycling the windows with
      a visible part, minimized ones dropped, the first highlighted. */
  function LeaveTextSearchStep(s: State): Step {
    var a := Keep(s.allApp, Shown);
    (s.(tabTextMode := false, search := [], app := a, minimized := [], highlight := if a != [] then 0 else -1),
     CyclingCommands)
  }

  /** Enter on a highlighted window: hide the grid, wait, bring the window to
      the front and restore it if minimized; with none highlighted, nothing. */
  function ActivateStep(s: State): Step {
    match TargetOf(s.app, s.minimized, s.highlight)
    case None => (s, [])
    case Some(h) => (AfterHide(s), HideCommands(s) + [Sleep(ActivationDelayMs), Activate(h), RestoreIfMinimized(h)])
  }

  /** Tab in window-switching mode (back with Shift). */
  function TabStep(s: State, shift: bool, e: Enumeration): Step {
    if s.tabTextMode || s.search != [] then LeaveTextSearchStep(s) else CycleStep(s, !shift, e)
  }

  /** Tab and Backspace in window-switching mode; any other key is swallowed. */
  function TabListStep(s: State, vk: int, shift: bool, e: Enumeration): Step {
    if vk == VkTab then TabStep(s, shift, e)
    else if vk == VkBack then (AfterSearchBackspace(s), [])
    else (s, [])
  }

  /** A key in window-switching mode. */
  function TabModeStep(s: State, vk: int, shift: bool, e: Enumeration): Step {
    if vk == VkEscape then (AfterHide(s), HideCommands(s))
    else if vk == VkReturn then ActivateStep(s)
    else TabListStep(s, vk, shift, e)
  }

  /** The cursor moved by (dx, dy) from where it is; mouse-move mode is
      entered, making the overlay invisible on entry. */
  function MoveStep(s: State, dx: int, dy: int, cursor: Point): Step {
    (s.(mouseMoveMode := true),
     [MoveCursor(Point(cursor.x + dx, cursor.y + dy))] + (if s.mouseMoveMode then [] else [SetAlpha(MouseMoveAlpha)]))
  }

  /** The opacity of the overlay in grid mode: invisible while moving the
      mouse, the grid opacity otherwise. */
  function ModeAlpha(s: State): int {
    if s.mouseMoveMode then MouseMoveAlpha else GridAlpha
  }

  /** The opacity while Shift is held in grid mode: the faint peek, unless the
      overlay is already invisible for mouse moves. */
  function PeekAlpha(s: State): int {
    if s.mouseMoveMode then MouseMoveAlpha else ShiftPeekAlpha
  }

  /** Space: hide the grid, then the mouse cursor unless already hidden. */
  function SpaceStep(s: State): Step {
    (AfterHide(s).(cursorHidden := true), HideCommands(s) + (if s.cursorHidden then [] else [HideSystemCursor]))
  }

  /** Enter in grid mode: move to the center of the cell the first three
      typed letters name, if any; hide the grid; wait; click. */
  function ClickStep(s: State, gridMap: map<string, Point>, right: bool): Step {
    (AfterHide(s),
     (if |s.typed| >= 3 && s.typed[..3] in gridMap then [MoveCursor(gridMap[s.typed[..3]])] else []) +
     HideCommands(s) + [Sleep(ActivationDelayMs), Click(right)])
  }

  /** Page Up or Page Down: enter scroll mode once (overlay invisible and
      transparent to mouse input, mouse watched), then scroll three notches. */
  function ScrollStep(s: State, up: bool): Step {
    (s.(scrollMode := true, inputTransparent := true),
     (if s.scrollMode then [] else [SetColorKey, SetInputTransparent(true), WatchMouse(true)]) +
     [Wheel(if up then 3 * WheelDelta else -3 * WheelDelta)])
  }

  /** Backspace, Page Up and Page Down in grid mode; other keys do nothing. */
  function GridEditStep(s: State, vk: int): Step {
    if vk == VkBack then (s.(typed := if s.typed == [] then [] else s.typed[..|s.typed| - 1]), [])
    else if vk == VkPrior || vk == VkNext then ScrollStep(s, vk == VkPrior)
    else (s, [])
  }

  /** Shift, Space, Enter and Tab in grid mode, then the editing keys. */
  function GridActionStep(s: State, vk: int, env: Env, e: Enumeration, gridMap: map<string, Point>): Step {
    if vk == VkShift then (s, [SetAlpha(PeekAlpha(s))])
    else if vk == VkSpace then SpaceStep(s)
    else if vk == VkReturn then ClickStep(s, gridMap, env.ctrlDown)
    else if vk == VkTab then CycleStep(s, !env.shiftDown, e)
    else GridEditStep(s, vk)
  }

  /** A key in grid mode: Escape hides, the arrows move the cursor by the
      step the modifiers choose, and the rest as in GridActionStep. */
  function GridStep(s: State, vk: int, env: Env, e: Enumeration, gridMap: map<string, Point>): Step {
    if vk == VkEscape then (AfterHide(s), HideCommands(s))
    else if vk == VkLeft || vk == VkRight || vk == VkUp || vk == VkDown then
      var (dx, dy) := ArrowOffset(vk, StepSize(env.shiftDown, env.ctrlDown));
      MoveStep(s, dx, dy, env.cursor)
    else GridActionStep(s, vk, env, e, gridMap)
  }

  /** WM_KEYDOWN: in scroll mode a key other than the paging keys and Escape
      leaves scroll mode; otherwise the mode decides. */
  function KeyDownStep(s: State, vk: int, env: Env, e: Enumeration, gridMap: map<string, Point>): Step {
    if s.scrollMode && vk != VkPrior && vk != VkNext && vk != VkEscape then (AfterExitScroll(s), ExitScrollCommands(s))
    else if InTabMode(s) then TabModeStep(s, vk, env.shiftDown, e)
    else GridStep(s, vk, env, e, gridMap)
  }

  /** The key is a Tab that cycles from two empty offered lists, so the
      handler enumerates the desktop's windows first. */
  predicate TabEnumerates(s: State, vk: int) {
    vk == VkTab && !s.scrollMode && !s.tabTextMode && s.search == [] && s.app == [] && s.minimized == []
  }

  /** A label letter c while the grid is shown. */
  function LetterStep(s: State, c: char, cells: seq<GridCell>, gridMap: map<string, Point>): Step
    requires forall i :: 0 <= i < |cells| ==> |cells[i].subPoints| == 9
  {
    (AfterLetter(s, c),
     (if s.highlight >= 0 then [SetAlpha(GridAlpha)] else []) + (if s.mouseMoveMode then [SetAlpha(GridAlpha)] else []) +
     [StopTimer(TimerReset), StartTimer(TimerReset, ResetTimeoutMs)] + Resolution(cells, gridMap, s.typed + [c]))
  }

  /** A typed character in grid mode: after lower-casing, a letter while the
      grid is shown is a label letter; anything else does nothing. */
  function TypedCharStep(s: State, ch: char, cells: seq<GridCell>, gridMap: map<string, Point>): Step
    requires forall i :: 0 <= i < |cells| ==> |cells[i].subPoints| == 9
  {
    var c := LowerChar(ch);
    if s.gridVisible && 'a' <= c <= 'z' then LetterStep(s, c, cells, gridMap) else (s, [])
  }

  /** WM_CHAR: typing leaves scroll mode; '*' while highlighting or
      searching, outside text mode, enters text mode; a lower-case letter
      extends the search in window-switching mode and is a label letter
      otherwise; other characters do nothing. */
  function CharStep(s: State, ch: char, cells: seq<GridCell>, gridMap: map<string, Point>): Step
    requires forall i :: 0 <= i < |cells| ==> |cells[i].subPoints| == 9
  {
    if s.scrollMode then (AfterExitScroll(s), ExitScrollCommands(s))
    else if ch == '*' && (s.highlight >= 0 || s.search != []) && !s.tabTextMode then
      (InTextMode(s), [StopTimer(TimerTabText), SetColorKeyAlpha(GridAlpha)])
    else if 'a' <= ch <= 'z' && InTabMode(s) then
      (Filtered(s.(search := s.search + [ch])), [StopTimer(TimerTabText), StartTimer(TimerTabText, TabTextTimeoutMs)])
    else if 'a' <= ch <= 'z' then TypedCharStep(s, ch, cells, gridMap)
    else (s, [])
  }

  /** WM_KEYUP: releasing Shift outside highlighting puts back the opacity
      of the current mode. */
  function KeyUpCommands(s: State, vk: int): seq<Command> {
    if vk == VkShift && s.highlight < 0 then [SetAlpha(ModeAlpha(s))] else []
  }

  /** Escape hides the grid from every mode, scroll mode included. */
  lemma EscapeHides(s: State, env: Env, e: Enumeration, gridMap: map<string, Point>)
    ensures KeyDownStep(s, VkEscape, env, e, gridMap) == (AfterHide(s), HideCommands(s))
    ensures !KeyDownStep(s, VkEscape, env, e, gridMap).0.gridVisible
  {
  }

  /** In window-switching mode only Escape, Enter, Tab and Backspace act;
      the arrows, Space and every other key change nothing and ask nothing. */
  lemma SwitchingIgnoresOtherKeys(s: State, vk: int, env: Env, e: Enumeration, gridMap: map<string, Point>)
    requires !s.scrollMode && InTabMode(s)
    requires vk != VkEscape && vk != VkReturn && vk != VkTab && vk != VkBack
    ensures KeyDownStep(s, vk, env, e, gridMap) == (s, [])
  {
  }

  /** Tab in grid mode starts window switching when there is a window to
      offer: the first window is highlighted, or the last with Shift; the
      overlay turns see-through and the text-mode timer starts. The typed
      letters and the grid stay as they are. */
  lemma TabStartsSwitching(s: State, env: Env, e: Enumeration, gridMap: map<string, Point>)
    requires StateOk(s) && !s.scrollMode && !InTabMode(s)
    requires var t := if s.app == [] && s.minimized == [] then WithLists(s, e) else s;
      |t.app| + |t.minimized| > 0
    ensures var (t, cmds) := KeyDownStep(s, VkTab, env, e, gridMap);
      InTabMode(t) && t.highlight == (if env.shiftDown then |t.app| + |t.minimized| - 1 else 0) &&
      cmds == CyclingCommands && t.typed == s.typed && t.gridVisible == s.gridVisible
  {
    TabCycles(s, env, e, gridMap);
  }

  /** Tab outside scroll mode, a search and text mode cycles the highlight,
      from window-switching mode and from grid mode alike. */
  lemma TabCycles(s: State, env: Env, e: Enumeration, gridMap: map<string, Point>)
    requires !s.scrollMode && !s.tabTextMode && s.search == []
    ensures KeyDownStep(s, VkTab, env, e, gridMap) == CycleStep(s, !env.shiftDown, e)
  {
  }

  /** While cycling, Shift+Tab after Tab gives back the state before the Tab,
      and so does Tab after Shift+Tab. */
  lemma TabShiftTabRoundTrip(s: State, e: Enumeration, gridMap: map<string, Point>, fwd: Env, back: Env)
    requires !s.scrollMode && !s.tabTextMode && s.search == [] && 0 <= s.highlight < |s.app| + |s.minimized|
    requires !fwd.shiftDown && back.shiftDown
    ensures KeyDownStep(KeyDownStep(s, VkTab, fwd, e, gridMap).0, VkTab, back, e, gridMap).0 == s
    ensures KeyDownStep(KeyDownStep(s, VkTab, back, e, gridMap).0, VkTab, fwd, e, gridMap).0 == s
  {
    var total := |s.app| + |s.minimized|;
    CycleInverse(s.highlight, total);
    TabCycles(s, fwd, e, gridMap);
    TabCycles(s, back, e, gridMap);
    var t := KeyDownStep(s, VkTab, fwd, e, gridMap).0;
    var u := KeyDownStep(s, VkTab, back, e, gridMap).0;
    TabCycles(t, back, e, gridMap);
    TabCycles(u, fwd, e, gridMap);
  }

  /** Holding Shift in grid mode changes no state and dims the overlay to
      the peek opacity; releasing it puts back the opacity the mode had. So
      a press and release leave the opacity where it was, and the peek is
      fainter than the grid unless the overlay is already invisible. */
  lemma ShiftPeekRoundTrip(s: State, env: Env, e: Enumeration, gridMap: map<string, Point>)
    requires !s.scrollMode && !InTabMode(s)
    ensures var (t, down) := KeyDownStep(s, VkShift, env, e, gridMap);
      t == s && down == [SetAlpha(PeekAlpha(s))] && KeyUpCommands(t, VkShift) == [SetAlpha(ModeAlpha(s))]
    ensures !s.mouseMoveMode ==> PeekAlpha(s) < ModeAlpha(s)
    ensures s.mouseMoveMode ==> PeekAlpha(s) == ModeAlpha(s)
  {
  }

  /** Enter in grid mode after typing a cell's label clicks at that cell's
      center: the cursor moves there, the grid hides, and after the delay
      the click comes (right with Ctrl). */
  lemma EnterClicksTypedCell(s: State, env: Env, e: Enumeration, cells: seq<GridCell>, i: int)
    requires DistinctLabels(cells) && 0 <= i < |cells| && |cells[i].lbl| == 3
    requires !s.scrollMode && !InTabMode(s) && s.typed == cells[i].lbl
    ensures var (t, cmds) := KeyDownStep(s, VkReturn, env, e, LabelMap(cells));
      t == AfterHide(s) && !t.gridVisible &&
      cmds == [MoveCursor(cells[i].center)] + HideCommands(s) + [Sleep(ActivationDelayMs), Click(env.ctrlDown)]
  {
    LabelMapLookup(cells);
    assert s.typed[..3] == cells[i].lbl;
  }

  /** A lower-case letter in grid mode, outside scroll mode, is a label
      letter. */
  lemma LetterTyped(s: State, c: char, cells: seq<GridCell>, gridMap: map<string, Point>)
    requires forall k :: 0 <= k < |cells| ==> |cells[k].subPoints| == 9
    requires s.gridVisible && !s.scrollMode && !InTabMode(s) && 'a' <= c <= 'z'
    ensures CharStep(s, c, cells, gridMap) == LetterStep(s, c, cells, gridMap)
  {
  }

  /** Typing the three letters of a cell's label in grid mode, from an empty
      buffer, leaves the label in the buffer and, at the third letter,
      restarts the reset timer and moves the cursor to the cell's center. */
  lemma TypingLabelMovesCursor(s: State, cells: seq<GridCell>, i: int)
    requires DistinctLabels(cells) && forall k :: 0 <= k < |cells| ==> |cells[k].subPoints| == 9
    requires 0 <= i < |cells| && |cells[i].lbl| == 3
    requires forall k :: 0 <= k < 3 ==> 'a' <= cells[i].lbl[k] <= 'z'
    requires s.gridVisible && !s.scrollMode && !InTabMode(s) && s.typed == []
    ensures var l, m := cells[i].lbl, LabelMap(cells);
      var s1 := CharStep(s, l[0], cells, m).0;
      var s2 := CharStep(s1, l[1], cells, m).0;
      var (s3, cmds) := CharStep(s2, l[2], cells, m);
      s3 == s.(typed := l, mouseMoveMode := false) &&
      cmds == [StopTimer(TimerReset), StartTimer(TimerReset, ResetTimeoutMs), MoveCursor(cells[i].center)]
  {
    var l, m := cells[i].lbl, LabelMap(cells);
    LetterTyped(s, l[0], cells, m);
    var s1 := AfterLetter(s, l[0]);
    assert s1 == s.(typed := [l[0]], mouseMoveMode := false);
    LetterTyped(s1, l[1], cells, m);
    var s2 := AfterLetter(s1, l[1]);
    assert s2 == s.(typed := [l[0], l[1]], mouseMoveMode := false);
    LetterTyped(s2, l[2], cells, m);
    ThirdLetter(s2, cells, i);
  }

  /** The third letter of a label, typed after the first two, completes the
      label and moves the cursor to the cell's center. */
  lemma ThirdLetter(s: State, cells: seq<GridCell>, i: int)
    requires DistinctLabels(cells) && forall k :: 0 <= k < |cells| ==> |cells[k].subPoints| == 9
    requires 0 <= i < |cells| && |cells[i].lbl| == 3
    requires s.typed == cells[i].lbl[..2] && s.highlight < 0 && !s.mouseMoveMode
    ensures LetterStep(s, cells[i].lbl[2], cells, LabelMap(cells)) ==
      (s.(typed := cells[i].lbl),
       [StopTimer(TimerReset), StartTimer(TimerReset, ResetTimeoutMs), MoveCursor(cells[i].center)])
  {
    var l := cells[i].lbl;
    assert s.typed + [l[2]] == l;
    ResolutionTargets(cells, i, l);
    assert AfterLetter(s, l[2]) == s.(typed := l);
    assert [] + [] + [StopTimer(TimerReset), StartTimer(TimerReset, ResetTimeoutMs)] + [MoveCursor(cells[i].center)] ==
           [StopTimer(TimerReset), StartTimer(TimerReset, ResetTimeoutMs), MoveCursor(cells[i].center)];
  }

  // ---------------------------------------------------------------------
  // The overlay

  class Overlay {
    /** The overlay's globals, which the handlers update in place. */
    var st: State
    /** The grid, built once when the application starts. */
    const cells: seq<GridCell>
    const gridMap: map<string, Point>
    /** The application's own window handles, never offered for switching. */
    const own: set<int>

    ghost predicate Valid()
      reads this
    {
      StateOk(st) && GridReady()
    }

    /** The grid's labels are distinct and mapped to their centers, and
        every cell has its nine sub-points. */
    ghost predicate GridReady() {
      gridMap == LabelMap(cells) && DistinctLabels(cells) &&
      (forall i :: 0 <= i < |cells| ==> |cells[i].subPoints| == 9)
    }

    /** Start-up: every flag off, nothing typed, nothing highlighted, and the
        grid built over the monitors. */
    constructor(monitors: seq<Monitor>, ownWindows: set<int>)
      requires ValidMonitors(monitors)
      ensures Valid()
      ensures cells == AllCells(monitors) && gridMap == LabelMap(cells) && own == ownWindows
      ensures st == Initial
    {
      var c, m := BuildGridCells(monitors);
      AllCellsLabels(monitors);
      cells, gridMap, own := c, m, ownWindows;
      st := Initial;
    }

    method ShowGrid() returns (cmds: seq<Command>)
      requires Valid()
      modifies this
      ensures Valid()
      ensures old(st.gridVisible) ==> st == old(st) && cmds == []
      ensures !old(st.gridVisible) ==>
        st == old(st).(gridVisible := true, cursorHidden := false, typed := [], mouseMoveMode := false) &&
        cmds == (if old(st.cursorHidden) then [RestoreSystemCursors] else []) + [SetAlpha(GridAlpha), ShowOverlay]
    {
      cmds := [];
      if st.gridVisible {
        return;
      }
      if st.cursorHidden {
        cmds := [RestoreSystemCursors];
        st := st.(cursorHidden := false);
      }
      st := st.(typed := [], mouseMoveMode := false);
      cmds := cmds + [SetAlpha(GridAlpha), ShowOverlay];
      st := st.(gridVisible := true);
    }

    method HideGrid() returns (cmds: seq<Command>)
      requires Valid()
      modifies this
      ensures Valid()
      ensures st == AfterHide(old(st)) && cmds == HideCommands(old(st))
    {
      cmds := [];
      if !st.gridVisible {
        return;
      }
      cmds := [HideOverlay];
      st := st.(gridVisible := false, mouseMoveMode := false, typed := [],
                app := [], allApp := [], minimized := [], allMinimized := [],
                highlight := -1, search := [], tabTextMode := false);
      cmds := cmds + [StopTimer(TimerTabText)];
      if st.scrollMode {
        st := st.(scrollMode := false);
        cmds := cmds + [WatchMouse(false)];
      }
    }

    method ExitScrollMode() returns (cmds: seq<Command>)
      requires Valid()
      modifies this
      ensures Valid()
      ensures st == AfterExitScroll(old(st)) && cmds == ExitScrollCommands(old(st))
    {
      cmds := [];
      if !st.scrollMode {
        return;
      }
      st := st.(scrollMode := false, inputTransparent := false);
      cmds := [SetInputTransparent(false), WatchMouse(false)];
      var closing := HideGrid();
      cmds := cmds + closing;
    }

    /** Moves the cursor by (dx, dy) from where it is and enters mouse-move
        mode, making the overlay invisible on entry. */
    method MoveMouseByArrowKey(dx: int, dy: int, cursor: Point) returns (cmds: seq<Command>)
      requires Valid()
      modifies this
      ensures Valid()
      ensures (st, cmds) == MoveStep(old(st), dx, dy, cursor)
    {
      cmds := [MoveCursor(Point(cursor.x + dx, cursor.y + dy))];
      if !st.mouseMoveMode {
        st := st.(mouseMoveMode := true);
        cmds := cmds + [SetAlpha(MouseMoveAlpha)];
      } else {
        assert cmds + [] == cmds;
      }
    }

    /** A typed character while the grid is shown: a letter is appended to
        the buffer (leaving window highlighting and mouse-move mode and
        restarting the reset timer); three letters move the cursor to the
        named cell's center; a fourth letter moves it inside the cell and
        empties the buffer, which therefore never holds four letters. */
    method ProcessTypedChar(ch: char) returns (cmds: seq<Command>)
      requires Valid()
      modifies this
      ensures Valid()
      ensures (st, cmds) == TypedCharStep(old(st), ch, cells, gridMap)
    {
      cmds := [];
      var c := LowerChar(ch);
      if st.gridVisible && 'a' <= c <= 'z' {
        cmds := AcceptLetter(c);
      }
    }

    /** The letter branch of ProcessTypedChar, for a lower-case letter c
        while the grid is shown. */
    method AcceptLetter(c: char) returns (cmds: seq<Command>)
      requires Valid() && st.gridVisible && 'a' <= c <= 'z'
      modifies this
      ensures Valid()
      ensures (st, cmds) == LetterStep(old(st), c, cells, gridMap)
    {
      AfterLetterOk(st, c);
      st := st.(typed := st.typed + [c]);
      var dropped := DropHighlight();
      var restored := LeaveMouseMove();
      cmds := dropped + restored + [StopTimer(TimerReset), StartTimer(TimerReset, ResetTimeoutMs)];
      var moves := ResolveTyped(st.typed);
      cmds := cmds + moves;
      if |st.typed| == 4 {
        st := st.(typed := []);
      }
    }

    /** Typing a label letter ends window highlighting: the highlight and
        the cycling list are cleared and the grid opacity comes back. */
    method DropHighlight() returns (cmds: seq<Command>)
      modifies this
      ensures st == if old(st.highlight) >= 0 then old(st).(highlight := -1, app := []) else old(st)
      ensures cmds == if old(st.highlight) >= 0 then [SetAlpha(GridAlpha)] else []
    {
      cmds := [];
      if st.highlight >= 0 {
        st := st.(highlight := -1, app := []);
        cmds := [SetAlpha(GridAlpha)];
      }
    }

    /** Typing a label letter ends mouse-move mode and restores the grid
        opacity. */
    method LeaveMouseMove() returns (cmds: seq<Command>)
      modifies this
      ensures st == old(st).(mouseMoveMode := false)
      ensures cmds == if old(st.mouseMoveMode) then [SetAlpha(GridAlpha)] else []
    {
      cmds := [];
      if st.mouseMoveMode {
        st := st.(mouseMoveMode := false);
        cmds := [SetAlpha(GridAlpha)];
      }
    }

    /** The cursor move a buffer of typed letters asks for: a linear search
        for the cell named by the first three of four letters, or a lookup
        of three letters in the label map. */
    method ResolveTyped(t: string) returns (moves: seq<Command>)
      requires GridReady()
      ensures moves == Resolution(cells, gridMap, t)
    {
      moves := [];
      if |t| == 4 {
        var found := FindCell(cells, t[..3]);
        if found.Some? {
          var cell := cells[found.value];
          moves := [MoveCursor(if 'a' <= t[3] <= 'h' then cell.subPoints[GetSubPointIndex(t[3])] else cell.center)];
        }
      } else if |t| == 3 {
        if t in gridMap {
          moves := [MoveCursor(gridMap[t])];
        }
      }
    }

    /** The enumeration facts about the four window lists. */
    ghost predicate Enumerated(snapshot: seq<WindowInfo>)
      reads this
    {
      var c := Collected(snapshot, own);
      multiset(st.allApp) == multiset(WithVisibleAreas(c.normal)) && SortedDesc(st.allApp) &&
      st.app == Keep(st.allApp, Shown) && st.allMinimized == c.minimized && st.minimized == c.minimized
    }

    /** Refreshes the window lists from a snapshot of the desktop. */
    method EnumerateAppWindows(snapshot: seq<WindowInfo>)
      modifies this
      ensures Enumerated(snapshot)
      ensures st == old(st).(app := st.app, allApp := st.allApp, minimized := st.minimized, allMinimized := st.allMinimized)
      ensures |st.app| <= |st.allApp| && |st.minimized| <= |st.allMinimized|
    {
      var e := Windows.EnumerateAppWindows(snapshot, own);
      KeepMembers(e.all, Shown);
      st := st.(app := e.app, allApp := e.all, minimized := e.minimized, allMinimized := e.allMinimized);
    }

    /** With a search string, offers the windows of the full lists whose
        titles contain it, ignoring case, and highlights the first; with
        none, changes nothing. */
    method FilterAppWindowsBySearch()
      requires Valid()
      modifies this
      ensures Valid()
      ensures st == Filtered(old(st))
    {
      if st.search == [] {
        return;
      }
      var a := FilterByTitle(st.allApp, st.search);
      var m := FilterByTitle(st.allMinimized, st.search);
      KeepMembers(st.allApp, TitleMatches(st.search));
      KeepMembers(st.allMinimized, TitleMatches(st.search));
      st := st.(app := a, minimized := m, highlight := FirstHighlight(a, m));
    }

    /** Back from a search to the unfiltered lists: every normal window in
        text mode, only those with a visible part otherwise, and all
        minimized ones. */
    method RestoreLists(all: bool)
      requires Valid()
      modifies this
      ensures Valid()
      ensures st == Restored(old(st), all)
    {
      var a;
      if all {
        a := st.allApp;
      } else {
        a := KeepShown(st.allApp);
        KeepMembers(st.allApp, Shown);
      }
      st := st.(app := a, minimized := st.allMinimized, highlight := FirstHighlight(a, st.allMinimized));
    }

    /** Moves the highlight one window on or back, wrapping, after enumerating
        the windows if both offered lists are empty; does nothing more when
        there is still no window. */
    method CycleHighlight(forward: bool, snapshot: seq<WindowInfo>) returns (cmds: seq<Command>)
      requires Valid()
      modifies this
      ensures Valid()
      ensures old(st.app) == [] && old(st.minimized) == [] ==> Enumerated(snapshot)
      ensures (st, cmds) == CycleStep(old(st), forward, ListsOf(st))
    {
      cmds := [];
      if st.app == [] && st.minimized == [] {
        ghost var before := st;
        EnumerateAppWindows(snapshot);
        assert st == WithLists(before, ListsOf(st));
      }
      var total := |st.app| + |st.minimized|;
      if total == 0 {
        return;
      }
      st := st.(highlight := NextHighlight(st.highlight, total, forward), tabTextMode := false);
      cmds := CyclingCommands;
    }

    /** Enter on a highlighted window: hide the grid, wait, then bring the
        window forward, restoring it if minimized. */
    method ActivateHighlighted() returns (cmds: seq<Command>)
      requires Valid()
      modifies this
      ensures Valid()
      ensures (st, cmds) == ActivateStep(old(st))
    {
      cmds := [];
      var target := TargetOf(st.app, st.minimized, st.highlight);
      if target.Some? {
        var h := target.value;
        var closing := HideGrid();
        cmds := closing + [Sleep(ActivationDelayMs), Activate(h), RestoreIfMinimized(h)];
      }
    }

    /** Tab while searching or in text mode: back to cycling the windows with
        a visible part, minimized ones dropped, the first highlighted. */
    method LeaveTextSearch() returns (cmds: seq<Command>)
      requires Valid()
      modifies this
      ensures Valid()
      ensures (st, cmds) == LeaveTextSearchStep(old(st))
    {
      var a := KeepShown(st.allApp);
      KeepMembers(st.allApp, Shown);
      st := st.(tabTextMode := false, search := [], app := a, minimized := [],
                highlight := if a != [] then 0 else -1);
      cmds := CyclingCommands;
    }

    /** Text mode: every window of the full lists is offered, the first one
        highlighted when there is one (the highlight is left alone when both
        lists are empty), and the overlay shows only its panel. */
    method EnterTextMode() returns (cmds: seq<Command>)
      requires Valid()
      modifies this
      ensures Valid()
      ensures st == InTextMode(old(st)) && cmds == [SetColorKeyAlpha(GridAlpha)]
    {
      st := st.(tabTextMode := true, search := [], app := st.allApp, minimized := st.allMinimized);
      if st.app != [] {
        st := st.(highlight := 0);
      } else if st.minimized != [] {
        st := st.(highlight := 0);
      }
      cmds := [SetColorKeyAlpha(GridAlpha)];
    }

    /** Space: hides the mouse cursor system-wide unless already hidden. */
    method HideCursor() returns (cmds: seq<Command>)
      requires Valid()
      modifies this
      ensures Valid()
      ensures st == old(st).(cursorHidden := true)
      ensures cmds == if old(st.cursorHidden) then [] else [HideSystemCursor]
    {
      cmds := [];
      if st.cursorHidden {
        return;
      }
      cmds := [HideSystemCursor];
      st := st.(cursorHidden := true);
    }

    /** Space in grid mode: hide the grid, then the mouse cursor. */
    method HideGridAndCursor() returns (cmds: seq<Command>)
      requires Valid()
      modifies this
      ensures Valid()
      ensures (st, cmds) == SpaceStep(old(st))
    {
      cmds := HideGrid();
      var more := HideCursor();
      cmds := cmds + more;
    }

    /** Enter in grid mode: move to the typed cell's center if three letters
        name one, hide the grid, wait, then click (right with Ctrl). */
    method ClickAtTyped(right: bool) returns (cmds: seq<Command>)
      requires Valid()
      modifies this
      ensures Valid()
      ensures (st, cmds) == ClickStep(old(st), gridMap, right)
    {
      cmds := [];
      if |st.typed| >= 3 {
        var key := st.typed[..3];
        if key in gridMap {
          cmds := [MoveCursor(gridMap[key])];
        }
      }
      var closing := HideGrid();
      cmds := cmds + closing + [Sleep(ActivationDelayMs), Click(right)];
    }

    /** Page Up or Page Down: enter scroll mode (overlay invisible and
        transparent to mouse input, mouse watched) and scroll three notches. */
    method ScrollPage(up: bool) returns (cmds: seq<Command>)
      requires Valid()
      modifies this
      ensures Valid()
      ensures (st, cmds) == ScrollStep(old(st), up)
    {
      cmds := [];
      if !st.scrollMode {
        st := st.(scrollMode := true);
        cmds := [SetColorKey, SetInputTransparent(true), WatchMouse(true)];
        st := st.(inputTransparent := true);
      }
      cmds := cmds + [Wheel(if up then 3 * WheelDelta else -3 * WheelDelta)];
    }

    /** Backspace while searching: drop the last search letter, then offer
        the unfiltered lists if the search is now empty, or filter again. */
    method SearchBackspace()
      requires Valid()
      modifies this
      ensures Valid()
      ensures st == AfterSearchBackspace(old(st))
    {
      if st.search == [] {
        return;
      }
      st := st.(search := st.search[..|st.search| - 1]);
      if st.search == [] {
        RestoreLists(st.tabTextMode);
      } else {
        FilterAppWindowsBySearch();
      }
    }

    /** Key-down in window-switching mode: only Escape, Enter, Tab and
        Backspace act; every other key is swallowed. */
    method TabModeKeyDown(vk: int, env: Env) returns (cmds: seq<Command>)
      requires Valid()
      modifies this
      ensures Valid()
      ensures vk == VkTab && !old(st.tabTextMode) && old(st.search) == [] && old(st.app) == [] && old(st.minimized) == [] ==>
        Enumerated(env.windows)
      ensures (st, cmds) == TabModeStep(old(st), vk, env.shiftDown, ListsOf(st))
    {
      cmds := [];
      if vk == VkEscape {
        cmds := HideGrid();
      } else if vk == VkReturn {
        cmds := ActivateHighlighted();
      } else {
        cmds := TabModeListKey(vk, env);
      }
    }

    /** Tab and Backspace in window-switching mode; other keys do nothing. */
    method TabModeListKey(vk: int, env: Env) returns (cmds: seq<Command>)
      requires Valid()
      modifies this
      ensures Valid()
      ensures vk == VkTab && !old(st.tabTextMode) && old(st.search) == [] && old(st.app) == [] && old(st.minimized) == [] ==>
        Enumerated(env.windows)
      ensures (st, cmds) == TabListStep(old(st), vk, env.shiftDown, ListsOf(st))
    {
      cmds := [];
      if vk == VkTab {
        cmds := TabInTabMode(env);
      } else if vk == VkBack {
        SearchBackspace();
      }
    }

    /** Tab in window-switching mode: leaves text mode or the search, or
        cycles the highlight (backwards with Shift). */
    method TabInTabMode(env: Env) returns (cmds: seq<Command>)
      requires Valid()
      modifies this
      ensures Valid()
      ensures !old(st.tabTextMode) && old(st.search) == [] && old(st.app) == [] && old(st.minimized) == [] ==>
        Enumerated(env.windows)
      ensures (st, cmds) == TabStep(old(st), env.shiftDown, ListsOf(st))
    {
      if st.tabTextMode || st.search != [] {
        cmds := LeaveTextSearch();
      } else {
        cmds := CycleHighlight(!env.shiftDown, env.windows);
      }
    }

    /** Key-down in grid mode. The highlight is negative here, so the Shift
        peek always applies. */
    method GridModeKeyDown(vk: int, env: Env) returns (cmds: seq<Command>)
      requires Valid() && st.highlight < 0
      modifies this
      ensures Valid()
      ensures vk == VkTab && old(st.app) == [] && old(st.minimized) == [] ==> Enumerated(env.windows)
      ensures (st, cmds) == GridStep(old(st), vk, env, ListsOf(st), gridMap)
    {
      if vk == VkEscape {
        cmds := HideGrid();
      } else if vk == VkLeft || vk == VkRight || vk == VkUp || vk == VkDown {
        var (dx, dy) := ArrowOffset(vk, StepSize(env.shiftDown, env.ctrlDown));
        cmds := MoveMouseByArrowKey(dx, dy, env.cursor);
      } else {
        cmds := GridModeActionKey(vk, env);
      }
    }

    /** Shift, Space, Enter and Tab in grid mode; the editing keys go on to
        GridModeEditKey. */
    method GridModeActionKey(vk: int, env: Env) returns (cmds: seq<Command>)
      requires Valid()
      modifies this
      ensures Valid()
      ensures vk == VkTab && old(st.app) == [] && old(st.minimized) == [] ==> Enumerated(env.windows)
      ensures (st, cmds) == GridActionStep(old(st), vk, env, ListsOf(st), gridMap)
    {
      if vk == VkShift {
        cmds := [SetAlpha(PeekAlpha(st))];
      } else if vk == VkSpace {
        cmds := HideGridAndCursor();
      } else if vk == VkReturn {
        cmds := ClickAtTyped(env.ctrlDown);
      } else if vk == VkTab {
        cmds := CycleHighlight(!env.shiftDown, env.windows);
      } else {
        cmds := GridModeEditKey(vk);
      }
    }

    /** Backspace, Page Up and Page Down in grid mode. */
    method GridModeEditKey(vk: int) returns (cmds: seq<Command>)
      requires Valid()
      modifies this
      ensures Valid()
      ensures (st, cmds) == GridEditStep(old(st), vk)
    {
      cmds := [];
      if vk == VkBack {
        if st.typed != [] {
          st := st.(typed := st.typed[..|st.typed| - 1]);
        }
      } else if vk == VkPrior || vk == VkNext {
        cmds := ScrollPage(vk == VkPrior);
      }
    }

    /** WM_KEYDOWN. In scroll mode any key but Page Up, Page Down and Escape
        leaves scroll mode and hides the grid; otherwise the key goes to the
        window-switching or the grid handler by the current mode. */
    method OnKeyDown(vk: int, env: Env) returns (cmds: seq<Command>)
      requires Valid()
      modifies this
      ensures Valid()
      ensures TabEnumerates(old(st), vk) ==> Enumerated(env.windows)
      ensures (st, cmds) == KeyDownStep(old(st), vk, env, ListsOf(st), gridMap)
    {
      if st.scrollMode && vk != VkPrior && vk != VkNext && vk != VkEscape {
        cmds := ExitScrollMode();
        return;
      }
      if st.highlight >= 0 || st.tabTextMode || st.search != [] {
        cmds := TabModeKeyDown(vk, env);
      } else {
        cmds := GridModeKeyDown(vk, env);
      }
    }

    /** WM_CHAR. Typing leaves scroll mode. '*' while a window is highlighted
        or a search is typed switches to text mode; a lower-case letter
        extends the search in window-switching mode and is a grid label
        letter otherwise. */
    method OnChar(ch: char) returns (cmds: seq<Command>)
      requires Valid()
      modifies this
      ensures Valid()
      ensures (st, cmds) == CharStep(old(st), ch, cells, gridMap)
    {
      cmds := [];
      if st.scrollMode {
        cmds := ExitScrollMode();
        return;
      }
      if ch == '*' && (st.highlight >= 0 || st.search != []) && !st.tabTextMode {
        var shown := EnterTextMode();
        cmds := [StopTimer(TimerTabText)] + shown;
        assert cmds == [StopTimer(TimerTabText), SetColorKeyAlpha(GridAlpha)];
        return;
      }
      if 'a' <= ch <= 'z' {
        if st.highlight >= 0 || st.tabTextMode || st.search != [] {
          st := st.(search := st.search + [ch]);
          FilterAppWindowsBySearch();
          cmds := [StopTimer(TimerTabText), StartTimer(TimerTabText, TabTextTimeoutMs)];
        } else {
          cmds := ProcessTypedChar(ch);
        }
      }
    }

    /** WM_KEYUP: releasing Shift outside window highlighting puts back the
        opacity of the current mode, which the Shift peek replaced. */
    method OnKeyUp(vk: int) returns (cmds: seq<Command>)
      ensures cmds == KeyUpCommands(st, vk)
    {
      cmds := [];
      if vk == VkShift && st.highlight < 0 {
        cmds := [SetAlpha(if st.mouseMoveMode then MouseMoveAlpha else GridAlpha)];
      }
    }

    /** WM_KILLFOCUS: losing focus hides the grid. */
    method OnKillFocus() returns (cmds: seq<Command>)
      requires Valid()
      modifies this
      ensures Valid()
      ensures st == AfterHide(old(st)) && cmds == HideCommands(old(st))
    {
      cmds := HideGrid();
    }

    /** WM_TIMER. The reset timer clears a search (offering the unfiltered
        lists again) or else the typed buffer; the text-mode timer switches a
        highlighting session to text mode. */
    method OnTimer(id: int) returns (cmds: seq<Command>)
      requires Valid()
      modifies this
      ensures Valid()
      ensures id == TimerReset && (old(st.highlight) >= 0 || old(st.tabTextMode)) && old(st.search) != [] ==>
        st == Restored(old(st).(search := []), old(st.tabTextMode)) && cmds == [StopTimer(TimerReset)]
      ensures id == TimerReset && !((old(st.highlight) >= 0 || old(st.tabTextMode)) && old(st.search) != []) ==>
        st == old(st).(typed := []) && cmds == [StopTimer(TimerReset)]
      ensures id == TimerTabText && old(st.highlight) >= 0 && !old(st.tabTextMode) ==>
        st == InTextMode(old(st)) && cmds == [StopTimer(TimerTabText), SetColorKeyAlpha(GridAlpha)]
      ensures id == TimerTabText && !(old(st.highlight) >= 0 && !old(st.tabTextMode)) ==>
        st == old(st) && cmds == [StopTimer(TimerTabText)]
      ensures id != TimerReset && id != TimerTabText ==> st == old(st) && cmds == []
    {
      cmds := [];
      if id == TimerReset {
        cmds := [StopTimer(TimerReset)];
        if (st.highlight >= 0 || st.tabTextMode) && st.search != [] {
          st := st.(search := []);
          RestoreLists(st.tabTextMode);
        } else if st.typed != [] {
          st := st.(typed := []);
        }
      } else if id == TimerTabText {
        cmds := [StopTimer(TimerTabText)];
        if st.highlight >= 0 && !st.tabTextMode {
          var shown := EnterTextMode();
          cmds := cmds + shown;
        }
      }
    }

    /** WM_HOTKEY: the show-grid hotkey toggles the grid. */
    method OnHotkey(id: int) returns (cmds: seq<Command>)
      requires Valid()
      modifies this
      ensures Valid()
      ensures id == HotkeyShowGrid && old(st.gridVisible) ==> st == AfterHide(old(st)) && cmds == HideCommands(old(st))
      ensures id == HotkeyShowGrid && !old(st.gridVisible) ==>
        st == old(st).(gridVisible := true, cursorHidden := false, typed := [], mouseMoveMode := false) &&
        cmds == (if old(st.cursorHidden) then [RestoreSystemCursors] else []) + [SetAlpha(GridAlpha), ShowOverlay]
      ensures id != HotkeyShowGrid ==> st == old(st) && cmds == []
    {
      cmds := [];
      if id == HotkeyShowGrid {
        if st.gridVisible {
          cmds := HideGrid();
        } else {
          cmds := ShowGrid();
        }
      }
    }
  }
}

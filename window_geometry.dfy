/** Recovery of the saved window geometry at start-up: a saved position that
    overlaps no display is replaced by one centred on the primary display,
    and the size is raised to the window's minimum. */
module WindowGeometry {
  import opened Wrappers

  /** A display's bounds. */
  datatype Rect = Rect(x: int, y: int, width: int, height: int)

  /** The stored window state; `x`/`y` may be missing. */
  datatype WindowState = WindowState(width: int, height: int, x: Option<int>, y: Option<int>, isMaximized: Option<bool>)

  /** What the screen module reports: every display's bounds and the size of
      the primary display's work area. */
  datatype Screen = Screen(displays: seq<Rect>, workWidth: int, workHeight: int)

  const DefaultWidth: int := 1200
  const DefaultHeight: int := 800
  const MinWidth: int := 360
  const MinHeight: int := 600

  const DefaultState: WindowState := WindowState(DefaultWidth, DefaultHeight, None, None, None)

  /** The saved rectangle and the display overlap (strictly). */
  predicate Overlaps(s: WindowState, d: Rect)
    requires s.x.Some? && s.y.Some?
  {
    && s.x.value < d.x + d.width
    && s.x.value + s.width > d.x
    && s.y.value < d.y + d.height
    && s.y.value + s.height > d.y
  }

  /** The saved position is kept: it exists and overlaps some display. */
  predicate ValidPosition(s: WindowState, displays: seq<Rect>)
  {
    s.x.Some? && s.y.Some? && exists i :: 0 <= i < |displays| && Overlaps(s, displays[i])
  }

  /** `Math.round(n / 2)` for an integer `n`: halves round up. */
  function HalfRounded(n: int): (r: int)
    ensures 0 <= 2 * r - n <= 1
  {
    (n + 1) / 2
  }

  /** `Math.max(360, w)`, `Math.max(600, h)` */
  function Clamp(s: WindowState): (r: WindowState)
    ensures r.width >= MinWidth && r.height >= MinHeight
    ensures r.width == (if s.width < MinWidth then MinWidth else s.width)
    ensures r.height == (if s.height < MinHeight then MinHeight else s.height)
    ensures r.x == s.x && r.y == s.y && r.isMaximized == s.isMaximized
  {
    s.(width := if s.width < MinWidth then MinWidth else s.width,
       height := if s.height < MinHeight then MinHeight else s.height)
  }

  /** The state centred in the primary work area (with its unclamped size). */
  function Centre(s: WindowState, screen: Screen): WindowState
  {
    s.(x := Some(HalfRounded(screen.workWidth - s.width)), y := Some(HalfRounded(screen.workHeight - s.height)))
  }

  /** `getWindowState`: the default without a saved state; the saved state
      as is before the app is ready; otherwise the position is checked
      against the displays (`screen` is `None` when the screen module throws,
      which leaves the position alone) and the size is clamped. */
  function RecoveredState(saved: Option<WindowState>, appReady: bool, screen: Option<Screen>): WindowState
  {
    if saved.None? then DefaultState
    else if !appReady then saved.value
    else
      var s := saved.value;
      var positioned :=
        if screen.Some? && !ValidPosition(s, screen.value.displays) then Centre(s, screen.value) else s;
      Clamp(positioned)
  }

  /** Once the app is ready a restored window is never smaller than the
      minimum size, a position on some display is kept, and a lost window
      is centred on the primary work area (rounding halves up). */
  lemma RecoveredStateSpec(saved: WindowState, screen: Option<Screen>)
    ensures var r := RecoveredState(Some(saved), true, screen);
      && r.width >= MinWidth && r.height >= MinHeight
      && r.isMaximized == saved.isMaximized
      && (screen.None? || ValidPosition(saved, screen.value.displays) ==> r.x == saved.x && r.y == saved.y)
      && (screen.Some? && !ValidPosition(saved, screen.value.displays) ==>
            && r.x.Some? && 0 <= 2 * r.x.value - (screen.value.workWidth - saved.width) <= 1
            && r.y.Some? && 0 <= 2 * r.y.value - (screen.value.workHeight - saved.height) <= 1)
  {
  }

  /** Recovery is idempotent when the saved position overlaps a display:
      feeding the result back gives the result again. */
  lemma RecoveryStableOnValidPosition(saved: WindowState, screen: Screen)
    requires ValidPosition(saved, screen.displays)
    ensures var r := RecoveredState(Some(saved), true, Some(screen));
      RecoveredState(Some(r), true, Some(screen)) == r
  {
    var r := RecoveredState(Some(saved), true, Some(screen));
    var i :| 0 <= i < |screen.displays| && Overlaps(saved, screen.displays[i]);
    assert Overlaps(r, screen.displays[i]);
  }

  /** The loop over the displays, stopping at the first one the saved
      rectangle overlaps. */
  method GetWindowState(saved: Option<WindowState>, appReady: bool, screen: Option<Screen>) returns (r: WindowState)
    ensures r == RecoveredState(saved, appReady, screen)
  {
    if saved.None? {
      return DefaultState;
    }
    var state := saved.value;
    if !appReady {
      return state;
    }
    if screen.Some? {
      var displays := screen.value.displays;
      var isValidPosition := false;
      if state.x.Some? && state.y.Some? {
        var i := 0;
        while i < |displays|
          invariant 0 <= i <= |displays|
          invariant !isValidPosition
          invariant forall j :: 0 <= j < i ==> !Overlaps(state, displays[j])
        {
          if Overlaps(state, displays[i]) {
            isValidPosition := true;
            break;
          }
          i := i + 1;
        }
      }
      assert isValidPosition <==> ValidPosition(state, displays);
      if !isValidPosition {
        state := state.(x := Some(HalfRounded(screen.value.workWidth - state.width)),
                        y := Some(HalfRounded(screen.value.workHeight - state.height)));
      }
    }
    state := state.(width := if state.width < MinWidth then MinWidth else state.width);
    state := state.(height := if state.height < MinHeight then MinHeight else state.height);
    r := state;
  }
}

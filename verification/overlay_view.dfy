/**
  The Windows overlay view: a separate, owned top-level window that lives in
  screen space while its callers speak host-local coordinates. The view keeps
  the last parent (host window) position and the last host-local origin and
  recomputes the screen position as origin + parent whenever either changes.

  The native window is reached through a weak reference. It is modelled as an
  `alive` flag (cleared once the window has been destroyed, never set again) and
  the log of native calls made on it; what was last applied to it is read
  off that log.
 */
module WindowsOverlay {
  import opened Wrappers
  import opened Dpi

  /** A call the view makes on the native window. */
  datatype NativeCall =
    | SetOuterPosition(position: PhysicalPosition)
    | SetInnerSize(size: Size)

  /** The native window behind the weak reference: `calls` is every native call made on it, oldest first. */
  datatype OverlayWindow = OverlayWindow(alive: bool, calls: seq<NativeCall>)

  datatype CallKind = Move | Sizing

  function Kind(c: NativeCall): (k: CallKind) {
    match c
    case SetOuterPosition(_) => Move
    case SetInnerSize(_) => Sizing
  }

  /** The index of the most recent call of the given kind in `calls`, or -1 when there is none. */
  function LastIndexOf(calls: seq<NativeCall>, kind: CallKind): (k: int)
    ensures -1 <= k < |calls|
    ensures 0 <= k ==> Kind(calls[k]) == kind
    ensures forall j | k < j < |calls| :: Kind(calls[j]) != kind
    decreases |calls|
  {
    if |calls| == 0 then -1
    else if Kind(calls[|calls| - 1]) == kind then |calls| - 1
    else LastIndexOf(calls[..|calls| - 1], kind)
  }

  /** The argument of the most recent `SetOuterPosition` in `calls`, if any. */
  function LastOuterPosition(calls: seq<NativeCall>): (r: Option<PhysicalPosition>)
    ensures r.None? <==> forall i | 0 <= i < |calls| :: !calls[i].SetOuterPosition?
  {
    var k := LastIndexOf(calls, Move);
    if k < 0 then None else Some(calls[k].position)
  }

  /** The argument of the most recent `SetInnerSize` in `calls`, if any. */
  function LastInnerSize(calls: seq<NativeCall>): (r: Option<Size>)
    ensures r.None? <==> forall i | 0 <= i < |calls| :: !calls[i].SetInnerSize?
  {
    var k := LastIndexOf(calls, Sizing);
    if k < 0 then None else Some(calls[k].size)
  }

  /** The screen position last applied to the window. */
  function AppliedPosition(w: OverlayWindow): (r: Option<PhysicalPosition>) {
    LastOuterPosition(w.calls)
  }

  /** The inner size last applied to the window. */
  function AppliedSize(w: OverlayWindow): (r: Option<Size>) {
    LastInnerSize(w.calls)
  }

  datatype WindowsOverlayView = WindowsOverlayView(
    overlay: OverlayWindow,
    parentPos: Position,
    lastOrigin: Position)

  /** A fresh view: both remembered positions are the physical origin; nothing is applied. */
  function New(overlay: OverlayWindow): (v: WindowsOverlayView)
    ensures v.parentPos == Position.Physical(ORIGIN) && v.lastOrigin == Position.Physical(ORIGIN)
    ensures v.overlay == overlay
  {
    WindowsOverlayView(overlay, Position.Physical(ORIGIN), Position.Physical(ORIGIN))
  }

  /**
    Records a host-local origin and moves the window to origin + parent.
    Only physical positions can be translated (the logical case is an
    unimplemented path), so both must be physical when the window is alive.
   */
  function SetOrigin(v: WindowsOverlayView, pos: Position): (r: WindowsOverlayView)
    requires v.overlay.alive ==> pos.Physical? && v.parentPos.Physical?
    ensures r.parentPos == v.parentPos && r.overlay.alive == v.overlay.alive
    ensures v.overlay.alive ==>
      && r.lastOrigin == pos
      && AppliedPosition(r.overlay) == Some(Translate(pos.physical, v.parentPos.physical))
      && AppliedSize(r.overlay) == AppliedSize(v.overlay)
      && v.overlay.calls < r.overlay.calls
      && |r.overlay.calls| == |v.overlay.calls| + 1
    ensures !v.overlay.alive ==> r == v
  {
    if v.overlay.alive then
      var translated := Translate(pos.physical, v.parentPos.physical);
      var calls := v.overlay.calls + [SetOuterPosition(translated)];
      v.(lastOrigin := pos, overlay := v.overlay.(calls := calls))
    else
      v
  }

  /**
    Records the host window's screen position (even when the native window is
    gone) and re-applies the last origin against it.
   */
  function SetParentPosition(v: WindowsOverlayView, pos: Position): (r: WindowsOverlayView)
    requires v.overlay.alive ==> pos.Physical? && v.lastOrigin.Physical?
    ensures r.parentPos == pos && r.lastOrigin == v.lastOrigin
    ensures r.overlay.alive == v.overlay.alive
    ensures v.overlay.alive ==>
      && AppliedPosition(r.overlay) == Some(Translate(v.lastOrigin.physical, pos.physical))
      && AppliedSize(r.overlay) == AppliedSize(v.overlay)
      && v.overlay.calls < r.overlay.calls
      && |r.overlay.calls| == |v.overlay.calls| + 1
    ensures !v.overlay.alive ==> r.overlay == v.overlay
  {
    SetOrigin(v.(parentPos := pos), v.lastOrigin)
  }

  /** Applies a size to the window unchanged, physical or logical; the remembered positions are untouched. */
  function SetSize(v: WindowsOverlayView, size: Size): (r: WindowsOverlayView)
    ensures r.parentPos == v.parentPos && r.lastOrigin == v.lastOrigin
    ensures r.overlay.alive == v.overlay.alive
    ensures v.overlay.alive ==>
      && AppliedSize(r.overlay) == Some(size)
      && AppliedPosition(r.overlay) == AppliedPosition(v.overlay)
      && v.overlay.calls < r.overlay.calls
      && |r.overlay.calls| == |v.overlay.calls| + 1
    ensures !v.overlay.alive ==> r == v
  {
    if v.overlay.alive then
      v.(overlay := v.overlay.(calls := v.overlay.calls + [SetInnerSize(size)]))
    else
      v
  }

  /** The native window is destroyed: every later upgrade of the weak reference fails. */
  function Destroy(v: WindowsOverlayView): (r: WindowsOverlayView)
    ensures !r.overlay.alive
    ensures r.overlay.calls == v.overlay.calls
    ensures r.parentPos == v.parentPos && r.lastOrigin == v.lastOrigin
  {
    v.(overlay := v.overlay.(alive := false))
  }

  /** The operations a caller can perform on the view, plus the window going away. */
  datatype ViewCall =
    | ParentPosition(pos: Position)
    | Origin(pos: Position)
    | InnerSize(size: Size)
    | Destroyed

  /** The call only carries physical positions. */
  predicate PhysicalCall(c: ViewCall) {
    match c
    case ParentPosition(p) => p.Physical?
    case Origin(p) => p.Physical?
    case _ => true
  }

  predicate PositionCall(c: ViewCall) {
    c.ParentPosition? || c.Origin?
  }

  /** While the window is alive, both remembered positions are physical. */
  predicate CoordsPhysical(v: WindowsOverlayView) {
    v.overlay.alive ==> v.parentPos.Physical? && v.lastOrigin.Physical?
  }

  /**
    The tracking invariant: while the window is alive, the position it was
    last moved to (if it was moved at all) is last origin + parent position.
   */
  predicate Synced(v: WindowsOverlayView) {
    && CoordsPhysical(v)
    && (v.overlay.alive && AppliedPosition(v.overlay).Some? ==>
          AppliedPosition(v.overlay).value == Translate(v.lastOrigin.physical, v.parentPos.physical))
  }

  function Step(v: WindowsOverlayView, c: ViewCall): (r: WindowsOverlayView)
    requires CoordsPhysical(v) && (v.overlay.alive ==> PhysicalCall(c))
    ensures CoordsPhysical(r)
    ensures r.overlay.alive ==> v.overlay.alive
    ensures !v.overlay.alive ==> r.overlay == v.overlay && r.lastOrigin == v.lastOrigin
  {
    match c
    case ParentPosition(p) => SetParentPosition(v, p)
    case Origin(p) => SetOrigin(v, p)
    case InnerSize(s) => SetSize(v, s)
    case Destroyed => Destroy(v)
  }

  /**
    Performs `cs` in order. Only sequences whose positions are all physical
    are considered, including calls made after the window is gone (which the
    view would accept with any position, as `Step` shows).
   */
  function Run(v: WindowsOverlayView, cs: seq<ViewCall>): (r: WindowsOverlayView)
    requires CoordsPhysical(v)
    requires forall i | 0 <= i < |cs| :: PhysicalCall(cs[i])
    ensures CoordsPhysical(r)
    decreases |cs|
  {
    if |cs| == 0 then v else Run(Step(v, cs[0]), cs[1..])
  }

  lemma StepPreservesSynced(v: WindowsOverlayView, c: ViewCall)
    requires Synced(v) && PhysicalCall(c)
    ensures Synced(Step(v, c))
  {
  }

  /** The tracking invariant holds after any sequence of physical calls. */
  lemma {:induction false} RunPreservesSynced(v: WindowsOverlayView, cs: seq<ViewCall>)
    requires Synced(v)
    requires forall i | 0 <= i < |cs| :: PhysicalCall(cs[i])
    ensures Synced(Run(v, cs))
    decreases |cs|
  {
    if |cs| > 0 {
      StepPreservesSynced(v, cs[0]);
      RunPreservesSynced(Step(v, cs[0]), cs[1..]);
    }
  }

  /** Once the window is gone, no call reaches it and the origin is frozen. */
  lemma {:induction false} RunAfterDestroy(v: WindowsOverlayView, cs: seq<ViewCall>)
    requires CoordsPhysical(v) && !v.overlay.alive
    requires forall i | 0 <= i < |cs| :: PhysicalCall(cs[i])
    ensures Run(v, cs).overlay == v.overlay
    ensures Run(v, cs).lastOrigin == v.lastOrigin
    decreases |cs|
  {
    if |cs| > 0 {
      RunAfterDestroy(Step(v, cs[0]), cs[1..]);
    }
  }

  /** A window still alive after the run was alive before it. */
  lemma {:induction false} RunAliveMonotone(v: WindowsOverlayView, cs: seq<ViewCall>)
    requires CoordsPhysical(v)
    requires forall i | 0 <= i < |cs| :: PhysicalCall(cs[i])
    ensures Run(v, cs).overlay.alive ==> v.overlay.alive
    decreases |cs|
  {
    if |cs| > 0 {
      RunAliveMonotone(Step(v, cs[0]), cs[1..]);
    }
  }

  /** Once positioned, a window that stays alive keeps having an applied position. */
  lemma {:induction false} RunPositions(v: WindowsOverlayView, cs: seq<ViewCall>)
    requires CoordsPhysical(v)
    requires forall i | 0 <= i < |cs| :: PhysicalCall(cs[i])
    requires AppliedPosition(v.overlay).Some? || exists i | 0 <= i < |cs| :: PositionCall(cs[i])
    requires Run(v, cs).overlay.alive
    ensures AppliedPosition(Run(v, cs).overlay).Some?
    decreases |cs|
  {
    if |cs| == 0 {
    } else {
      var w := Step(v, cs[0]);
      RunAliveMonotone(w, cs[1..]);
      if !AppliedPosition(w.overlay).Some? {
        var i :| 0 <= i < |cs| && PositionCall(cs[i]);
        assert i != 0;
        assert PositionCall(cs[1..][i - 1]);
      }
      RunPositions(w, cs[1..]);
    }
  }

  /**
    For a freshly created, live window: after any sequence of physical calls
    that contains at least one origin or parent-position update, while the
    window stays alive, it sits at last origin + parent position.
   */
  lemma {:induction false} TracksHost(w: OverlayWindow, cs: seq<ViewCall>)
    requires w.alive && w.calls == []
    requires forall i | 0 <= i < |cs| :: PhysicalCall(cs[i])
    requires exists i | 0 <= i < |cs| :: PositionCall(cs[i])
    requires Run(New(w), cs).overlay.alive
    ensures var r := Run(New(w), cs);
      AppliedPosition(r.overlay) == Some(Translate(r.lastOrigin.physical, r.parentPos.physical))
  {
    RunPreservesSynced(New(w), cs);
    RunPositions(New(w), cs);
  }

  /** Origin and parent updates commute: either order ends in the same state and screen position. */
  lemma UpdatesCommute(v: WindowsOverlayView, p: PhysicalPosition, q: PhysicalPosition)
    requires v.overlay.alive && CoordsPhysical(v)
    ensures var a := SetOrigin(SetParentPosition(v, Position.Physical(q)), Position.Physical(p));
      var b := SetParentPosition(SetOrigin(v, Position.Physical(p)), Position.Physical(q));
      && a.lastOrigin == b.lastOrigin == Position.Physical(p)
      && a.parentPos == b.parentPos == Position.Physical(q)
      && AppliedPosition(a.overlay) == AppliedPosition(b.overlay) == Some(Translate(p, q))
      && AppliedSize(a.overlay) == AppliedSize(b.overlay) == AppliedSize(v.overlay)
  {
  }

  /** Setting the same origin twice leaves the same state and screen position as setting it once. */
  lemma SetOriginIdempotent(v: WindowsOverlayView, p: Position)
    requires v.overlay.alive ==> p.Physical? && v.parentPos.Physical?
    ensures var once := SetOrigin(v, p);
      var twice := SetOrigin(once, p);
      && twice.lastOrigin == once.lastOrigin && twice.parentPos == once.parentPos
      && twice.overlay.alive == once.overlay.alive
      && AppliedPosition(twice.overlay) == AppliedPosition(once.overlay)
      && AppliedSize(twice.overlay) == AppliedSize(once.overlay)
  {
  }

  /** Setting the same parent position twice leaves the same state and screen position as setting it once. */
  lemma SetParentPositionIdempotent(v: WindowsOverlayView, q: Position)
    requires v.overlay.alive ==> q.Physical? && v.lastOrigin.Physical?
    ensures var once := SetParentPosition(v, q);
      var twice := SetParentPosition(once, q);
      && twice.lastOrigin == once.lastOrigin && twice.parentPos == once.parentPos
      && twice.overlay.alive == once.overlay.alive
      && AppliedPosition(twice.overlay) == AppliedPosition(once.overlay)
      && AppliedSize(twice.overlay) == AppliedSize(once.overlay)
  {
  }
}

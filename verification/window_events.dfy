/**
  The geometry policy and the host-window event handler that keeps the
  overlay view and the GPU surface in step with the host window.

  The handler's floating-point arithmetic is modelled over exact reals;
  each `as u32` / `as i32` cast of a non-negative value is its floor.
 */
module Synchronizer {
  import opened Wrappers
  import opened Dpi
  import opened WindowsOverlay
  import opened Gpu

  /** Distance of the overlay from the host's top edge, in pixels. */
  const OVERLAY_Y: int := 100

  /** The size the GPU surface is created with. */
  const INITIAL_SURFACE_SIZE: PhysicalSize := PhysicalSize(200, 200)

  /** Where the overlay goes, in host-local coordinates, and how big it is. */
  datatype OverlayGeometry = OverlayGeometry(origin: PhysicalPosition, size: PhysicalSize)

  /**
    A band 30% of the host's width and 10% of its height, centred
    horizontally, 100 pixels below the host's top edge.
   */
  function Geometry(host: PhysicalSize): (g: OverlayGeometry)
    ensures g.size.width <= host.width && g.size.height <= host.height
    ensures g.origin.y == OVERLAY_Y
    ensures 0 <= g.origin.x && g.origin.x + g.size.width <= host.width
    ensures host.width - 3 < 2 * g.origin.x + g.size.width <= host.width
    ensures g.size.width == 3 * host.width / 10 && g.size.height == host.height / 10
    ensures g.origin.x == 7 * host.width / 20
    ensures FitsI32(g.origin.x)
    ensures (g.size.height == 0) <==> host.height < 10
    ensures (g.size.width == 0) <==> host.width < 4
  {
    var overlayWidth := host.width as real * 0.3;
    var overlayHeight := host.height as real * 0.1;
    var x := (host.width as real - overlayWidth) / 2.0;
    OverlayGeometry(
      PhysicalPosition(x.Floor, OVERLAY_Y),
      PhysicalSize(overlayWidth.Floor, overlayHeight.Floor))
  }

  /** A 1000 by 800 host gets a 300 by 80 overlay at (350, 100). */
  lemma GeometryExample()
    ensures Geometry(PhysicalSize(1000, 800))
      == OverlayGeometry(PhysicalPosition(350, 100), PhysicalSize(300, 80))
  {
  }

  /** Host window notifications the handler receives; every other kind is ignored. */
  datatype WindowEvent =
    | Moved(position: PhysicalPosition)
    | Resized(size: PhysicalSize)
    | Other

  /** Everything the handler acts on: host events, and the overlay window being destroyed under it. */
  datatype Event =
    | Window(event: WindowEvent)
    | OverlayClosed

  datatype AppState = AppState(view: WindowsOverlayView, gpu: WgpuState)

  /** The state shared by the handler: the view tracks the host, the surface is presentable. */
  predicate Invariant(s: AppState) {
    Synced(s.view) && Presentable(s.gpu)
  }

  /**
    Creates the overlay view and its GPU surface (200 by 200). Fails, where
    the process would abort, when the overlay window is already gone (its
    weak reference cannot be upgraded to hand out a window handle) or when no
    surface format can be negotiated.
   */
  function Startup(overlay: OverlayWindow, preferredFormat: Option<TextureFormat>): (r: Option<AppState>)
    requires overlay.calls == []
    ensures r.Some? <==> overlay.alive && preferredFormat.Some?
    ensures r.Some? ==> Invariant(r.value) && r.value.gpu.size == INITIAL_SURFACE_SIZE
    ensures r.Some? ==> r.value.view.overlay == overlay
    ensures r.Some? ==>
      && r.value.view.parentPos == Position.Physical(ORIGIN)
      && r.value.view.lastOrigin == Position.Physical(ORIGIN)
      && r.value.gpu.config.usage == RENDER_ATTACHMENT
      && r.value.gpu.config.format == preferredFormat.value
      && r.value.gpu.config.presentMode == Fifo
  {
    if !overlay.alive then None
    else match Gpu.New(preferredFormat, INITIAL_SURFACE_SIZE)
    case None => None
    case Some(gpu) => Some(AppState(WindowsOverlay.New(overlay), gpu))
  }

  /**
    Moves forward the host position as a physical parent position; on a
    resize, places and sizes the overlay by the geometry policy and resizes
    the surface to the same overlay size.
   */
  function OnWindowEvent(s: AppState, e: WindowEvent): (r: AppState)
    requires CoordsPhysical(s.view)
    ensures CoordsPhysical(r.view)
    ensures r.view.overlay.alive == s.view.overlay.alive
    ensures Invariant(s) ==> Invariant(r)
  {
    match e
    case Moved(pos) =>
      s.(view := SetParentPosition(s.view, Position.Physical(pos)))
    case Resized(size) =>
      var g := Geometry(size);
      var view := SetOrigin(s.view, Position.Physical(g.origin));
      AppState(SetSize(view, Size.Physical(g.size)), Resize(s.gpu, g.size))
    case Other =>
      s
  }

  function Handle(s: AppState, e: Event): (r: AppState)
    requires CoordsPhysical(s.view)
    ensures CoordsPhysical(r.view)
    ensures Invariant(s) ==> Invariant(r)
    ensures r.view.overlay.alive ==> s.view.overlay.alive
  {
    match e
    case Window(we) => OnWindowEvent(s, we)
    case OverlayClosed => s.(view := Destroy(s.view))
  }

  function Run(s: AppState, es: seq<Event>): (r: AppState)
    requires CoordsPhysical(s.view)
    ensures CoordsPhysical(r.view)
    decreases |es|
  {
    if |es| == 0 then s else Run(Handle(s, es[0]), es[1..])
  }

  /** Any event sequence keeps the overlay tracking the host and the surface presentable. */
  lemma {:induction false} RunPreservesInvariant(s: AppState, es: seq<Event>)
    requires Invariant(s)
    ensures Invariant(Run(s, es))
    decreases |es|
  {
    if |es| > 0 {
      RunPreservesInvariant(Handle(s, es[0]), es[1..]);
    }
  }

  /** The overlay sizes the handler asks the surface for, one per `Resized` event, in order. */
  function SurfaceRequests(es: seq<Event>): (r: seq<PhysicalSize>)
    ensures |r| <= |es|
    decreases |es|
  {
    if |es| == 0 then []
    else match es[0]
      case Window(Resized(host)) => [Geometry(host).size] + SurfaceRequests(es[1..])
      case _ => SurfaceRequests(es[1..])
  }

  /** Over any event sequence, the surface goes through exactly the resizes the `Resized` events request. */
  lemma {:induction false} RunResizesSurface(s: AppState, es: seq<Event>)
    requires CoordsPhysical(s.view)
    ensures Run(s, es).gpu == ResizeAll(s.gpu, SurfaceRequests(es))
    decreases |es|
  {
    if |es| > 0 {
      RunResizesSurface(Handle(s, es[0]), es[1..]);
      match es[0]
      case Window(Resized(host)) =>
        var rest := SurfaceRequests(es[1..]);
        assert ([Geometry(host).size] + rest)[1..] == rest;
      case _ =>
    }
  }

  /** Last write wins: the surface ends at the last non-degenerate overlay size requested, if any. */
  lemma SurfaceFollowsLastResize(s: AppState, es: seq<Event>)
    requires CoordsPhysical(s.view)
    ensures Run(s, es).gpu.size == LastNonDegenerate(SurfaceRequests(es), s.gpu.size)
  {
    RunResizesSurface(s, es);
    ResizeAllLastWins(s.gpu, SurfaceRequests(es));
  }

  /** From startup on, the surface is never configured with a zero dimension. */
  lemma NeverDegenerate(overlay: OverlayWindow, format: TextureFormat, es: seq<Event>)
    requires overlay.alive && overlay.calls == []
    ensures var r := Run(Startup(overlay, Some(format)).value, es);
      && NonDegenerate(r.gpu.size)
      && r.gpu.config.width == r.gpu.size.width && r.gpu.config.height == r.gpu.size.height
  {
    RunPreservesInvariant(Startup(overlay, Some(format)).value, es);
  }

  /** A move forwards the host position unchanged as the physical parent position and leaves the surface alone. */
  lemma MovedForwardsPosition(s: AppState, pos: PhysicalPosition)
    requires CoordsPhysical(s.view)
    ensures var r := OnWindowEvent(s, Moved(pos));
      && r.view.parentPos == Position.Physical(pos)
      && r.view.lastOrigin == s.view.lastOrigin
      && r.gpu == s.gpu
      && (s.view.overlay.alive ==>
            AppliedPosition(r.view.overlay) == Some(Translate(s.view.lastOrigin.physical, pos)))
  {
  }

  /**
    A resize commits the policy's geometry: origin to the view, the same
    size to the window and, when both dimensions are positive, to the surface.
   */
  lemma ResizedCommitsGeometry(s: AppState, host: PhysicalSize)
    requires CoordsPhysical(s.view)
    ensures var r := OnWindowEvent(s, Resized(host));
      var g := Geometry(host);
      && r.view.parentPos == s.view.parentPos
      && (s.view.overlay.alive ==>
            && r.view.lastOrigin == Position.Physical(g.origin)
            && AppliedPosition(r.view.overlay) == Some(Translate(g.origin, s.view.parentPos.physical))
            && AppliedSize(r.view.overlay) == Some(Size.Physical(g.size)))
      && (NonDegenerate(g.size) ==> r.gpu.size == g.size)
      && SameMode(r.gpu.config, s.gpu.config)
  {
  }

  /**
    A host less than 10 pixels tall gives the overlay window a height of 0,
    while the surface keeps its previous configuration.
   */
  lemma ShortHostDesynchronizes(s: AppState, host: PhysicalSize)
    requires CoordsPhysical(s.view) && s.view.overlay.alive
    requires host.height < 10
    ensures var r := OnWindowEvent(s, Resized(host));
      && AppliedSize(r.view.overlay).value.physical.height == 0
      && r.gpu == s.gpu
  {
  }

  /** Handling the same host size twice commits the same geometry both times. */
  lemma ResizedIdempotent(s: AppState, host: PhysicalSize)
    requires CoordsPhysical(s.view)
    ensures var once := OnWindowEvent(s, Resized(host));
      var twice := OnWindowEvent(once, Resized(host));
      && twice.view.lastOrigin == once.view.lastOrigin
      && twice.view.parentPos == once.view.parentPos
      && AppliedPosition(twice.view.overlay) == AppliedPosition(once.view.overlay)
      && AppliedSize(twice.view.overlay) == AppliedSize(once.view.overlay)
      && twice.gpu == once.gpu
  {
  }

  /**
    With the overlay at local origin (350, 100), moving the host from
    (100, 100) to (150, 120) moves the overlay from (450, 200) to (500, 220).
   */
  lemma ParentMoveExample(overlay: OverlayWindow, format: TextureFormat)
    requires overlay.alive && overlay.calls == []
    ensures var s0 := Startup(overlay, Some(format)).value;
      var s1 := OnWindowEvent(s0, Resized(PhysicalSize(1000, 800)));
      var s2 := OnWindowEvent(s1, Moved(PhysicalPosition(100, 100)));
      var s3 := OnWindowEvent(s2, Moved(PhysicalPosition(150, 120)));
      && AppliedPosition(s2.view.overlay) == Some(PhysicalPosition(450, 200))
      && AppliedPosition(s3.view.overlay) == Some(PhysicalPosition(500, 220))
      && AppliedSize(s3.view.overlay) == Some(Size.Physical(PhysicalSize(300, 80)))
      && s3.gpu.size == PhysicalSize(300, 80)
  {
    GeometryExample();
  }
}

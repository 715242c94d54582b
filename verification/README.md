# Overlay position tracking and GPU surface sizing

A Dafny model of the core of a Tauri/wgpu overlay experiment: a borderless,
click-through window drawn by the GPU on top of a host application window.
The model covers:

- the Windows overlay view (`WindowsOverlayView`), an owned top-level window
  in screen space that remembers the host window's position and the last
  host-local origin and places itself at origin + parent whenever either
  changes; its native window is a weak reference, so every operation is a
  silent no-op once the window is gone;
- the GPU surface bookkeeping (`WgpuState`): the surface configuration
  (usage, format, present mode, width, height) and the recorded size, kept in
  lock-step, with a resize that only applies strictly positive sizes;
- the geometry policy and the host-window event handler: `Moved` forwards
  the host position to the view, `Resized` computes the overlay band
  (30% by 10% of the host, centred, 100 pixels down) and feeds the same size
  to the overlay window and to the surface.

Modules, one per source component:

- `Dpi` (`dpi.dfy`): physical and logical positions and sizes, `u32`.
- `WindowsOverlay` (`overlay_view.dfy`): the view over an `OverlayWindow`
  record holding an `alive` flag and the log of native calls
  (`SetOuterPosition`, `SetInnerSize`). The position and size last applied
  to the window are the arguments of the last such calls (`AppliedPosition`,
  `AppliedSize`); before any call the window keeps the position and size it
  was created with, and both are `None`.
- `Gpu` (`wgpu_state.dfy`): the surface configuration record, `New` and `Resize`.
- `Synchronizer` (`window_events.dfy`): the geometry policy, startup, and
  the `Moved` / `Resized` handler, run over sequences of events that also
  include the overlay window being destroyed.
- `Wrappers` (`wrappers.dfy`): `Option`.

Modelling choices:

- The native overlay window is an `alive` flag that only goes from true to
  false (`WindowsOverlay.Destroy`), standing for `Weak::upgrade` failing.
- A logical position reaching `set_origin`'s translation is an
  `unimplemented!` path. It is stated as a precondition: when the window is
  alive, the position and the other remembered position must be physical.
- Adapter, device and preferred-format negotiation are a foreign call; its
  outcome is the parameter `preferredFormat` of `Gpu.New`, where `None` is
  the path on which the source aborts.
- The handler's `f64` arithmetic is modelled over exact reals, each cast of
  a non-negative value to an integer being its floor.
- Pixel coordinates are unbounded integers.

Arithmetic and error handling, as the code has them:

- The overlay size is the truncation of 0.3·w and 0.1·h; the origin is
  computed from the untruncated width, so it is the truncation of 0.35·w.
- The render thread calls `expect` on each frame's result
  (src-tauri/src/main.rs:223), so the first failed frame ends it. The panic
  happens while that thread holds the surface state's lock, which poisons
  it: the next `Resized` event then panics on the event thread when it locks
  the surface state (src-tauri/src/main.rs:212), after `set_origin` and
  `set_size` have already run. The render loop is not part of this model.

## Model

| member | source | states |
|---|---|---|
| `Dpi.Translate` | src-tauri/src/overlay/windows.rs:43-48 | the screen position minus the parent position gives back the host-local origin, coordinate by coordinate |
| `WindowsOverlay.New` | src-tauri/src/overlay/windows.rs:22-28 | a fresh view remembers the physical origin (0, 0) as both parent position and last origin and wraps the given window |
| `WindowsOverlay.SetOrigin` | src-tauri/src/overlay/windows.rs:37-53 | alive window: the origin is recorded, exactly one native call is made and the position last applied to the window is origin + parent, its size untouched; gone window: nothing changes at all; the parent position is never changed; logical positions are excluded when alive |
| `WindowsOverlay.SetParentPosition` | src-tauri/src/overlay/windows.rs:32-35 | the parent position is stored even when the window is gone and the last origin never changes; alive window: after one native call the position last applied is last origin + new parent; gone window: no native call |
| `WindowsOverlay.SetSize` | src-tauri/src/overlay/windows.rs:55-68 | alive window: the given size, physical or logical, is the size last applied and the applied position is untouched; gone window: nothing changes; the remembered positions never change |
| `WindowsOverlay.Destroy` | src-tauri/src/overlay/windows.rs:15-19 | destroying the native window clears its liveness and keeps the call log and the remembered positions |
| `WindowsOverlay.Step` | src-tauri/src/overlay/mod.rs:10-14 | any trait operation (with physical arguments while the window is alive; anything once it is gone) keeps the positions physical, never revives a gone window, and on a gone window makes no native call and keeps the origin |
| `WindowsOverlay.StepPreservesSynced` | src-tauri/src/overlay/windows.rs:32-53 | every single operation keeps the window at last origin + parent position whenever it has been positioned and is alive |
| `WindowsOverlay.RunPreservesSynced` | src-tauri/src/overlay/windows.rs:32-53 | the same tracking invariant holds after any sequence of physical operations, in any order |
| `WindowsOverlay.RunAfterDestroy` | src-tauri/src/overlay/windows.rs:38 | once the window is gone, no later operation reaches it and the last origin is frozen |
| `WindowsOverlay.RunAliveMonotone` | src-tauri/src/overlay/windows.rs:16 | a window alive after a sequence of operations was alive before it |
| `WindowsOverlay.RunPositions` | src-tauri/src/overlay/windows.rs:32-53 | a window that stays alive and receives an origin or parent update has a screen position applied from then on |
| `WindowsOverlay.TracksHost` | src-tauri/src/overlay/windows.rs:22-53 | from a fresh view, after any physical operation sequence with a position update, a live window sits exactly at last origin + parent position |
| `WindowsOverlay.UpdatesCommute` | src-tauri/src/overlay/windows.rs:32-51 | origin-then-parent and parent-then-origin end with the same remembered positions, the same screen position origin + parent and the same size |
| `WindowsOverlay.SetOriginIdempotent` | src-tauri/src/overlay/windows.rs:37-53 | repeating an origin update leaves the same remembered positions, liveness, screen position and size |
| `WindowsOverlay.SetParentPositionIdempotent` | src-tauri/src/overlay/windows.rs:32-35 | repeating a parent update leaves the same remembered positions, liveness, screen position and size |
| `Gpu.New` | src-tauri/src/main.rs:57-73 | creation succeeds exactly when a format was negotiated; the configuration matches the initial size, uses render-attachment usage, the negotiated format and FIFO presentation |
| `Gpu.Resize` | src-tauri/src/main.rs:77-84 | a strictly positive size becomes both the recorded size and the configured extent; a size with a zero dimension changes nothing; usage, format and present mode never change; size/config agreement and presentability are preserved |
| `Gpu.ResizeAll` | src-tauri/src/main.rs:77-84 | any sequence of resizes keeps usage, format and present mode, and preserves size/config agreement and presentability |
| `Gpu.ResizeAllLastWins` | src-tauri/src/main.rs:77-84 | after a sequence of resizes the size is the last strictly positive one requested, or the original when none was |
| `Gpu.StartupSurfaceStaysPresentable` | src-tauri/src/main.rs:57-84 | the 200 by 200 startup surface stays consistent and non-degenerate, with render-attachment usage and FIFO presentation, through any resize sequence |
| `Gpu.ZeroResizeKeepsConfiguration` | src-tauri/src/main.rs:77-84 | after a resize to 300 by 80, a resize to 0 by 600 leaves the configuration at 300 by 80 |
| `Synchronizer.Geometry` | src-tauri/src/main.rs:193-205 | the overlay is ⌊3w/10⌋ by ⌊h/10⌋ at host-local x = ⌊7w/20⌋, y = 100; it fits inside the host, is centred to within rounding (both margins differ by less than 3 pixels), has an origin that fits in i32, and has zero height exactly when the host is under 10 pixels tall (zero width under 4 pixels wide) |
| `Synchronizer.GeometryExample` | src-tauri/src/main.rs:197-205 | a 1000 by 800 host gives a 300 by 80 overlay at (350, 100) |
| `Synchronizer.Startup` | src-tauri/src/main.rs:161-180 | startup succeeds exactly when the overlay window is still alive and a format was negotiated; then the view is fresh (both remembered positions (0, 0)) and tracks the host, and the surface is a presentable 200 by 200 with render-attachment usage, the negotiated format and FIFO presentation |
| `Synchronizer.OnWindowEvent` | src-tauri/src/main.rs:185-215 | handling a host event keeps positions physical, never changes the window's liveness and preserves the tracking and presentability invariant |
| `Synchronizer.Handle` | src-tauri/src/main.rs:185-215 | host events and the overlay window being destroyed preserve the invariant and never revive the window |
| `Synchronizer.RunPreservesInvariant` | src-tauri/src/main.rs:185-215 | any sequence of host events and window destruction keeps the overlay tracking the host and the surface presentable |
| `Synchronizer.RunResizesSurface` | src-tauri/src/main.rs:185-215 | over any sequence of host events and window destruction, the surface undergoes exactly the resizes to the overlay sizes of the `Resized` events, in order; moves and other events never touch it |
| `Synchronizer.SurfaceFollowsLastResize` | src-tauri/src/main.rs:191-212 | after any event sequence the surface size is the last non-degenerate overlay size a `Resized` event produced, or the previous size when there was none |
| `Synchronizer.NeverDegenerate` | src-tauri/src/main.rs:161-212 | from startup, whatever events follow, the surface size is strictly positive and equals the configured extent |
| `Synchronizer.MovedForwardsPosition` | src-tauri/src/main.rs:186-190 | a move stores the host position unchanged as the physical parent position, keeps the origin and the surface, and a live window's last applied position is origin + new host position |
| `Synchronizer.ResizedCommitsGeometry` | src-tauri/src/main.rs:191-213 | a resize gives a live window the policy's origin (translated by the parent) and size, gives the surface that same size when it is non-degenerate, and keeps the surface mode |
| `Synchronizer.ShortHostDesynchronizes` | src-tauri/src/main.rs:198-212 | a host under 10 pixels tall gives the live overlay window height 0 while the surface keeps its previous state |
| `Synchronizer.ResizedIdempotent` | src-tauri/src/main.rs:191-213 | handling the same host size twice commits the same origin, screen position, window size and surface state as handling it once |
| `Synchronizer.ParentMoveExample` | src-tauri/src/main.rs:186-212 | with origin (350, 100), moving the host from (100, 100) to (150, 120) moves the overlay from (450, 200) to (500, 220), with a 300 by 80 window and surface |

## Left out

- `WgpuState::new` adapter and device negotiation and `surface.configure`: foreign GPU calls; only the configuration record is modelled, with the negotiation's outcome as a parameter.
- `WgpuState::render` and the render thread: GPU command encoding and floating-point clear colours, and a free-running thread whose point is concurrency.
- The `Arc<Mutex<..>>` sharing between the event and render threads and the tokio `block_on` startup barrier: concurrency and async execution.
- src-tauri/src/overlay/macos.rs, the embedded-subview variant: raw Objective-C calls, and its only method (`set_frame`) is not an operation of the `OverlayView` trait, so it pins down no trait behaviour; the comparison of the two variants is therefore not modelled.
- `add_overlay`, `make_window_passthrough_events` and the `HasRawWindowHandle` impls: native window creation, style flags and handle plumbing. The created window is modelled as a window with no calls made on it yet; startup fails if it is already gone.
- `build_menu`, `main` and the `set_overlay_position` command: application wiring.
- Logical positions: their translation by the parent is `unimplemented!` in the source (src-tauri/src/overlay/windows.rs:49), so they are excluded by precondition while the window is alive; once it is gone they are stored unchanged.
- Logical sizes are passed to the native window unchanged (src-tauri/src/overlay/windows.rs:62-65); how the native window scales them by DPI is a foreign call and is not modelled.
- Synchronizer.Geometry: exact `f64` rounding of `w * 0.3` and `h * 0.1` and the saturating float-to-int casts are replaced by exact real arithmetic and floor.
- Dpi.Translate: the `i32` addition of origin and parent is unbounded, so its overflow is not modelled.

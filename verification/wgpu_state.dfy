/**
  The GPU surface state of the overlay: the surface configuration handed to
  the presentation layer and the size it was configured for. Device, queue and
  surface handles are foreign objects and are not part of the model.
 */
module Gpu {
  import opened Wrappers
  import opened Dpi

  datatype TextureUsage = CopySrc | CopyDst | TextureBinding | StorageBinding | RenderAttachment

  /** The usage flag set the overlay's surface is configured with. */
  const RENDER_ATTACHMENT: set<TextureUsage> := {RenderAttachment}

  /** A pixel format, as the surface reports its preferred one. */
  datatype TextureFormat = TextureFormat(name: string)

  datatype PresentMode = Immediate | Mailbox | Fifo

  datatype SurfaceConfiguration = SurfaceConfiguration(
    usage: set<TextureUsage>,
    format: TextureFormat,
    width: u32,
    height: u32,
    presentMode: PresentMode)

  datatype WgpuState = WgpuState(config: SurfaceConfiguration, size: PhysicalSize)

  /** The configured extent and the recorded size agree. */
  predicate Consistent(s: WgpuState) {
    s.config.width == s.size.width && s.config.height == s.size.height
  }

  /** Consistent, and never configured with a zero dimension. */
  predicate Presentable(s: WgpuState) {
    Consistent(s) && NonDegenerate(s.size)
  }

  /** Same usage, format and present mode. */
  predicate SameMode(a: SurfaceConfiguration, b: SurfaceConfiguration) {
    a.usage == b.usage && a.format == b.format && a.presentMode == b.presentMode
  }

  /**
    Configures a new surface for `size`. `preferredFormat` is the outcome of
    adapter, device and preferred-format negotiation; `None` stands for any of
    those failing, where the process aborts.
   */
  function New(preferredFormat: Option<TextureFormat>, size: PhysicalSize): (r: Option<WgpuState>)
    ensures r.Some? <==> preferredFormat.Some?
    ensures r.Some? ==>
      && Consistent(r.value)
      && r.value.size == size
      && r.value.config.usage == RENDER_ATTACHMENT
      && r.value.config.format == preferredFormat.value
      && r.value.config.presentMode == Fifo
  {
    match preferredFormat
    case None => None
    case Some(format) =>
      var config := SurfaceConfiguration(RENDER_ATTACHMENT, format, size.width, size.height, Fifo);
      Some(WgpuState(config, size))
  }

  /** Reconfigures for `newSize` when both of its dimensions are positive; otherwise changes nothing. */
  function Resize(s: WgpuState, newSize: PhysicalSize): (r: WgpuState)
    ensures SameMode(r.config, s.config)
    ensures NonDegenerate(newSize) ==>
      r.size == newSize && r.config.width == newSize.width && r.config.height == newSize.height
    ensures !NonDegenerate(newSize) ==> r == s
    ensures Consistent(s) ==> Consistent(r)
    ensures Presentable(s) ==> Presentable(r)
  {
    if newSize.width > 0 && newSize.height > 0 then
      s.(size := newSize, config := s.config.(width := newSize.width, height := newSize.height))
    else
      s
  }

  /** The last strictly positive size in `sizes`, or `current` when there is none. */
  function LastNonDegenerate(sizes: seq<PhysicalSize>, current: PhysicalSize): (r: PhysicalSize)
    decreases |sizes|
  {
    if |sizes| == 0 then current
    else if NonDegenerate(sizes[|sizes| - 1]) then sizes[|sizes| - 1]
    else LastNonDegenerate(sizes[..|sizes| - 1], current)
  }

  /** Applies `sizes` in order, as successive resize requests. */
  function ResizeAll(s: WgpuState, sizes: seq<PhysicalSize>): (r: WgpuState)
    ensures SameMode(r.config, s.config)
    ensures Consistent(s) ==> Consistent(r)
    ensures Presentable(s) ==> Presentable(r)
    decreases |sizes|
  {
    if |sizes| == 0 then s else ResizeAll(Resize(s, sizes[0]), sizes[1..])
  }

  /** Last write wins: the surface ends at the last positive size requested, if any. */
  lemma {:induction false} ResizeAllLastWins(s: WgpuState, sizes: seq<PhysicalSize>)
    ensures ResizeAll(s, sizes).size == LastNonDegenerate(sizes, s.size)
    decreases |sizes|
  {
    if |sizes| > 0 {
      ResizeAllLastWins(Resize(s, sizes[0]), sizes[1..]);
      LastNonDegenerateCons(sizes[0], sizes[1..], s.size);
      assert sizes == [sizes[0]] + sizes[1..];
    }
  }

  lemma {:induction false} LastNonDegenerateCons(first: PhysicalSize, rest: seq<PhysicalSize>, current: PhysicalSize)
    ensures LastNonDegenerate([first] + rest, current)
      == LastNonDegenerate(rest, if NonDegenerate(first) then first else current)
    decreases |rest|
  {
    var all := [first] + rest;
    if |rest| == 0 {
      assert all[..0] == [];
    } else {
      assert all[..|all| - 1] == [first] + rest[..|rest| - 1];
      if !NonDegenerate(rest[|rest| - 1]) {
        LastNonDegenerateCons(first, rest[..|rest| - 1], current);
      }
    }
  }

  /** The surface created at startup (200 by 200) stays presentable through any resize sequence. */
  lemma StartupSurfaceStaysPresentable(format: TextureFormat, sizes: seq<PhysicalSize>)
    ensures var s := New(Some(format), PhysicalSize(200, 200)).value;
      && Presentable(ResizeAll(s, sizes))
      && ResizeAll(s, sizes).config.usage == RENDER_ATTACHMENT
      && ResizeAll(s, sizes).config.presentMode == Fifo
  {
  }

  /** A zero-dimension request after a valid one leaves the valid configuration in place. */
  lemma ZeroResizeKeepsConfiguration(s: WgpuState)
    ensures var r := ResizeAll(s, [PhysicalSize(300, 80), PhysicalSize(0, 600)]);
      r.config.width == 300 && r.config.height == 80 && r.size == PhysicalSize(300, 80)
  {
    assert [PhysicalSize(300, 80), PhysicalSize(0, 600)][1..] == [PhysicalSize(0, 600)];
  }
}

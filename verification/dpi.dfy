/**
  Screen coordinates and extents as the windowing toolkit hands them over:
  a position or a size is either physical (device pixels) or logical
  (DPI-scaled). Pixel coordinates are unbounded integers; sizes are u32.
 */
module Dpi {

  const U32_LIMIT: int := 0x1_0000_0000
  const I32_MIN: int := -0x8000_0000
  const I32_LIMIT: int := 0x8000_0000

  type u32 = x: int | 0 <= x < U32_LIMIT

  predicate FitsI32(x: int) {
    I32_MIN <= x < I32_LIMIT
  }

  datatype PhysicalPosition = PhysicalPosition(x: int, y: int)
  datatype LogicalPosition = LogicalPosition(x: real, y: real)

  datatype Position =
    | Physical(physical: PhysicalPosition)
    | Logical(logical: LogicalPosition)

  datatype PhysicalSize = PhysicalSize(width: u32, height: u32)
  datatype LogicalSize = LogicalSize(width: real, height: real)

  datatype Size =
    | Physical(physical: PhysicalSize)
    | Logical(logical: LogicalSize)

  const ORIGIN: PhysicalPosition := PhysicalPosition(0, 0)

  /** Shifts a host-local position by the host window's screen position. */
  function Translate(local: PhysicalPosition, parent: PhysicalPosition): (r: PhysicalPosition)
    ensures r.x - parent.x == local.x && r.y - parent.y == local.y
  {
    PhysicalPosition(local.x + parent.x, local.y + parent.y)
  }

  /** Both dimensions are strictly positive. */
  predicate NonDegenerate(s: PhysicalSize) {
    s.width > 0 && s.height > 0
  }
}

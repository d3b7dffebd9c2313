/** Values shared by the layout computation, the window catalog and the placer. */
module Geometry {

  /** A (width, height) pair in screen pixels: a window's current extent,
      the screen's usable extent, or the uniform cell size of the layout. */
  datatype Size = Size(width: int, height: int)

  /** The top-left corner of a window in screen coordinates. */
  datatype Position = Position(x: int, y: int)

  /** An opaque window handle as handed out by the window system. */
  type Handle = int

  /** One enumerated top-level window: its displayed title, its handle and its
      current (width, height). */
  datatype WindowRecord = WindowRecord(title: string, handle: Handle, size: Size)

  datatype Option<T> = None | Some(value: T)

  /** Every width and every height in `dims` is non-negative (window extents
      read from the window system are never negative). */
  predicate NonNegative(dims: seq<Size>)
  {
    forall k :: 0 <= k < |dims| ==> dims[k].width >= 0 && dims[k].height >= 0
  }
}

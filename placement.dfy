/** The assignments `place_windows` hands to the window system: the windows,
    the cell positions and the one cell size are zipped together, so when the
    two lists differ in length the surplus of the longer one is dropped
    without notice. */
module Placement {
  import opened Geometry
  import Positions

  /** One call to the window system: move window `handle` to `position` and
      resize it to `size`. */
  datatype Assignment = Assignment(handle: Handle, position: Position, size: Size)

  function Min(a: int, b: int): int
  {
    if a <= b then a else b
  }

  function Assignments(windows: seq<WindowRecord>, positions: seq<Position>, size: Size): (r: seq<Assignment>)
    ensures |r| == Min(|windows|, |positions|)
    ensures forall k :: 0 <= k < |r| ==> r[k] == Assignment(windows[k].handle, positions[k], size)
  {
    if windows == [] || positions == [] then []
    else [Assignment(windows[0].handle, positions[0], size)] + Assignments(windows[1..], positions[1..], size)
  }

  /** The `k`-th window is moved into column `k % windowsPerRow` of row
      `k / windowsPerRow` whenever there is such a cell; windows beyond the
      last cell, and cells beyond the last window, get no assignment. */
  lemma PlacementOfWindow(screen: Size, windowsPerRow: nat, windowsPerCol: nat, windows: seq<WindowRecord>, size: Size, k: nat)
    requires k < |windows| && k < windowsPerRow * windowsPerCol
    ensures var a := Assignments(windows, Positions.NewWindowsPositions(screen, windowsPerRow, windowsPerCol, size), size);
            k < |a| &&
            a[k] == Assignment(windows[k].handle,
                               Positions.Cell(screen, windowsPerRow, windowsPerCol, size, k % windowsPerRow, k / windowsPerRow),
                               size)
  {
    Positions.PositionAtIndexCell(screen, windowsPerRow, windowsPerCol, size, k);
  }
}

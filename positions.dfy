/** The top-left corners of the grid cells (`get_new_windows_positions`).

    The grid of `windowsPerRow` columns by `windowsPerCol` rows of cells of
    one size is centred on the screen; when it is wider (taller) than the
    screen the horizontal (vertical) offset is clamped to 0, pinning the grid
    to the left (top) edge.  Cells are listed row by row, every column of row
    0 first.  Consecutive cells are `size - 1` apart, so neighbours overlap by
    one pixel.

    The source halves the free space as a float and applies `int()` (which
    truncates toward zero) to offset plus step; `CellCoord` computes the same
    value on integers, and `CellCoordAgreesWithReal` proves it equal to the
    real-valued transcription. */
module Positions {
  import opened Geometry
  import opened Arith
  import Layout

  /** Python's `int(n / 2)`: half of `n`, truncated toward zero. */
  function TruncHalf(n: int): int
  {
    if n >= 0 then n / 2 else -((-n) / 2)
  }

  /** The centring offset along one axis: half of the free space left by
      `count` cells of extent `cell`, or 0 when there is none. */
  function Offset(screenDim: int, count: int, cell: int): (r: int)
    ensures r >= 0
    ensures count * cell >= screenDim ==> r == 0
    ensures count * cell <= screenDim ==> 2 * r <= screenDim - count * cell <= 2 * r + 1
  {
    if screenDim - count * cell > 0 then (screenDim - count * cell) / 2 else 0
  }

  /** Coordinate along one axis of the cell with the given index:
      `int(max(0, (screenDim - count * cell) / 2) + index * (cell - 1))`. */
  function CellCoord(screenDim: int, count: int, cell: int, index: int): int
  {
    var free := screenDim - count * cell;
    TruncHalf((if free > 0 then free else 0) + 2 * index * (cell - 1))
  }

  /** The same coordinate with real division, as the source computes it. */
  function RealCellCoord(screenDim: int, count: int, cell: int, index: int): int
  {
    var half := (screenDim - count * cell) as real / 2.0;
    Trunc((if half > 0.0 then half else 0.0) + (index * (cell - 1)) as real)
  }

  lemma CellCoordAgreesWithReal(screenDim: int, count: int, cell: int, index: int)
    ensures CellCoord(screenDim, count, cell, index) == RealCellCoord(screenDim, count, cell, index)
  {
    var free := screenDim - count * cell;
    var m := (if free > 0 then free else 0) + 2 * index * (cell - 1);
    var half := free as real / 2.0;
    var x := (if half > 0.0 then half else 0.0) + (index * (cell - 1)) as real;
    assert x == m as real / 2.0;
    if m >= 0 {
      TruncDiv(m, 2);
    } else {
      TruncDiv(-m, 2);
      assert -x == (-m) as real / 2.0;
    }
  }

  /** For cells at least one pixel wide the coordinate is the offset plus
      `index` steps of `cell - 1`. */
  lemma CellCoordClosedForm(screenDim: int, count: int, cell: int, index: int)
    requires cell >= 1 && index >= 0
    ensures CellCoord(screenDim, count, cell, index) == Offset(screenDim, count, cell) + index * (cell - 1)
  {
    MulNonNegative(index, cell - 1);
  }

  /** Neighbouring cells overlap by exactly one pixel: the next cell starts
      on the last pixel of the previous one. */
  lemma {:induction false} AdjacentCellsOverlap(screenDim: int, count: int, cell: int, index: int)
    requires cell >= 1 && index >= 0
    ensures CellCoord(screenDim, count, cell, index + 1) == CellCoord(screenDim, count, cell, index) + cell - 1
  {
    CellCoordClosedForm(screenDim, count, cell, index);
    CellCoordClosedForm(screenDim, count, cell, index + 1);
  }

  /** When `count` cells fit, each of the first `count` cells lies inside
      `[0, screenDim)`: it starts at or after 0 and ends at or before the
      screen edge. */
  lemma CellInside(screenDim: int, count: int, cell: int, index: int)
    requires cell >= 1 && 0 <= index < count && count * cell <= screenDim
    ensures 0 <= CellCoord(screenDim, count, cell, index)
    ensures CellCoord(screenDim, count, cell, index) + cell <= screenDim
  {
    CellCoordClosedForm(screenDim, count, cell, index);
    MulLe(index, count - 1, cell - 1);
    MulNonNegative(index, cell - 1);
    assert (count - 1) * (cell - 1) + cell == count * cell - count + 1;
  }

  /** One cell: column `i`, row `j`. */
  function Cell(screen: Size, windowsPerRow: int, windowsPerCol: int, size: Size, i: int, j: int): Position
  {
    Position(CellCoord(screen.width, windowsPerRow, size.width, i),
             CellCoord(screen.height, windowsPerCol, size.height, j))
  }

  /** The first `n` cells of row `j` (the inner comprehension over `i`). */
  function Row(screen: Size, windowsPerRow: int, windowsPerCol: int, size: Size, j: int, n: nat): seq<Position>
  {
    if n == 0 then [] else Row(screen, windowsPerRow, windowsPerCol, size, j, n - 1)
                           + [Cell(screen, windowsPerRow, windowsPerCol, size, n - 1, j)]
  }

  /** Rows `0 .. m - 1`, each with all `windowsPerRow` cells (the outer
      comprehension over `j`). */
  function Rows(screen: Size, windowsPerRow: nat, windowsPerCol: int, size: Size, m: nat): seq<Position>
  {
    if m == 0 then [] else Rows(screen, windowsPerRow, windowsPerCol, size, m - 1)
                           + Row(screen, windowsPerRow, windowsPerCol, size, m - 1, windowsPerRow)
  }

  function NewWindowsPositions(screen: Size, windowsPerRow: nat, windowsPerCol: nat, size: Size): (r: seq<Position>)
    ensures |r| == windowsPerRow * windowsPerCol
  {
    RowsLength(screen, windowsPerRow, windowsPerCol, size, windowsPerCol);
    Rows(screen, windowsPerRow, windowsPerCol, size, windowsPerCol)
  }

  lemma {:induction false} RowAt(screen: Size, windowsPerRow: int, windowsPerCol: int, size: Size, j: int, n: nat, i: nat)
    requires i < n
    ensures |Row(screen, windowsPerRow, windowsPerCol, size, j, n)| == n
    ensures Row(screen, windowsPerRow, windowsPerCol, size, j, n)[i] == Cell(screen, windowsPerRow, windowsPerCol, size, i, j)
  {
    if i < n - 1 {
      RowAt(screen, windowsPerRow, windowsPerCol, size, j, n - 1, i);
    } else if n > 1 {
      RowAt(screen, windowsPerRow, windowsPerCol, size, j, n - 1, 0);
    }
  }

  lemma {:induction false} RowsLength(screen: Size, windowsPerRow: nat, windowsPerCol: int, size: Size, m: nat)
    ensures |Rows(screen, windowsPerRow, windowsPerCol, size, m)| == m * windowsPerRow
  {
    if m > 0 {
      RowsLength(screen, windowsPerRow, windowsPerCol, size, m - 1);
      if windowsPerRow > 0 {
        RowAt(screen, windowsPerRow, windowsPerCol, size, m - 1, windowsPerRow, 0);
      }
    }
  }

  lemma {:induction false} RowsAt(screen: Size, windowsPerRow: nat, windowsPerCol: int, size: Size, m: nat, i: nat, j: nat)
    requires i < windowsPerRow && j < m
    ensures j * windowsPerRow + i < |Rows(screen, windowsPerRow, windowsPerCol, size, m)|
    ensures Rows(screen, windowsPerRow, windowsPerCol, size, m)[j * windowsPerRow + i]
         == Cell(screen, windowsPerRow, windowsPerCol, size, i, j)
  {
    RowsLength(screen, windowsPerRow, windowsPerCol, size, m);
    RowsLength(screen, windowsPerRow, windowsPerCol, size, m - 1);
    RowAt(screen, windowsPerRow, windowsPerCol, size, m - 1, windowsPerRow, i);
    if j < m - 1 {
      MulLe(j + 1, m - 1, windowsPerRow);
      RowsAt(screen, windowsPerRow, windowsPerCol, size, m - 1, i, j);
    } else {
      assert j * windowsPerRow == (m - 1) * windowsPerRow;
    }
    MulLe(j + 1, m, windowsPerRow);
  }

  /** Row-major order: column `i` of row `j` is at index `j * windowsPerRow + i`. */
  lemma PositionAt(screen: Size, windowsPerRow: nat, windowsPerCol: nat, size: Size, i: nat, j: nat)
    requires i < windowsPerRow && j < windowsPerCol
    ensures var r := NewWindowsPositions(screen, windowsPerRow, windowsPerCol, size);
            j * windowsPerRow + i < |r| &&
            r[j * windowsPerRow + i] == Cell(screen, windowsPerRow, windowsPerCol, size, i, j)
  {
    RowsAt(screen, windowsPerRow, windowsPerCol, size, windowsPerCol, i, j);
  }

  /** Read the other way: entry `k` is the cell in column `k % windowsPerRow`
      of row `k / windowsPerRow`. */
  lemma PositionAtIndexCell(screen: Size, windowsPerRow: nat, windowsPerCol: nat, size: Size, k: nat)
    requires k < windowsPerRow * windowsPerCol
    ensures k % windowsPerRow < windowsPerRow && k / windowsPerRow < windowsPerCol
    ensures NewWindowsPositions(screen, windowsPerRow, windowsPerCol, size)[k]
         == Cell(screen, windowsPerRow, windowsPerCol, size, k % windowsPerRow, k / windowsPerRow)
  {
    var i, j := k % windowsPerRow, k / windowsPerRow;
    assert k == j * windowsPerRow + i;
    if j >= windowsPerCol {
      MulLe(windowsPerCol, j, windowsPerRow);
    }
    PositionAt(screen, windowsPerRow, windowsPerCol, size, i, j);
  }

  /** For cells of positive size, column `i` of row `j` sits at the
      centring offsets plus `i` steps of `width - 1` and `j` steps of
      `height - 1`. */
  lemma PositionAtClosedForm(screen: Size, windowsPerRow: nat, windowsPerCol: nat, size: Size, i: nat, j: nat)
    requires i < windowsPerRow && j < windowsPerCol
    requires size.width >= 1 && size.height >= 1
    ensures var r := NewWindowsPositions(screen, windowsPerRow, windowsPerCol, size);
            j * windowsPerRow + i < |r| &&
            r[j * windowsPerRow + i]
              == Position(Offset(screen.width, windowsPerRow, size.width) + i * (size.width - 1),
                          Offset(screen.height, windowsPerCol, size.height) + j * (size.height - 1))
  {
    PositionAt(screen, windowsPerRow, windowsPerCol, size, i, j);
    CellCoordClosedForm(screen.width, windowsPerRow, size.width, i);
    CellCoordClosedForm(screen.height, windowsPerCol, size.height, j);
  }

  /** A grid wider (taller) than the screen is pinned to the left (top)
      edge: the first cell starts at coordinate 0 on that axis. */
  lemma OversizedGridPinned(screen: Size, windowsPerRow: nat, windowsPerCol: nat, size: Size)
    requires windowsPerRow > 0 && windowsPerCol > 0
    ensures var r := NewWindowsPositions(screen, windowsPerRow, windowsPerCol, size);
            (windowsPerRow * size.width >= screen.width ==> r[0].x == 0) &&
            (windowsPerCol * size.height >= screen.height ==> r[0].y == 0)
  {
    PositionAt(screen, windowsPerRow, windowsPerCol, size, 0, 0);
  }

  /** On the size computed by `Layout.NewWindowsSize` the clamp never fires:
      the offsets are exactly half the free space, and when that size is at
      least one pixel each way, every cell lies wholly inside the screen. */
  lemma LayoutInsideScreen(screen: Size, windowsPerRow: nat, windowsPerCol: nat, dims: seq<Size>, k: nat)
    requires Layout.SizeInputs(screen, windowsPerRow, windowsPerCol, dims)
    requires k < windowsPerRow * windowsPerCol
    ensures var size := Layout.NewWindowsSize(screen, windowsPerRow, windowsPerCol, dims);
            Offset(screen.width, windowsPerRow, size.width) == (screen.width - windowsPerRow * size.width) / 2 &&
            Offset(screen.height, windowsPerCol, size.height) == (screen.height - windowsPerCol * size.height) / 2
    ensures var size := Layout.NewWindowsSize(screen, windowsPerRow, windowsPerCol, dims);
            var p := NewWindowsPositions(screen, windowsPerRow, windowsPerCol, size)[k];
            size.width >= 1 && size.height >= 1 ==>
              0 <= p.x && p.x + size.width <= screen.width &&
              0 <= p.y && p.y + size.height <= screen.height
  {
    var size := Layout.NewWindowsSize(screen, windowsPerRow, windowsPerCol, dims);
    Layout.NewWindowsSizeFits(screen, windowsPerRow, windowsPerCol, dims);
    var i, j := k % windowsPerRow, k / windowsPerRow;
    PositionAtIndexCell(screen, windowsPerRow, windowsPerCol, size, k);
    if size.width >= 1 && size.height >= 1 {
      CellInside(screen.width, windowsPerRow, size.width, i);
      CellInside(screen.height, windowsPerCol, size.height, j);
    }
  }
}

# Uniform window grid layout

This project is a Dafny model of the layout core of `resize_windows.py`. That script
tiles the top-level windows of a few named applications in a grid on one monitor.
The model covers three parts:

- **Cell size** (`new_windows_size`). All the windows' widths and heights are summed
  into one aggregate width/height ratio. That ratio is multiplied by the number of
  columns, divided by the number of rows, and compared with the screen's ratio.
  - If the grid would be proportionally wider than the screen, the cell width is
    `screen width / columns`. The height then follows from the aggregate ratio.
  - Otherwise the cell height is `screen height / rows`, and the width follows.
  - In the source, `windows_per_row` is the number of columns and `windows_per_col`
    the number of rows. The model keeps those names.
- **Cell positions** (`get_new_windows_positions`).
  - The grid is centred on the screen. On each axis the offset is clamped at 0.
  - Cells are listed row by row.
  - Consecutive cells are `size - 1` apart, so neighbours overlap by one pixel.
- **Target filter** (in `getWindowSizes`).
  - The enumerated `(title, handle, size)` records are first narrowed to those whose
    title is a target.
  - Then, for each target in order, the first record with exactly that title is
    appended. The nested loop stops at that record (`break`).

The source computes with floats, `/` and `int()`. The model computes with integers:
- the ratio test is a cross-multiplication;
- `int(a / b)` is floor division;
- `int()` of a half-pixel offset plus a step is `TruncHalf`.

For each of these there is also a transcription on Dafny's exact `real`s, with `int()`
as truncation toward zero. Lemmas prove each integer version equal to its transcription
(`NewWindowsSizeAgreesWithReal`, `CellCoordAgreesWithReal`).

Modules:
- `Geometry`: sizes, positions and window records.
- `Arith`: floor division, truncation and product monotonicity.
- `Layout`: the cell size.
- `Positions`: the cell corners.
- `Catalog`: the target filter.
- `Placement`: what `place_windows` hands to the window system.
- `Example`: the 3 × 3 scenario.

## Model

| member | source | states |
|---|---|---|
| `Layout.TotalWidth` | resize_windows.py:87-88 | the summed width of non-negative window widths is non-negative |
| `Layout.TotalHeight` | resize_windows.py:90-91 | the summed height of non-negative window heights is non-negative |
| `Layout.ResizeByWidth` | resize_windows.py:93-103 | the width-constrained test: `sum(w)*cols*screen_h > screen_w*sum(h)*rows`, the ratio comparison with both sides multiplied by the positive denominators |
| `Layout.NewWindowsSize` | resize_windows.py:81-113 | the computed cell size has non-negative width and height (the divisions it performs are defined under the inputs the source needs) |
| `Layout.WidthConstrainedTotalWidthPositive` | resize_windows.py:101-107 | the width-constrained branch is only taken when the summed width is positive, so dividing by the aggregate ratio is defined |
| `Layout.NewWindowsSizeWidthConstrained` | resize_windows.py:101-107 | when `sum(w)*cols*screen_h > screen_w*sum(h)*rows`, the width is the largest with `cols*width <= screen_w` and the height the largest with `height*sum(w) <= width*sum(h)` (both floored) |
| `Layout.NewWindowsSizeHeightConstrained` | resize_windows.py:109-111 | otherwise the height is the largest with `rows*height <= screen_h` and the width the largest with `width*sum(h) <= height*sum(w)` (both floored) |
| `Layout.NewWindowsSizeFits` | resize_windows.py:101-111 | in both branches the grid fits the screen: `cols*width <= screen_w` and `rows*height <= screen_h` |
| `Layout.RatioComparison` | resize_windows.py:93-103 | the comparison of the grid-adjusted aggregate ratio with the screen ratio, on exact reals, is the integer cross-multiplication |
| `Layout.RealResizeByWidth` | resize_windows.py:93-103 | the source's ratio test on exact reals: `(sum(w)/sum(h)) * cols / rows > screen_w / screen_h` |
| `Layout.RealWidthConstrained` | resize_windows.py:105-107 | the width branch on exact reals: `int(screen_w / cols)`, then `int(width / (sum(w)/sum(h)))` |
| `Layout.RealHeightConstrained` | resize_windows.py:109-111 | the height branch on exact reals: `int(screen_h / rows)`, then `int(height * (sum(w)/sum(h)))` |
| `Layout.RealNewWindowsSize` | resize_windows.py:87-113 | the whole of `new_windows_size` on exact reals, choosing the branch by `RealResizeByWidth` |
| `Layout.RealWidthBranch` | resize_windows.py:106-107 | `int(screen_w / cols)` and `int(width / (sum(w)/sum(h)))` on exact reals equal the floor divisions `screen_w / cols` and `width*sum(h) / sum(w)` |
| `Layout.RealHeightBranch` | resize_windows.py:110-111 | `int(screen_h / rows)` and `int(height * (sum(w)/sum(h)))` on exact reals equal `screen_h / rows` and `height*sum(w) / sum(h)` |
| `Layout.NewWindowsSizeAgreesWithReal` | resize_windows.py:87-113 | the integer cell size equals the source's computation carried out on exact reals with truncating `int()` |
| `Positions.Offset` | resize_windows.py:126-129 | the centring offset is never negative; it is 0 when the grid is at least as large as the screen; otherwise it is half the free space, rounded down |
| `Positions.CellCoord` | resize_windows.py:126-134 | one coordinate of a cell on integers: `int((max(0, free) + 2*index*(cell-1)) / 2)` with truncation toward zero, where `free = screen - count*cell` |
| `Positions.RealCellCoord` | resize_windows.py:126-134 | the same coordinate as the source computes it: `int(max(0, free/2) + index*(cell-1))` on exact reals |
| `Positions.CellCoordAgreesWithReal` | resize_windows.py:126-134 | the integer cell coordinate equals `int(max(0, (screen - count*cell)/2) + index*(cell-1))` on exact reals |
| `Positions.CellCoordClosedForm` | resize_windows.py:133-134 | for cells at least one pixel wide, a coordinate is the offset plus `index` steps of `cell - 1` |
| `Positions.AdjacentCellsOverlap` | resize_windows.py:133-134 | the next cell along an axis starts `cell - 1` after the previous one, so neighbours share one pixel |
| `Positions.CellInside` | resize_windows.py:122-134 | when the cells fit, every one of them starts at or after 0 and ends at or before the screen edge |
| `Positions.Cell` | resize_windows.py:132-135 | the tuple for column `i` of row `j`: x from the column index over the screen width, y from the row index over the screen height |
| `Positions.Row` | resize_windows.py:133-137 | the inner comprehension: the first `n` cells of row `j`, column by column |
| `Positions.Rows` | resize_windows.py:131-138 | the outer comprehension: rows `0 .. m-1` concatenated, each with all `cols` cells |
| `Positions.NewWindowsPositions` | resize_windows.py:131-138 | exactly `cols * rows` positions are produced |
| `Positions.RowAt` | resize_windows.py:133-137 | the inner comprehension over columns yields one cell per column, column `i` at index `i` |
| `Positions.RowsLength` | resize_windows.py:131-138 | the first `m` rows hold `m * cols` positions |
| `Positions.RowsAt` | resize_windows.py:131-138 | in the first `m` rows, column `i` of row `j` is at index `j*cols + i` |
| `Positions.PositionAt` | resize_windows.py:131-138 | row-major order: column `i` of row `j` is at index `j*cols + i` |
| `Positions.PositionAtIndexCell` | resize_windows.py:131-138 | entry `k` is the cell in column `k % cols` of row `k / cols` |
| `Positions.PositionAtClosedForm` | resize_windows.py:126-137 | for positive cell sizes, entry `j*cols + i` is `(offX + i*(w-1), offY + j*(h-1))` with `offX = max(0, screen_w - cols*w)/2` and `offY = max(0, screen_h - rows*h)/2` |
| `Positions.OversizedGridPinned` | resize_windows.py:126-129 | a grid wider (taller) than the screen starts at x = 0 (y = 0) |
| `Positions.LayoutInsideScreen` | resize_windows.py:122-129 | on the size from `NewWindowsSize` the clamps never fire; if that size is at least 1 × 1, every cell lies wholly on the screen |
| `Example.WorkedExampleSize` | resize_windows.py:81-113 | screen (1920, 1032), 3 × 3 grid, nine 640 × 480 windows: height-constrained, cell size (458, 344) |
| `Example.WorkedExamplePositions` | resize_windows.py:116-139 | 458 × 344 cells on screen (1920, 1032) in a 3 × 3 grid: the first row starts at (273, 0), (730, 0), (1187, 0) |
| `Catalog.FirstIndex` | resize_windows.py:59-62 | the scan stops at the first record titled `target`; no earlier record has that title; it runs off the end only if none has |
| `Catalog.MatchOf` | resize_windows.py:59-62 | a target contributes at most one record, and any record it contributes is the first one carrying its title |
| `Catalog.MatchOfEmpty` | resize_windows.py:58-62 | a target contributes nothing exactly when no record carries its title (both directions) |
| `Catalog.MatchOfCons` | resize_windows.py:59-62 | the scan over `[w] + rest` stops at `w` if it carries the title, otherwise continues into `rest` |
| `Catalog.Ordered` | resize_windows.py:57-62 | the reference for the nested loop: the match of each target, appended in the order of `targets` |
| `Catalog.OrderedStep` | resize_windows.py:58-62 | one more iteration of the outer loop appends exactly that target's match |
| `Catalog.KeepTargeted` | resize_windows.py:52-56 | the pre-filter is no longer than its input and keeps only unchanged input records whose title is a target |
| `Catalog.KeepTargetedComplete` | resize_windows.py:52-56 | the pre-filter keeps every input record whose title is a target |
| `Catalog.KeepTargetedPreservesMatch` | resize_windows.py:51-62 | for a target in the list, the pre-filter does not change which record it picks |
| `Catalog.GetWindowsOrdered` | resize_windows.py:51-64 | the nested loop with `append` and `break` returns exactly the per-target first matches in target order |
| `Catalog.OrderedAppend` | resize_windows.py:58-62 | the result for `a + b` is the result for `a` followed by the result for `b` |
| `Catalog.OrderedElements` | resize_windows.py:57-62 | at most one entry per target; each entry is an unchanged input record whose title is a target, and is the first enumerated record with that title |
| `Catalog.OrderedAllFound` | resize_windows.py:57-62 | when every target has a window, entry `k` is the first record titled `targets[k]` |
| `Catalog.OrderedSingle` | resize_windows.py:58-62 | a one-target list yields that target's first match or nothing |
| `Catalog.OrderedSkipsMissing` | resize_windows.py:58-62 | a target without a window contributes nothing |
| `Catalog.OrderedDuplicate` | resize_windows.py:58-62 | a target listed twice yields its first match twice |
| `Catalog.GetWindowSizesAsWritten` | resize_windows.py:51-64 | with targets it returns the filtered, reordered list; without targets the return fails, because `windows_ordered` is unbound |
| `Catalog.AsWrittenFailsWithoutTargets` | resize_windows.py:51-64 | a call without targets fails even when a real window was enumerated |
| `Catalog.GetWindowSizes` | resize_windows.py:36-64 | without targets it returns every enumerated window; with targets it returns what the code as written returns |
| `Placement.Assignments` | resize_windows.py:142-152 | zipping windows with positions gives `min(#windows, #positions)` moves, the `k`-th putting window `k` at position `k` with the common size |
| `Placement.PlacementOfWindow` | resize_windows.py:142-152 | window `k` goes to column `k % cols` of row `k / cols`, whenever both the window and that cell exist |

## Findings

| source | as written | input that shows it | evidently intended | confidence | as-written member | corrected member |
|---|---|---|---|---|---|---|
| resize_windows.py:51-64 | `windows_ordered` is bound only inside `if targets is not None`, but it is returned unconditionally | `getWindowSizes(targets=None)` (the default) with any window open: `UnboundLocalError` | return every real window when no targets are given, as the docstring says | high; not executed | `Catalog.GetWindowSizesAsWritten`, `Catalog.AsWrittenFailsWithoutTargets` | `Catalog.GetWindowSizes` |

## Where the code and its design description differ (the model follows the code)

- Adjacent cells are described as not overlapping. The code steps by `size - 1`, so they
  overlap by one pixel (`Positions.AdjacentCellsOverlap`).
- The cell size is described as always positive. The code gives 0 when the screen is
  narrower (shorter) than the column (row) count, or when the aggregate ratio rounds the
  other dimension down to 0. `Layout.NewWindowsSize` promises only non-negative
  components, and the inside-the-screen results assume a size of at least 1 × 1.
- An empty window list is described as a reported input error. The code divides by zero
  at resize_windows.py:93. The model requires a positive summed height.
- A window count that differs from `rows * columns` is described as an error to detect.
  The code zips windows with positions and silently drops the surplus
  (`Placement.Assignments`).

## Left out

- `isRealWindow` (resize_windows.py:20-33): visibility, parent, owner and style queries
  on the operating system. The model takes the list it admits as an input.
- The `EnumWindows` callback and `GetWindowRect` (resize_windows.py:41-49): enumeration
  I/O. The enumerated `(title, handle, size)` records are an input sequence.
- `getScreenSize` (resize_windows.py:67-78): a foreign call to `GetSystemMetrics`. The
  screen size is a parameter.
- `place_windows` (resize_windows.py:142-153): the `SetWindowPos` calls and the printing
  are side effects. Only the list of moves they are given is modelled
  (`Placement.Assignments`).
- `find_best_arrangements` (resize_windows.py:156-165): dead code; it computes values
  and returns nothing.
- `main`, the taskbar subtraction and the three-fold repeat (resize_windows.py:168-199):
  orchestration and printing.
- IEEE-754 rounding. The model uses exact integers, proved equal to the computation on
  exact reals. Float results can differ from these only at rare rounding boundaries.
- `Layout.NewWindowsSize`: does not model negative screen sizes, negative window
  extents or non-positive grid counts. With `windows_per_row <= 0` Python takes the height
  branch and returns a size. With `windows_per_col == 0` it divides by zero at
  resize_windows.py:95. Negative values truncate toward zero. None of these inputs arise
  from the window system or the fixed configuration.
- `Positions.NewWindowsPositions`: grid counts are natural numbers. A negative count,
  for which Python's `range` is empty, is not modelled.

/** The uniform cell size of the layout (`new_windows_size`).

    The aggregate width/height ratio of all windows, redistributed over the
    grid (times columns, divided by rows), is compared with the screen's
    ratio.  If the grid would be proportionally wider than the screen, the
    width is the constraining dimension: the cell width is an integer share of
    the screen width and the height follows from the aggregate ratio.
    Otherwise the height constrains and the width follows.

    `windowsPerRow` is the number of COLUMNS (it multiplies the width) and
    `windowsPerCol` the number of ROWS, as in the source.

    `NewWindowsSize` computes on integers; `RealNewWindowsSize` is the same
    computation written with real division and truncation, as the source does
    it with floats and `int()`.  `NewWindowsSizeAgreesWithReal` proves the two
    equal. */
module Layout {
  import opened Geometry
  import opened Arith

  function TotalWidth(dims: seq<Size>): (r: int)
    ensures NonNegative(dims) ==> r >= 0
  {
    if dims == [] then 0 else dims[0].width + TotalWidth(dims[1..])
  }

  function TotalHeight(dims: seq<Size>): (r: int)
    ensures NonNegative(dims) ==> r >= 0
  {
    if dims == [] then 0 else dims[0].height + TotalHeight(dims[1..])
  }

  /** What the source needs to run without dividing by zero: a positive screen
      height and grid shape, and windows whose heights do not all vanish. */
  predicate SizeInputs(screen: Size, windowsPerRow: int, windowsPerCol: int, dims: seq<Size>)
  {
    screen.width >= 0 && screen.height > 0 &&
    windowsPerRow > 0 && windowsPerCol > 0 &&
    NonNegative(dims) && TotalHeight(dims) > 0
  }

  /** The grid-adjusted aggregate ratio exceeds the screen ratio:
      (totalWidth / totalHeight) * windowsPerRow / windowsPerCol
        > screen.width / screen.height,
      cross-multiplied by the positive denominators. */
  predicate ResizeByWidth(screen: Size, windowsPerRow: int, windowsPerCol: int, totalWidth: int, totalHeight: int)
  {
    totalWidth * windowsPerRow * screen.height > screen.width * totalHeight * windowsPerCol
  }

  function NewWindowsSize(screen: Size, windowsPerRow: int, windowsPerCol: int, dims: seq<Size>): (r: Size)
    requires SizeInputs(screen, windowsPerRow, windowsPerCol, dims)
    ensures r.width >= 0 && r.height >= 0
  {
    var tw := TotalWidth(dims);
    var th := TotalHeight(dims);
    if ResizeByWidth(screen, windowsPerRow, windowsPerCol, tw, th) then
      WidthConstrainedTotalWidthPositive(screen, windowsPerRow, windowsPerCol, tw, th);
      var w := screen.width / windowsPerRow;
      DivNonNegative(screen.width, windowsPerRow);
      MulNonNegative(w, th);
      DivNonNegative(w * th, tw);
      Size(w, (w * th) / tw)
    else
      var h := screen.height / windowsPerCol;
      DivNonNegative(screen.height, windowsPerCol);
      MulNonNegative(h, tw);
      DivNonNegative(h * tw, th);
      Size((h * tw) / th, h)
  }

  /** The width-constrained branch divides by the total width; it is only
      taken when that total is positive. */
  lemma WidthConstrainedTotalWidthPositive(screen: Size, windowsPerRow: int, windowsPerCol: int, tw: int, th: int)
    requires screen.width >= 0 && screen.height > 0 && windowsPerRow > 0 && windowsPerCol > 0
    requires tw >= 0 && th >= 0
    requires ResizeByWidth(screen, windowsPerRow, windowsPerCol, tw, th)
    ensures tw > 0
  {
    MulNonNegative(screen.width, th);
    MulNonNegative(screen.width * th, windowsPerCol);
  }

  /** Width-constrained: the width is the largest that lets `windowsPerRow`
      cells fit across the screen, and the height the largest that keeps
      height/width within the inverse aggregate ratio totalHeight/totalWidth. */
  lemma NewWindowsSizeWidthConstrained(screen: Size, windowsPerRow: int, windowsPerCol: int, dims: seq<Size>)
    requires SizeInputs(screen, windowsPerRow, windowsPerCol, dims)
    requires ResizeByWidth(screen, windowsPerRow, windowsPerCol, TotalWidth(dims), TotalHeight(dims))
    ensures TotalWidth(dims) > 0
    ensures var r := NewWindowsSize(screen, windowsPerRow, windowsPerCol, dims);
            windowsPerRow * r.width <= screen.width < windowsPerRow * (r.width + 1) &&
            r.height * TotalWidth(dims) <= r.width * TotalHeight(dims) < (r.height + 1) * TotalWidth(dims)
  {
    var tw, th := TotalWidth(dims), TotalHeight(dims);
    var r := NewWindowsSize(screen, windowsPerRow, windowsPerCol, dims);
    DivBounds(screen.width, windowsPerRow);
    DivBounds(r.width * th, tw);
  }

  /** Height-constrained: the height is the largest that lets `windowsPerCol`
      cells fit down the screen, and the width the largest that keeps
      width/height within the aggregate ratio totalWidth/totalHeight. */
  lemma NewWindowsSizeHeightConstrained(screen: Size, windowsPerRow: int, windowsPerCol: int, dims: seq<Size>)
    requires SizeInputs(screen, windowsPerRow, windowsPerCol, dims)
    requires !ResizeByWidth(screen, windowsPerRow, windowsPerCol, TotalWidth(dims), TotalHeight(dims))
    ensures var r := NewWindowsSize(screen, windowsPerRow, windowsPerCol, dims);
            windowsPerCol * r.height <= screen.height < windowsPerCol * (r.height + 1) &&
            r.width * TotalHeight(dims) <= r.height * TotalWidth(dims) < (r.width + 1) * TotalHeight(dims)
  {
    var tw, th := TotalWidth(dims), TotalHeight(dims);
    var r := NewWindowsSize(screen, windowsPerRow, windowsPerCol, dims);
    DivBounds(screen.height, windowsPerCol);
    DivBounds(r.height * tw, th);
  }

  /** In either branch the whole grid fits the screen:
      columns * width <= screen width and rows * height <= screen height. */
  lemma NewWindowsSizeFits(screen: Size, windowsPerRow: int, windowsPerCol: int, dims: seq<Size>)
    requires SizeInputs(screen, windowsPerRow, windowsPerCol, dims)
    ensures var r := NewWindowsSize(screen, windowsPerRow, windowsPerCol, dims);
            windowsPerRow * r.width <= screen.width && windowsPerCol * r.height <= screen.height
  {
    var tw, th := TotalWidth(dims), TotalHeight(dims);
    var r := NewWindowsSize(screen, windowsPerRow, windowsPerCol, dims);
    var cols, rows := windowsPerRow, windowsPerCol;
    if ResizeByWidth(screen, cols, rows, tw, th) {
      NewWindowsSizeWidthConstrained(screen, cols, rows, dims);
      WidthBranchFits(r.height, r.width, tw, th, cols, rows, screen.width, screen.height);
    } else {
      NewWindowsSizeHeightConstrained(screen, cols, rows, dims);
      HeightBranchFits(r.height, r.width, tw, th, cols, rows, screen.width, screen.height);
    }
  }

  /** The source's computation with exact real arithmetic in place of floats:
      ratios by real division, `int()` as truncation toward zero. */
  function RealNewWindowsSize(screen: Size, windowsPerRow: int, windowsPerCol: int, dims: seq<Size>): Size
    requires SizeInputs(screen, windowsPerRow, windowsPerCol, dims)
  {
    var tw, th := TotalWidth(dims), TotalHeight(dims);
    if RealResizeByWidth(screen, windowsPerRow, windowsPerCol, tw, th) then
      RealWidthConstrained(screen.width, windowsPerRow, tw, th)
    else
      RealHeightConstrained(screen.height, windowsPerCol, tw, th)
  }

  /** `windows_width_height_proportion * windows_per_row / windows_per_col
      > screen_width / screen_height` on exact reals. */
  predicate RealResizeByWidth(screen: Size, windowsPerRow: int, windowsPerCol: int, tw: int, th: int)
    requires screen.height > 0 && windowsPerCol > 0 && th > 0
  {
    (tw as real / th as real) * windowsPerRow as real / windowsPerCol as real
      > screen.width as real / screen.height as real
  }

  /** The width-constrained branch on exact reals. */
  function RealWidthConstrained(sw: int, cols: int, tw: int, th: int): Size
    requires cols > 0 && th > 0
  {
    var proportion := tw as real / th as real;
    var w := Trunc(sw as real / cols as real);
    Size(w, if proportion == 0.0 then 0 else Trunc(w as real / proportion))
  }

  /** The height-constrained branch on exact reals. */
  function RealHeightConstrained(sh: int, rows: int, tw: int, th: int): Size
    requires rows > 0 && th > 0
  {
    var proportion := tw as real / th as real;
    var h := Trunc(sh as real / rows as real);
    Size(Trunc(h as real * proportion), h)
  }

  /** The float comparison of ratios is the integer cross-multiplication. */
  lemma RatioComparison(screen: Size, windowsPerRow: int, windowsPerCol: int, tw: int, th: int)
    requires screen.height > 0 && windowsPerCol > 0 && th > 0
    ensures RealResizeByWidth(screen, windowsPerRow, windowsPerCol, tw, th)
            <==> ResizeByWidth(screen, windowsPerRow, windowsPerCol, tw, th)
  {
    var a := (tw * windowsPerRow) as real;
    var b := (th * windowsPerCol) as real;
    var c := screen.width as real;
    var d := screen.height as real;
    assert (tw as real / th as real) * windowsPerRow as real / windowsPerCol as real == a / b;
    assert a / b > c / d <==> a * d > c * b by {
      assert (a / b) * (b * d) == a * d;
      assert (c / d) * (b * d) == c * b;
    }
    assert a * d == (tw * windowsPerRow * screen.height) as real;
    assert c * b == (screen.width * th * windowsPerCol) as real;
  }

  lemma NewWindowsSizeAgreesWithReal(screen: Size, windowsPerRow: int, windowsPerCol: int, dims: seq<Size>)
    requires SizeInputs(screen, windowsPerRow, windowsPerCol, dims)
    ensures NewWindowsSize(screen, windowsPerRow, windowsPerCol, dims)
         == RealNewWindowsSize(screen, windowsPerRow, windowsPerCol, dims)
  {
    var tw, th := TotalWidth(dims), TotalHeight(dims);
    RatioComparison(screen, windowsPerRow, windowsPerCol, tw, th);
    if ResizeByWidth(screen, windowsPerRow, windowsPerCol, tw, th) {
      WidthConstrainedTotalWidthPositive(screen, windowsPerRow, windowsPerCol, tw, th);
      RealWidthBranch(screen.width, windowsPerRow, tw, th);
    } else {
      RealHeightBranch(screen.height, windowsPerCol, tw, th);
    }
  }

  lemma RealWidthBranch(sw: int, cols: int, tw: int, th: int)
    requires sw >= 0 && cols > 0 && tw > 0 && th > 0
    ensures var w := sw / cols;
            RealWidthConstrained(sw, cols, tw, th) == Size(w, (w * th) / tw)
  {
    TruncDiv(sw, cols);
    var w := sw / cols;
    MulNonNegative(w, th);
    var n := w * th;
    CastMul(w, th);
    RealDivByRatio(w as real, tw as real, th as real);
    assert w as real / (tw as real / th as real) == n as real / tw as real;
    TruncDiv(n, tw);
  }

  lemma RealHeightBranch(sh: int, rows: int, tw: int, th: int)
    requires sh >= 0 && rows > 0 && tw >= 0 && th > 0
    ensures var h := sh / rows;
            RealHeightConstrained(sh, rows, tw, th) == Size((h * tw) / th, h)
  {
    TruncDiv(sh, rows);
    var h := sh / rows;
    MulNonNegative(h, tw);
    var n := h * tw;
    CastMul(h, tw);
    RealMulByRatio(h as real, tw as real, th as real);
    assert h as real * (tw as real / th as real) == n as real / th as real;
    TruncDiv(n, th);
  }
}

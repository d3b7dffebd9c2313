/** Small facts about integer and real arithmetic that the layout proofs use:
    floor division characterised by its bounds, monotonicity of products, and
    Python's `int()` on a real (truncation toward zero). */
module Arith {

  /** `a / b` is the `q` with `q * b <= a < (q + 1) * b`. */
  lemma DivBounds(a: int, b: int)
    requires b > 0
    ensures (a / b) * b <= a < (a / b + 1) * b
  {
    assert a == (a / b) * b + a % b;
  }

  lemma DivNonNegative(a: int, b: int)
    requires a >= 0 && b > 0
    ensures a / b >= 0
  {
  }

  lemma MulLe(x: int, y: int, c: int)
    requires x <= y && c >= 0
    ensures x * c <= y * c
  {
  }

  lemma MulNonNegative(x: int, y: int)
    requires x >= 0 && y >= 0
    ensures x * y >= 0
  {
  }

  /** Cancelling a positive factor from a non-strict inequality. */
  lemma CancelLe(x: int, y: int, c: int)
    requires c > 0 && x * c <= y * c
    ensures x <= y
  {
    if x > y {
      MulLe(y + 1, x, c);
    }
  }

  /** Cancelling a positive factor from a strict inequality. */
  lemma CancelLt(x: int, y: int, c: int)
    requires c > 0 && x * c < y * c
    ensures x < y
  {
    if x >= y {
      MulLe(y, x, c);
    }
  }

  /** Python's `int()` applied to a real: truncation toward zero. */
  function Trunc(x: real): (r: int)
    ensures x >= 0.0 ==> r as real <= x < r as real + 1.0
    ensures x < 0.0 ==> r as real - 1.0 < x <= r as real
  {
    if x >= 0.0 then x.Floor else -((-x).Floor)
  }

  /** Exact real division followed by truncation agrees with Dafny's floor
      division when the numerator is non-negative and the divisor positive. */
  lemma TruncDiv(a: int, b: int)
    requires a >= 0 && b > 0
    ensures Trunc(a as real / b as real) == a / b
  {
    var q := a / b;
    DivBounds(a, b);
    var x := a as real / b as real;
    assert x * b as real == a as real;
    assert q as real * b as real <= a as real;
    assert a as real < (q as real + 1.0) * b as real;
    RealCancelLe(q as real, x, b as real);
    RealCancelLt(x, q as real + 1.0, b as real);
    assert x >= 0.0;
  }

  lemma RealCancelLe(x: real, y: real, c: real)
    requires c > 0.0 && x * c <= y * c
    ensures x <= y
  {
  }

  lemma RealCancelLt(x: real, y: real, c: real)
    requires c > 0.0 && x * c < y * c
    ensures x < y
  {
  }

  /** Products of four factors regrouped in the orders the fit proofs need. */
  lemma Rearrange(a: int, b: int, c: int, d: int)
    ensures (a * b) * (c * d) == (b * c) * (a * d)
    ensures (b * c) * (a * d) == (a * b) * (d * c)
    ensures (a * b) * (c * d) == (b * d) * (a * c)
  {
  }

  /** Width-constrained sizing keeps the rows inside the screen height:
      from h/w <= th/tw, cols*w <= sw and tw*cols/(th*rows) > sw/sh
      follows rows*h < sh. */
  lemma WidthBranchFits(h: int, w: int, tw: int, th: int, cols: int, rows: int, sw: int, sh: int)
    requires h >= 0 && w >= 0 && tw > 0 && th >= 0 && cols > 0 && rows > 0 && sw >= 0 && sh > 0
    requires h * tw <= w * th
    requires cols * w <= sw
    requires tw * cols * sh > sw * th * rows
    ensures rows * h < sh
  {
    MulLe(h * tw, w * th, rows * cols);
    MulLe(cols * w, sw, rows * th);
    assert (rows * h) * (tw * cols) == (h * tw) * (rows * cols) by { Rearrange(rows, h, tw, cols); }
    assert (w * th) * (rows * cols) == (cols * w) * (rows * th) by { Rearrange(w, th, rows, cols); }
    assert sw * (rows * th) == sw * th * rows;
    assert sh * (tw * cols) == tw * cols * sh;
    CancelLt(rows * h, sh, tw * cols);
  }

  /** Height-constrained sizing keeps the columns inside the screen width:
      from w/h <= tw/th, rows*h <= sh and tw*cols/(th*rows) <= sw/sh
      follows cols*w <= sw. */
  lemma HeightBranchFits(h: int, w: int, tw: int, th: int, cols: int, rows: int, sw: int, sh: int)
    requires h >= 0 && w >= 0 && tw >= 0 && th > 0 && cols > 0 && rows > 0 && sw >= 0 && sh > 0
    requires w * th <= h * tw
    requires rows * h <= sh
    requires tw * cols * sh <= sw * th * rows
    ensures cols * w <= sw
  {
    MulLe(w * th, h * tw, cols * rows);
    MulLe(rows * h, sh, cols * tw);
    assert (cols * w) * (th * rows) == (w * th) * (cols * rows) by { Rearrange(cols, w, th, rows); }
    assert (h * tw) * (cols * rows) == (rows * h) * (cols * tw) by { Rearrange(h, tw, cols, rows); }
    assert sh * (cols * tw) == tw * cols * sh;
    assert sw * (th * rows) == sw * th * rows;
    CancelLe(cols * w, sw, th * rows);
  }

  lemma RealDivByRatio(a: real, b: real, c: real)
    requires b > 0.0 && c > 0.0
    ensures a / (b / c) == (a * c) / b
  {
  }

  lemma RealMulByRatio(a: real, b: real, c: real)
    requires c > 0.0
    ensures a * (b / c) == (a * b) / c
  {
  }

  lemma CastMul(a: int, b: int)
    ensures (a * b) as real == a as real * b as real
  {
  }
}

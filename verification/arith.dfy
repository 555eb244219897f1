/** Elementary facts about products of reals, each stated and proved on its own
    so that the smoothing proofs can cite them instead of searching for them. */
module RealArith {

  function Abs(x: real): real
  {
    if x < 0.0 then -x else x
  }

  /** A product with a non-negative factor keeps the sign of the other factor. */
  lemma SignProduct(x: real, y: real)
    requires 0.0 <= y
    ensures 0.0 <= x ==> 0.0 <= x * y
    ensures x <= 0.0 ==> x * y <= 0.0
  {
  }

  /** A non-negative value scaled by a factor in [0, 1] stays between 0 and itself. */
  lemma MulBounds(d: real, t: real)
    requires 0.0 <= d && 0.0 <= t <= 1.0
    ensures 0.0 <= d * t <= d
  {
    assert d * t <= d * 1.0;
  }

  /** Two scalings in a row compose: if `g = h * p`, `h = x * s` and `q = s * p`
      then `g = x * q`. */
  lemma ScaleTwice(g: real, h: real, x: real, s: real, p: real, q: real)
    requires g == h * p && h == x * s && q == s * p
    ensures g == x * q
  {
    assert h * p == (x * s) * p;
    assert (x * s) * p == x * (s * p);
  }

  lemma NonZeroProduct(x: real, y: real)
    requires x != 0.0 && y != 0.0
    ensures x * y != 0.0
  {
  }

  /** Scaling by a non-negative factor scales the magnitude. */
  lemma AbsOfScaled(g: real, x: real, p: real)
    requires g == x * p && 0.0 <= p
    ensures Abs(g) == Abs(x) * p
  {
    if x < 0.0 {
      assert x * p <= 0.0;
      assert -g == (-x) * p;
    } else {
      assert 0.0 <= x * p;
    }
  }

  /** Scaling a non-negative value by a larger factor gives a larger product. */
  lemma MulMonotone(d: real, s: real, u: real)
    requires 0.0 <= d && s <= u
    ensures d * s <= d * u
  {
    SignProduct(u - s, d);
    assert (u - s) * d == d * u - d * s;
  }

  /** A value scaled by a factor in [0, 1] lies between 0 and the value. */
  lemma ScaleBetween(g0: real, g1: real, s: real)
    requires g1 == g0 * s && 0.0 <= s <= 1.0
    ensures 0.0 <= g0 ==> 0.0 <= g1 <= g0
    ensures g0 <= 0.0 ==> g0 <= g1 <= 0.0
  {
    if g0 < 0.0 {
      MulBounds(-g0, s);
      assert g1 == -((-g0) * s);
    } else {
      MulBounds(g0, s);
    }
  }

  /** A gap scaled by a factor in [0, 1] does not grow. */
  lemma ContractStep(g0: real, g1: real, s: real)
    requires g1 == g0 * s && 0.0 <= s <= 1.0
    ensures Abs(g1) <= Abs(g0)
  {
    ScaleBetween(g0, g1, s);
  }

  /** A non-zero value scaled by a factor strictly between 0 and 1 lies strictly
      between 0 and the value. */
  lemma ScaleStrictlyBetween(g0: real, g1: real, s: real)
    requires g1 == g0 * s && 0.0 < s < 1.0
    ensures 0.0 < g0 ==> 0.0 < g1 < g0
    ensures g0 < 0.0 ==> g0 < g1 < 0.0
  {
    if g0 < 0.0 {
      assert (-g0) * s < (-g0) * 1.0;
      assert 0.0 < (-g0) * s;
      assert g1 == -((-g0) * s);
    } else if 0.0 < g0 {
      assert g0 * s < g0 * 1.0;
      assert 0.0 < g0 * s;
    }
  }

  /** A non-zero gap scaled by a factor strictly between 0 and 1 stays non-zero
      and strictly shrinks. */
  lemma Shrink(g0: real, g1: real, s: real)
    requires g1 == g0 * s && 0.0 < s < 1.0 && g0 != 0.0
    ensures g1 != 0.0
    ensures Abs(g1) < Abs(g0)
  {
    ScaleStrictlyBetween(g0, g1, s);
  }

  /** A positive factor preserves the strict sign of the other factor. */
  lemma StrictSign(x: real, y: real)
    requires 0.0 < y
    ensures 0.0 < x ==> 0.0 < x * y
    ensures x < 0.0 ==> x * y < 0.0
    ensures x == 0.0 ==> x * y == 0.0
  {
  }

  lemma DiffOfSquares(x: real, y: real)
    ensures (y - x) * (y + x) == y * y - x * x
  {
  }

  /** Squaring is strictly increasing on non-negative reals. */
  lemma SquareStrict(x: real, y: real)
    requires 0.0 <= x < y
    ensures x * x < y * y
  {
    var d, s := y - x, y + x;
    StrictSign(d, s);
    DiffOfSquares(x, y);
    assert 0.0 < d * s == y * y - x * x;
  }

  /** On non-negative reals squaring preserves order in both directions. */
  lemma SquareLess(x: real, y: real)
    requires 0.0 <= x && 0.0 <= y
    ensures x < y ==> x * x < y * y
    ensures y <= x ==> y * y <= x * x
  {
    if x < y {
      SquareStrict(x, y);
    } else if y < x {
      SquareStrict(y, x);
    }
  }
}

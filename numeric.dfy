/** Real-number helpers standing in for JavaScript's Math.floor, Math.ceil,
    the `%` operator on numbers, and Math.sqrt. */
module Numeric {

  /** `r` has no fractional part. */
  predicate IsInteger(r: real) {
    r == r.Floor as real
  }

  /** Math.ceil: the least integer not below `r`. */
  function Ceil(r: real): (c: int)
    ensures c as real - 1.0 < r <= c as real
  {
    -((-r).Floor)
  }

  /** `r - Math.floor(r)`: the fractional part of `r`. */
  function Frac(r: real): (f: real)
    ensures 0.0 <= f < 1.0
    ensures IsInteger(r - f)
  {
    r - r.Floor as real
  }

  /** Rounding toward zero, as JavaScript's `%` uses for its quotient. */
  function Trunc(r: real): (t: int)
    ensures 0.0 <= r ==> t as real <= r < t as real + 1.0
    ensures r < 0.0 ==> t as real - 1.0 < r <= t as real
  {
    if r >= 0.0 then r.Floor else Ceil(r)
  }

  /** JavaScript's `a % b` on numbers, for a positive divisor: the remainder
      takes the sign of the dividend. */
  function Remainder(a: real, b: real): (m: real)
    requires b > 0.0
    ensures 0.0 <= a ==> 0.0 <= m < b
    ensures a < 0.0 ==> -b < m <= 0.0
    ensures IsInteger((a - m) / b)
  {
    var t := Trunc(a / b) as real;
    QuotientBounds(a, b, t);
    assert IsInteger(t);
    a - b * t
  }

  /** Multiplying back the bounds a quotient obeys. */
  lemma QuotientBounds(a: real, b: real, t: real)
    requires b > 0.0
    ensures (a - (a - b * t)) / b == t
    ensures t <= a / b ==> b * t <= a
    ensures a / b < t + 1.0 ==> a < b * t + b
    ensures t - 1.0 < a / b ==> b * t - b < a
    ensures a / b <= t ==> a <= b * t
  {
    assert a - (a - b * t) == b * t;
    QuotientBelow(a, b, t);
    QuotientBelow(a, b, t + 1.0);
    QuotientAbove(a, b, t);
    QuotientAbove(a, b, t - 1.0);
  }

  lemma QuotientBelow(a: real, b: real, u: real)
    requires b > 0.0
    ensures a / b < u ==> a < b * u
    ensures a / b <= u ==> a <= b * u
    ensures b * u == b * (u - 1.0) + b
  {
    var q := a / b;
    assert a == b * q;
    if q < u {
      MulStrict(b, q, u);
    }
  }

  lemma QuotientAbove(a: real, b: real, u: real)
    requires b > 0.0
    ensures u < a / b ==> b * u < a
    ensures u <= a / b ==> b * u <= a
    ensures b * u == b * (u + 1.0) - b
  {
    var q := a / b;
    assert a == b * q;
    if u < q {
      MulStrict(b, u, q);
    }
  }

  lemma MulStrict(b: real, x: real, y: real)
    requires b > 0.0 && x < y
    ensures b * x < b * y
  {
    assert b * y - b * x == b * (y - x);
  }

  lemma ProductPositive(x: real, y: real)
    requires 0.0 < x && 0.0 < y
    ensures x * y > 0.0
  {
  }

  /** `a * b` as a function of its own. Facts about a product are proved
      once, over two distinct variables, and reach their users by name:
      the solver's arithmetic does not reliably link a square such as
      `dx * dx` to a fact stated about `x * y`. */
  function Product(a: real, b: real): real {
    a * b
  }

  /** The sign rules for a product. */
  lemma ProductSign(x: real, y: real)
    ensures 0.0 < x && 0.0 < y ==> 0.0 < Product(x, y)
    ensures x < 0.0 && y < 0.0 ==> 0.0 < Product(x, y)
    ensures x == 0.0 || y == 0.0 ==> Product(x, y) == 0.0
  {
    if x < 0.0 && y < 0.0 {
      assert Product(x, y) == (-x) * (-y);
      ProductPositive(-x, -y);
    }
  }

  /** A square is never negative, and positive unless its root is zero. */
  lemma SquareSign(r: real)
    ensures 0.0 <= Product(r, r)
    ensures r != 0.0 ==> 0.0 < Product(r, r)
  {
    ProductSign(r, r);
  }

  /** Multiplying by a non-negative factor keeps an order. */
  lemma ProductMonotone(x: real, y: real, z: real)
    requires 0.0 <= x && y <= z
    ensures Product(x, y) <= Product(x, z)
    ensures 0.0 < x && y < z ==> Product(x, y) < Product(x, z)
  {
    assert Product(x, z) - Product(x, y) == Product(x, z - y);
    ProductSign(x, z - y);
  }

  lemma ProductCommutes(x: real, y: real)
    ensures Product(x, y) == Product(y, x)
  {
  }

  /** Squaring is strictly increasing on the non-negative reals. */
  lemma SquaresOrdered(a: real, b: real)
    requires 0.0 <= a < b
    ensures Product(a, a) < Product(b, b)
  {
    ProductMonotone(a, a, b);
    ProductMonotone(b, a, b);
    ProductCommutes(a, b);
  }

  /** Multiplication distributes over a sum. */
  lemma ProductAdds(a: real, b: real, c: real)
    ensures Product(a + b, c) == Product(a, c) + Product(b, c)
  {
  }

  /** A move of `d` along one axis at slope `rise / run` moves the other
      coordinate so that the two are in the ratio `run : rise`. */
  lemma SlopeTimesRun(d: real, rise: real, run: real)
    requires run != 0.0
    ensures Product(Product(d, rise / run), run) == Product(d, rise)
  {
    var slope := rise / run;
    assert slope * run == rise;
    assert Product(d, slope) * run == d * (slope * run);
  }

  /** The square of a product is the product of the squares. */
  lemma ProductSquare(a: real, b: real)
    ensures Product(Product(a, b), Product(a, b)) == Product(Product(a, a), Product(b, b))
  {
    assert (a * b) * (a * b) == (a * a) * (b * b);
  }

  /** Scaling a direction `(c, s)` of length `l` by `t` scales its length
      by `t`. */
  lemma ScaledLength(t: real, l: real, c: real, s: real)
    requires Product(l, l) == Product(c, c) + Product(s, s)
    ensures Product(Product(t, l), Product(t, l))
         == Product(Product(t, c), Product(t, c)) + Product(Product(t, s), Product(t, s))
  {
    ProductSquare(t, l);
    ProductSquare(t, c);
    ProductSquare(t, s);
    assert (t * t) * (c * c + s * s) == (t * t) * (c * c) + (t * t) * (s * s);
  }

  /** A quotient of two non-zero numbers of the same sign is positive. */
  lemma QuotientPositive(d: real, run: real)
    requires (0.0 < d && 0.0 < run) || (d < 0.0 && run < 0.0)
    ensures 0.0 < d / run
  {
    assert (d / run) * run == d;
  }

  /** `sqrt` agrees with Math.sqrt on the non-negative reals: it returns the
      non-negative number whose square is its argument. */
  ghost predicate SquareRoot(sqrt: real -> real) {
    forall t :: 0.0 <= t ==> 0.0 <= sqrt(t) && Product(sqrt(t), sqrt(t)) == t
  }

  lemma SqrtPositive(sqrt: real -> real, t: real)
    requires SquareRoot(sqrt) && 0.0 < t
    ensures 0.0 < sqrt(t)
  {
    ProductSign(sqrt(t), sqrt(t));
  }

  /** A square root never decreases as its argument grows. */
  lemma SqrtMonotone(sqrt: real -> real, a: real, b: real)
    requires SquareRoot(sqrt) && 0.0 <= a <= b
    ensures sqrt(a) <= sqrt(b)
  {
    if sqrt(b) < sqrt(a) {
      SquaresOrdered(sqrt(b), sqrt(a));
    }
  }

  /** The square root of `t * t * q` is `t` times the square root of `q`. */
  lemma SqrtScales(sqrt: real -> real, t: real, q: real)
    requires SquareRoot(sqrt) && 0.0 <= t && 0.0 <= q
    ensures 0.0 <= Product(t, sqrt(q))
    ensures sqrt(Product(Product(t, t), q)) == Product(t, sqrt(q))
  {
    var l := sqrt(q);
    assert Product(l, l) == q;
    ProductMonotone(t, 0.0, l);
    ProductSign(t, 0.0);
    ProductSquare(t, l);
    SqrtOfSquare(sqrt, Product(t, l));
  }

  /** The square root of a perfect square is its non-negative root. */
  lemma SqrtOfSquare(sqrt: real -> real, r: real)
    requires SquareRoot(sqrt) && 0.0 <= r
    ensures sqrt(Product(r, r)) == r
  {
    SquareSign(r);
    var s := sqrt(Product(r, r));
    if s < r {
      SquaresOrdered(s, r);
    } else if r < s {
      SquaresOrdered(r, s);
    }
  }
}

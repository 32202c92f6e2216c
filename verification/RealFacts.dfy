/** Elementary facts about products and quotients of reals, stated where the solver needs them one at a time. */
module RealFacts {
  lemma Product(a: real, b: real)
    requires a >= 0.0 && b >= 0.0
    ensures a * b >= 0.0
    ensures a * b == 0.0 <==> a == 0.0 || b == 0.0
  {
  }

  lemma Square(d: real)
    ensures d * d >= 0.0
    ensures d * d == 0.0 <==> d == 0.0
  {
    if d >= 0.0 {
      Product(d, d);
    } else {
      Product(-d, -d);
      assert (-d) * (-d) == d * d;
    }
  }

  lemma ScaledStep(d: real, f: real, g: real)
    requires d >= 0.0 && 0.0 <= f <= g <= 1.0
    ensures 0.0 <= d * f <= d * g <= d
  {
    Product(d, f);
    Product(d, g - f);
    Product(d, 1.0 - g);
  }

  lemma Cancel(x: real, d: real)
    requires d > 0.0 && x * d >= 0.0
    ensures x >= 0.0
  {
  }

  lemma SmallerSquare(s: real, d: real)
    requires d > 0.0 && s * s <= d * d
    ensures -d <= s <= d
  {
    assert (d - s) * (d + s) == d * d - s * s;
    if s >= 0.0 {
      Cancel(d - s, d + s);
    } else {
      assert (d + s) * (d - s) == (d - s) * (d + s);
      Cancel(d + s, d - s);
    }
  }

  lemma RatioBounded(s: real, d: real)
    requires d > 0.0 && -d <= s <= d
    ensures -1.0 <= s / d <= 1.0
  {
    var r := s / d;
    assert r * d == s;
    assert (1.0 - r) * d == d - s && (1.0 + r) * d == d + s;
    Cancel(1.0 - r, d);
    Cancel(1.0 + r, d);
  }

  lemma Quotient(a: real, b: real)
    requires b != 0.0
    ensures a / b * b == a
  {
  }

  lemma QuotientIs(q: real, b: real, a: real)
    requires b > 0.0 && q * b == a
    ensures a / b == q
  {
  }

  lemma PositiveQuotient(a: real, b: real)
    requires a > 0.0 && b > 0.0
    ensures a / b > 0.0
  {
  }

  lemma CancelFactor(x: real, y: real, m: real)
    requires m > 0.0 && x * m == y * m
    ensures x == y
  {
  }

  function SquareOf(d: real): real { d * d }

  /** `syy - 2 t sxy + t^2 sxx`. */
  function Quadratic(t: real, syy: real, sxy: real, sxx: real): real { syy - 2.0 * t * sxy + t * t * sxx }

  lemma QuadraticStep(t: real, a: real, b: real, q: real, syy: real, sxy: real, sxx: real,
                      q': real, syy': real, sxy': real, sxx': real)
    requires q == Quadratic(t, syy, sxy, sxx) && q' == q + SquareOf(b - t * a)
    requires syy' == syy + b * b && sxy' == sxy + a * b && sxx' == sxx + a * a
    ensures q' == Quadratic(t, syy', sxy', sxx')
  {
    assert SquareOf(b - t * a) == b * b - 2.0 * t * (a * b) + t * t * (a * a);
    assert 2.0 * t * sxy' == 2.0 * t * sxy + 2.0 * t * (a * b);
    assert t * t * sxx' == t * t * sxx + t * t * (a * a);
  }

  lemma Between(a: real, b: real, f: real, g: real)
    requires a <= b && 0.0 <= f <= g <= 1.0
    ensures a <= a + (b - a) * f <= a + (b - a) * g <= b
  {
    ScaledStep(b - a, f, g);
  }

  lemma StrictlyBetween(a: real, b: real, f: real)
    requires a < b && 0.0 <= f < 1.0
    ensures a <= a + (b - a) * f < b
    ensures a + (b - a) * f == a <==> f == 0.0
  {
    Product(b - a, f);
    Product(b - a, 1.0 - f);
  }

  /** `x` is within one `n`-th of `p`. */
  predicate Near(x: real, p: real, n: real)
    requires n > 0.0
  {
    -1.0 / n <= x - p <= 1.0 / n
  }

  lemma ScaledDistance(q: real, u: real, c: real, p: real, n: real)
    requires n > 0.0 && q * n == c && u * n == 1.0
    ensures -1.0 <= c - p * n <= 1.0 <==> -u <= q - p <= u
  {
    assert (q - p + u) * n == c - p * n + 1.0;
    assert (u - (q - p)) * n == 1.0 - (c - p * n);
    SameSign(q - p + u, n);
    SameSign(u - (q - p), n);
  }

  lemma DividedDistance(c: real, p: real, n: real)
    requires n > 0.0
    ensures -1.0 <= c - p * n <= 1.0 <==> Near(c / n, p, n)
  {
    Quotient(c, n);
    Quotient(1.0, n);
    assert -1.0 / n == -(1.0 / n);
    ScaledDistance(c / n, 1.0 / n, c, p, n);
  }

  lemma SameSign(x: real, d: real)
    requires d > 0.0
    ensures x * d >= 0.0 <==> x >= 0.0
  {
    if x >= 0.0 {
      Product(x, d);
    } else {
      Product(-x, d);
      assert (-x) * d == -(x * d);
    }
  }

  lemma OnePlace(x: real, p: real, n: real)
    requires x == p * (n - 1.0)
    ensures p * n == x + p
  {
    assert p * n == p * (n - 1.0) + p;
  }

  lemma Fraction(x: real, m: real)
    requires 0.0 <= x <= m && m > 0.0
    ensures 0.0 <= x / m <= 1.0 && (x < m ==> x / m < 1.0)
    ensures m * (1.0 - x / m) == m - x
  {
    var q := x / m;
    assert q * m == x && (1.0 - q) * m == m - x;
    Cancel(q, m);
    Cancel(1.0 - q, m);
  }

  lemma DivisionMonotone(a: real, b: real, d: real)
    requires d > 0.0
    ensures a <= b <==> a / d <= b / d
  {
    assert b / d * d == b && a / d * d == a;
    assert (b / d - a / d) * d == b - a;
    SameSign(b / d - a / d, d);
  }

  /** The least value of a quadratic with leading coefficient `a` bounds its discriminant. */
  lemma LeastResidual(a: real, b: real, c: real, t: real, q: real)
    requires a > 0.0 && q >= 0.0 && t * a == c
    requires q == Quadratic(t, b, c, a)
    ensures SquareOf(c) <= a * b
    ensures SquareOf(c) == a * b <==> q == 0.0
  {
    assert t * t * a == t * c by { assert t * t * a == t * (t * a); }
    assert q == b - t * c;
    assert a * (t * c) == c * c by { assert a * (t * c) == (t * a) * c; }
    assert a * q == a * b - a * (t * c);
    Product(a, q);
  }

  lemma BoundedBySquares(s: real, v: real, d: real)
    requires d > 0.0 && d * d == v && SquareOf(s) <= v
    ensures -1.0 <= s / d <= 1.0
  {
    SmallerSquare(s, d);
    RatioBounded(s, d);
  }

  lemma Blend(a: real, b: real, f: real)
    ensures a + (b - a) * f == a * (1.0 - f) + b * f
  {
  }

  /** One more product with a shifted factor. */
  lemma ShiftStep(d: real, p: real, t: real, m: real, x: real, y: real)
    requires d == p - m * t
    ensures d + x * (y - m) == p + x * y - m * (t + x)
  {
  }

  lemma CountStep(t: real, m: real, k: real, x: real)
    ensures t - k * m + (x - m) == t + x - (k + 1.0) * m
  {
  }

  function Times(f: real, d: real): real { f * d }

  lemma ScaledRight(d: real, f: real, g: real)
    requires d >= 0.0 && f <= g
    ensures Times(f, d) <= Times(g, d)
  {
    Product(d, g - f);
    assert d * (g - f) == g * d - f * d;
  }

  lemma RootedQuotient(sxy: real, sxx: real, syy: real, d: real)
    requires d > 0.0 && d * d == sxx * syy
    ensures var c := sxy / d;
            c * c * (sxx * syy) == sxy * sxy && (c > 0.0 <==> sxy > 0.0) && (c < 0.0 <==> sxy < 0.0)
  {
    var c := sxy / d;
    Quotient(sxy, d);
    assert c * d == sxy;
    assert c * c * (d * d) == (c * d) * (c * d);
    SameSign(c, d);
    SameSign(-c, d);
  }
}

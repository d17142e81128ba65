/**
 Point addition and the double-and-add loop of benchmarks/v3/trust.py.
 When `d` is not a square, addition never divides by zero and stays on the curve.
 */
module EdwardsGroup {
  import opened ModularArithmetic
  import opened EdwardsPoints

  function Add(c: Curve, l: Point, r: Point): (s: Point)
    requires c.q > 2
    ensures Reduced(c, s)
  {
    var dx := PowMod(1 + c.d * l.x * r.x * l.y * r.y, c.q - 2, c.q);
    var dy := PowMod(1 - c.d * l.x * r.x * l.y * r.y, c.q - 2, c.q);
    Point(((l.x * r.y + r.x * l.y) * dx) % c.q, ((l.y * r.y + l.x * r.x) * dy) % c.q)
  }

  ghost predicate Element(c: Curve, p: Point)
    requires c.q > 0
  {
    Reduced(c, p) && OnCurve(c, p)
  }

  // ---------- polynomial identities ----------

  lemma SquareExpand(f: int, x: int, g: int, y: int)
    ensures (f * x + g * y) * (f * x + g * y) == (f * f) * (x * x) + (g * g) * (y * y) + 2 * ((f * g) * (x * y))
  {
  }

  lemma TwistIdentity(ii: int, X1: int, Y1: int, X2: int, Y2: int, m: int, ee: int, w: int, v: int, z: int)
    requires m * v == w && m * z == ee
    ensures (ii * X1 + ee * Y1 + 2 * w) - m * (ii * X2 + Y2 + 2 * v)
         == (Y1 - X1 - 1 - m) + (ii + 1) * (X1 - m * X2) + (ee - 1) * (Y1 - 1) - m * (Y2 - X2 - 1 - z)
  {
    assert m * (2 * v) == 2 * w;
  }

  lemma SymmetricSums(X1: int, Y1: int, X2: int, Y2: int)
    ensures (X1 * Y2 + X2 * Y1) * (Y1 * Y2 + X1 * X2)
         == (X1 * Y1) * ((Y2 - X2) * (Y2 - X2)) + (X2 * Y2) * ((Y1 - X1) * (Y1 - X1)) + 4 * ((X1 * Y1) * (X2 * Y2))
    ensures (Y1 * Y2 + X1 * X2) - (X1 * Y2 + X2 * Y1) == (Y1 - X1) * (Y2 - X2)
  {
  }

  lemma CollectCrossTerm(al: int, ga: int, g: int, d: int, e: int)
    requires e == d * g
    ensures -((al + 2 * g) * ((1 - e) * (1 - e))) + (ga + 2 * g) * ((1 + e) * (1 + e))
            - d * ((al + 2 * g) * (ga + 2 * g))
         == (ga - al) * (1 + e * e) - d * (al * ga) + 4 * (e * g)
  {
    var s := 1 + e * e;
    assert (1 - e) * (1 - e) == s - 2 * e && (1 + e) * (1 + e) == s + 2 * e;
    CollectedFrom(al, ga, g, d, e, s, (1 - e) * (1 - e), (1 + e) * (1 + e));
  }

  lemma CollectedFrom(al: int, ga: int, g: int, d: int, e: int, s: int, m: int, n: int)
    requires e == d * g && m == s - 2 * e && n == s + 2 * e
    ensures -((al + 2 * g) * m) + (ga + 2 * g) * n - d * ((al + 2 * g) * (ga + 2 * g))
         == (ga - al) * s - d * (al * ga) + 4 * (e * g)
  {
    MinusCrossTerm(al, g, s, e);
    PlusCrossTerm(ga, g, s, e);
    ScaledProduct2(al, ga, g, d, e);
    OverDifference(ga, al, s);
  }

  lemma PlusCrossTerm(a: int, g: int, s: int, e: int)
    ensures (a + 2 * g) * (s + 2 * e) == a * s + 2 * (e * a) + 2 * (g * s) + 4 * (e * g)
  {
  }

  lemma MinusCrossTerm(a: int, g: int, s: int, e: int)
    ensures (a + 2 * g) * (s - 2 * e) == a * s - 2 * (e * a) + 2 * (g * s) - 4 * (e * g)
  {
  }

  lemma ScaledProduct2(al: int, ga: int, g: int, d: int, e: int)
    requires e == d * g
    ensures d * ((al + 2 * g) * (ga + 2 * g)) == d * (al * ga) + 2 * (e * al) + 2 * (e * ga) + 4 * (e * g)
  {
    assert (al + 2 * g) * (ga + 2 * g) == al * ga + 2 * (g * al) + 2 * (g * ga) + 4 * (g * g);
    assert d * (g * al) == e * al && d * (g * ga) == e * ga && d * (g * g) == e * g;
    OverSum(d, al * ga, g * al, g * ga, g * g);
  }

  lemma OverSum(d: int, a: int, b: int, c: int, f: int)
    ensures d * (a + 2 * b + 2 * c + 4 * f) == d * a + 2 * (d * b) + 2 * (d * c) + 4 * (d * f)
  {
  }

  lemma OverDifference(a: int, b: int, s: int)
    ensures (a - b) * s == a * s - b * s
  {
  }

  lemma FactorSum(u: int, v: int, P: int, Q: int, d: int, e: int, g: int, al: int, ga: int)
    requires e == d * g && g * g == P * Q && ga - al == u * v
    requires al * ga == P * (v * v) + Q * (u * u) + 4 * (P * Q)
    ensures (ga - al) * (1 + e * e) - d * (al * ga) + 4 * (e * g) == (u - (d * P) * v) * (v - (d * Q) * u)
  {
    var m, n, p := d * P, d * Q, P * Q;
    CrossSquares(d, g, P, Q);
    Distribute(d, P, v * v, Q, u * u, p);
    assert (ga - al) * (1 + e * e) == u * v + (m * n) * (u * v);
    ProductOfDifferences(u, v, m, n);
  }

  lemma CrossSquares(d: int, g: int, P: int, Q: int)
    requires g * g == P * Q
    ensures (d * g) * (d * g) == (d * P) * (d * Q) && (d * g) * g == d * (P * Q)
  {
    assert (d * g) * (d * g) == (d * d) * (g * g);
  }

  lemma Distribute(d: int, P: int, s: int, Q: int, t: int, p: int)
    ensures d * (P * s + Q * t + 4 * p) == (d * P) * s + (d * Q) * t + 4 * (d * p)
  {
  }

  lemma ProductOfDifferences(u: int, v: int, m: int, n: int)
    ensures (u - m * v) * (v - n * u) == u * v - n * (u * u) - m * (v * v) + (m * n) * (u * v)
  {
  }

  lemma ClearDenominators(x: int, y: int, b: int, f: int, d: int)
    ensures (-(x * x) + y * y - 1 - d * ((x * x) * (y * y))) * ((b * f) * (b * f))
         == -(((b * x) * (b * x)) * (f * f)) + ((f * y) * (f * y)) * (b * b) - (b * f) * (b * f)
            - d * (((b * x) * (b * x)) * ((f * y) * (f * y)))
  {
    var X, Y, B, F := x * x, y * y, b * b, f * f;
    assert (b * x) * (b * x) == B * X && (f * y) * (f * y) == F * Y && (b * f) * (b * f) == B * F;
    assert (B * X) * F == X * (B * F) && (F * Y) * B == Y * (B * F);
    assert d * ((B * X) * (F * Y)) == (d * (X * Y)) * (B * F);
  }

  // ---------- no exceptional cases ----------

  lemma CurveTermForm(c: Curve, p: Point)
    ensures CurveTerm(c, p) == (p.y * p.y - p.x * p.x) - (1 + c.d * ((p.x * p.x) * (p.y * p.y)))
    ensures CurveTerm(c, p) == -(p.x * p.x) + p.y * p.y - 1 - c.d * ((p.x * p.x) * (p.y * p.y))
  {
    assert c.d * p.x * p.x * p.y * p.y == c.d * ((p.x * p.x) * (p.y * p.y));
    assert -p.x * p.x == -(p.x * p.x);
  }

  lemma CurveEquation(c: Curve, p: Point)
    requires c.q > 0 && OnCurve(c, p)
    ensures Cong(p.y * p.y - p.x * p.x, 1 + c.d * ((p.x * p.x) * (p.y * p.y)), c.q)
  {
    CurveTermForm(c, p);
    DifferenceZero(p.y * p.y - p.x * p.x, 1 + c.d * ((p.x * p.x) * (p.y * p.y)), c.q);
  }

  lemma DifferenceZero(a: int, b: int, q: int)
    requires q > 0 && (a - b) % q == 0
    ensures Cong(a, b, q)
  {
    CongZero(a - b, q);
    CongAdd(a - b, 0, b, b, q);
  }

  /** If b is not zero and a^2 = d * b^2, then d is a square. */
  lemma QuotientOfSquares(a: int, b: int, d: int, q: int) returns (r: int)
    requires IsPrime(q) && b % q != 0 && Cong(a * a, d * (b * b), q)
    ensures Cong(r * r, d, q)
  {
    var inv := PowMod(b, q - 2, q);
    FermatInverse(b, q);
    r := a * inv;
    var n := b * inv;
    CongMul(n, 1, n, 1, q);
    CongMul(a * a, d * (b * b), inv * inv, inv * inv, q);
    CongMul(d, d, n * n, 1, q);
    SquareOfProduct(a, inv);
    MoveSquareInside(d, b, inv);
  }

  /** The product `d * x1 * x2 * y1 * y2` that both denominators are built from. */
  function Cross(c: Curve, l: Point, r: Point): int {
    c.d * ((l.x * l.y) * (r.x * r.y))
  }

  /** If the cross term squares to 1, then `d` times a square is a square, with either sign. */
  lemma TwistedSquare(c: Curve, l: Point, r: Point, s: int)
    requires c.q > 0 && (c.i * c.i + 1) % c.q == 0 && OnCurve(c, l) && OnCurve(c, r)
    requires s * s == 1 && Cong(Cross(c, l, r) * Cross(c, l, r), 1, c.q)
    ensures var a, b := c.i * l.x + (s * Cross(c, l, r)) * l.y, (l.x * l.y) * (c.i * r.x + s * r.y);
            Cong(a * a, c.d * (b * b), c.q)
  {
    var e, p := Cross(c, l, r), l.x * l.y;
    var m := c.d * (p * p);
    var a, b := c.i * l.x + (s * e) * l.y, c.i * r.x + s * r.y;
    TwistedDifference(c, l, r, s);
    CurveEquation(c, l);
    CurveEquation(c, r);
    SquareOfProduct(l.x, l.y);
    VanishingDifference(a * a, m * (b * b), l.y * l.y - l.x * l.x, 1 + m, c.i * c.i, l.x * l.x - m * (r.x * r.x),
                        e * e, l.y * l.y - 1, m, r.y * r.y - r.x * r.x, 1 + c.d * ((r.x * r.x) * (r.y * r.y)), c.q);
    MoveSquareInside(c.d, p, b);
  }

  lemma MoveSquareInside(d: int, p: int, b: int)
    ensures (d * (p * p)) * (b * b) == d * ((p * b) * (p * b))
  {
    SquareOfProduct(p, b);
  }

  lemma TwistedDifference(c: Curve, l: Point, r: Point, s: int)
    requires s * s == 1
    ensures var i, d, e, p := c.i, c.d, Cross(c, l, r), l.x * l.y;
            var a, b, m := i * l.x + (s * e) * l.y, i * r.x + s * r.y, d * (p * p);
            a * a - m * (b * b)
            == (l.y * l.y - l.x * l.x - (1 + m)) + (i * i + 1) * (l.x * l.x - m * (r.x * r.x))
               + (e * e - 1) * (l.y * l.y - 1)
               - m * (r.y * r.y - r.x * r.x - (1 + d * ((r.x * r.x) * (r.y * r.y))))
  {
    var i, d, e := c.i, c.d, Cross(c, l, r);
    var X1, Y1, X2, Y2 := l.x * l.x, l.y * l.y, r.x * r.x, r.y * r.y;
    var p, n := l.x * l.y, r.x * r.y;
    SquareExpand(i, l.x, s * e, l.y);
    SquareExpand(i, r.x, s, r.y);
    SquareOfProduct(r.x, r.y);
    TwistProducts(d, p, n, i, s, e, X2, Y2);
    TwistIdentity(i * i, X1, Y1, X2, Y2, d * (p * p), e * e, (i * (s * e)) * p, (i * s) * n, d * (X2 * Y2));
  }

  lemma TwistMiddle(d: int, p: int, n: int, i: int, s: int)
    ensures (d * (p * p)) * ((i * s) * n) == (i * (s * (d * (p * n)))) * p
  {
    var k := d * (p * n);
    assert (d * (p * p)) * n == k * p;
    assert (d * (p * p)) * ((i * s) * n) == (i * s) * ((d * (p * p)) * n);
    assert (i * s) * (k * p) == (i * (s * k)) * p;
  }

  lemma TwistProducts(d: int, p: int, n: int, i: int, s: int, e: int, X: int, Y: int)
    requires e == d * (p * n) && s * s == 1 && n * n == X * Y
    ensures (d * (p * p)) * ((i * s) * n) == (i * (s * e)) * p
    ensures (d * (p * p)) * (d * (X * Y)) == e * e
    ensures (s * e) * (s * e) == e * e
  {
    TwistMiddle(d, p, n, i, s);
    CrossSquares(d, p * n, p * p, n * n);
    SquareOfProduct(s, e);
  }

  /** A difference whose every term carries a factor congruent to zero. */
  lemma VanishingDifference(s: int, t: int, u: int, k: int, ii: int, a: int, ee: int, b: int, m: int, v: int, n: int,
                            q: int)
    requires q > 0 && Cong(u, k, q) && (ii + 1) % q == 0 && Cong(ee, 1, q) && Cong(v, n, q)
    requires s - t == (u - k) + (ii + 1) * a + (ee - 1) * b - m * (v - n)
    ensures Cong(s, t, q)
  {
    CongAdd(u, k, k, k, q);
    CongAdd(ee, 1, 1, 1, q);
    CongAdd(v, n, n, n, q);
    CongZero(ii + 1, q);
    CongMul(ii + 1, 0, a, a, q);
    CongMul(ee - 1, 0, b, b, q);
    CongMul(m, m, v - n, 0, q);
    CongAdd(u - k, 0, (ii + 1) * a, 0, q);
    CongAdd((u - k) + (ii + 1) * a, 0, (ee - 1) * b, 0, q);
    CongAdd((u - k) + (ii + 1) * a + (ee - 1) * b, 0, m * (v - n), 0, q);
    CongAdd(s - t, 0, t, t, q);
  }

  lemma CrossNeverSquaresToOne(c: Curve, l: Point, r: Point)
    requires c.Complete() && OnCurve(c, l) && OnCurve(c, r)
    ensures !Cong(Cross(c, l, r) * Cross(c, l, r), 1, c.q)
  {
    var q, e, p := c.q, Cross(c, l, r), l.x * l.y;
    if Cong(e * e, 1, q) {
      CrossFactors(c, l, r);
      var t, u := c.i * r.x + 1 * r.y, c.i * r.x + -1 * r.y;
      TwistedSquare(c, l, r, 1);
      TwistedSquare(c, l, r, -1);
      FactorMustVanish(c, c.i * l.x + (1 * e) * l.y, p, t);
      FactorMustVanish(c, c.i * l.x + (-1 * e) * l.y, p, u);
      // both i*x2 + y2 and i*x2 - y2 vanish, so y2 does
      CongZero(t, q);
      CongZero(u, q);
      CongAdd(t, 0, u, 0, q);
      CongZero(r.y * 2, q);
      NoZeroDivisors(r.y, 2, q);
      RemainderUnique(2, 0, 2, q);
    }
  }

  lemma CrossFactors(c: Curve, l: Point, r: Point)
    requires IsPrime(c.q) && Cong(Cross(c, l, r) * Cross(c, l, r), 1, c.q)
    ensures (l.x * l.y) % c.q != 0 && r.y % c.q != 0
  {
    var q, e, p := c.q, Cross(c, l, r), l.x * l.y;
    if p % q == 0 {
      CongZero(p, q);
      CongMul(p, 0, r.x * r.y, r.x * r.y, q);
    }
    if r.y % q == 0 {
      CongZero(r.y, q);
      CongMul(p * r.x, p * r.x, r.y, 0, q);
      assert (p * r.x) * r.y == p * (r.x * r.y);
    }
    if p % q == 0 || r.y % q == 0 {
      CongMul(c.d, c.d, p * (r.x * r.y), 0, q);
      CongMul(e, 0, e, 0, q);
      RemainderUnique(1, 0, 1, q);
      RemainderUnique(0, 0, 0, q);
    }
  }

  lemma FactorMustVanish(c: Curve, a: int, p: int, b: int)
    requires c.Complete() && p % c.q != 0 && Cong(a * a, c.d * ((p * b) * (p * b)), c.q)
    ensures b % c.q == 0
  {
    if (p * b) % c.q != 0 {
      var r := QuotientOfSquares(a, p * b, c.d, c.q);
    } else {
      NoZeroDivisors(p, b, c.q);
    }
  }

  lemma DenominatorsNonZero(c: Curve, l: Point, r: Point)
    requires c.Complete() && OnCurve(c, l) && OnCurve(c, r)
    ensures (1 + Cross(c, l, r)) % c.q != 0 && (1 - Cross(c, l, r)) % c.q != 0
  {
    var e, q := Cross(c, l, r), c.q;
    CrossNeverSquaresToOne(c, l, r);
    if (1 + e) % q == 0 {
      CongZero(1 + e, q);
      CongMul(1 + e, 0, 1 - e, 1 - e, q);
    }
    if (1 - e) % q == 0 {
      CongZero(1 - e, q);
      CongMul(1 - e, 0, 1 + e, 1 + e, q);
    }
    if (1 + e) % q == 0 || (1 - e) % q == 0 {
      assert (1 + e) * (1 - e) == 1 - e * e == (1 - e) * (1 + e);
      CongAdd(1, 1, 1 - e * e, 0, q);
    }
  }

  // ---------- addition stays on the curve ----------

  /** The sum is the quotient RFC 8032 section 5.1.4 asks for: times its denominator it is the numerator. */
  lemma AddQuotients(c: Curve, l: Point, r: Point)
    requires c.Complete() && OnCurve(c, l) && OnCurve(c, r)
    ensures var s, e := Add(c, l, r), Cross(c, l, r);
            && Cong((1 + e) * s.x, l.x * r.y + r.x * l.y, c.q)
            && Cong((1 - e) * s.y, l.y * r.y + l.x * r.x, c.q)
  {
    var e := Cross(c, l, r);
    assert c.d * l.x * r.x * l.y * r.y == e;
    DenominatorsNonZero(c, l, r);
    ModularQuotient(l.x * r.y + r.x * l.y, 1 + e, c.q);
    ModularQuotient(l.y * r.y + l.x * r.x, 1 - e, c.q);
  }

  lemma ModularQuotient(n: int, m: int, q: int)
    requires IsPrime(q) && m % q != 0
    ensures Cong(m * ((n * PowMod(m, q - 2, q)) % q), n, q)
  {
    var inv := PowMod(m, q - 2, q);
    FermatInverse(m, q);
    CongReduce(n * inv, q);
    CongMul(m, m, (n * inv) % q, n * inv, q);
    CongMul(n, n, m * inv, 1, q);
    SwapFactors(m, n, inv);
  }

  /** The numerator of the curve equation at the sum, as a product. */
  lemma SumFactors(x1: int, y1: int, x2: int, y2: int, d: int)
    ensures
      var e, a, b := d * ((x1 * y1) * (x2 * y2)), x1 * y2 + x2 * y1, y1 * y2 + x1 * x2;
      var u, v, P, Q := y1 * y1 - x1 * x1, y2 * y2 - x2 * x2, (x1 * x1) * (y1 * y1), (x2 * x2) * (y2 * y2);
      -((a * a) * ((1 - e) * (1 - e))) + (b * b) * ((1 + e) * (1 + e)) - d * ((a * a) * (b * b))
      == (u - (d * P) * v) * (v - (d * Q) * u)
  {
    var X1, Y1, X2, Y2 := x1 * x1, y1 * y1, x2 * x2, y2 * y2;
    var g := (x1 * y1) * (x2 * y2);
    var al, ga := X1 * Y2 + X2 * Y1, Y1 * Y2 + X1 * X2;
    SumSquares(x1, y1, x2, y2);
    SymmetricSums(X1, Y1, X2, Y2);
    CollectCrossTerm(al, ga, g, d, d * g);
    FactorSum(Y1 - X1, Y2 - X2, X1 * Y1, X2 * Y2, d, d * g, g, al, ga);
  }

  lemma SumSquares(x1: int, y1: int, x2: int, y2: int)
    ensures var g := (x1 * y1) * (x2 * y2);
            && (x1 * y2 + x2 * y1) * (x1 * y2 + x2 * y1) == (x1 * x1) * (y2 * y2) + (x2 * x2) * (y1 * y1) + 2 * g
            && (y1 * y2 + x1 * x2) * (y1 * y2 + x1 * x2) == (y1 * y1) * (y2 * y2) + (x1 * x1) * (x2 * x2) + 2 * g
            && g * g == ((x1 * x1) * (y1 * y1)) * ((x2 * x2) * (y2 * y2))
  {
    SquareExpand(x1, y2, x2, y1);
    SquareExpand(y1, y2, x1, x2);
    assert (x1 * x2) * (y2 * y1) == (x1 * y1) * (x2 * y2) == (y1 * x1) * (y2 * x2);
    SquareOfProduct(x1 * y1, x2 * y2);
    SquareOfProduct(x1, y1);
    SquareOfProduct(x2, y2);
  }

  lemma SquareOfProduct(a: int, b: int)
    ensures (a * b) * (a * b) == (a * a) * (b * b)
  {
  }

  /** Each factor is congruent to `1 - e*e` for points on the curve. */
  lemma FactorCong(u: int, v: int, P: int, Q: int, d: int, ee: int, q: int)
    requires q > 0 && Cong(u, 1 + d * P, q) && Cong(v, 1 + d * Q, q) && (d * P) * (d * Q) == ee
    ensures Cong(u - (d * P) * v, 1 - ee, q)
  {
    CongMul(d * P, d * P, v, 1 + d * Q, q);
    CongAdd(u, 1 + d * P, (d * P) * v, (d * P) * (1 + d * Q), q);
    assert (d * P) * (1 + d * Q) == d * P + ee;
  }

  lemma AddClosed(c: Curve, l: Point, r: Point)
    requires c.Complete() && OnCurve(c, l) && OnCurve(c, r)
    ensures Element(c, Add(c, l, r))
  {
    var e, s := Cross(c, l, r), Add(c, l, r);
    AddQuotients(c, l, r);
    DenominatorsNonZero(c, l, r);
    NumeratorCong(c, l, r);
    SumOnCurve(c, s, 1 + e, 1 - e, l.x * r.y + r.x * l.y, l.y * r.y + l.x * r.x);
  }

  lemma NumeratorCong(c: Curve, l: Point, r: Point)
    requires c.q > 0 && OnCurve(c, l) && OnCurve(c, r)
    ensures var e, a, b := Cross(c, l, r), l.x * r.y + r.x * l.y, l.y * r.y + l.x * r.x;
            var m, n := 1 + e, 1 - e;
            Cong(-((a * a) * (n * n)) + (b * b) * (m * m) - c.d * ((a * a) * (b * b)), (m * n) * (m * n), c.q)
  {
    var q, d, e := c.q, c.d, Cross(c, l, r);
    var u, v := l.y * l.y - l.x * l.x, r.y * r.y - r.x * r.x;
    var P, Q := (l.x * l.x) * (l.y * l.y), (r.x * r.x) * (r.y * r.y);
    CurveEquation(c, l);
    CurveEquation(c, r);
    SumFactors(l.x, l.y, r.x, r.y, d);
    SumSquares(l.x, l.y, r.x, r.y);
    CrossSquares(d, (l.x * l.y) * (r.x * r.y), P, Q);
    FactorCong(u, v, P, Q, d, e * e, q);
    FactorCong(v, u, Q, P, d, e * e, q);
    CongMul(u - (d * P) * v, 1 - e * e, v - (d * Q) * u, 1 - e * e, q);
    DifferenceOfSquares(e);
  }

  lemma DifferenceOfSquares(e: int)
    ensures (1 + e) * (1 - e) == 1 - e * e
  {
  }

  lemma SumOnCurve(c: Curve, s: Point, m: int, n: int, a: int, b: int)
    requires IsPrime(c.q) && m % c.q != 0 && n % c.q != 0
    requires Cong(m * s.x, a, c.q) && Cong(n * s.y, b, c.q)
    requires Cong(-((a * a) * (n * n)) + (b * b) * (m * m) - c.d * ((a * a) * (b * b)), (m * n) * (m * n), c.q)
    ensures OnCurve(c, s)
  {
    var q, d, x, y := c.q, c.d, s.x, s.y;
    var A, B, N, M, K := (m * x) * (m * x), (n * y) * (n * y), n * n, m * m, (m * n) * (m * n);
    CongMul(m * x, a, m * x, a, q);
    CongMul(n * y, b, n * y, b, q);
    CongMul(A, a * a, N, N, q);
    CongMul(B, b * b, M, M, q);
    CongMul(A, a * a, B, b * b, q);
    CongMul(d, d, A * B, (a * a) * (b * b), q);
    CongAdd(B * M, (b * b) * M, A * N, (a * a) * N, q);
    CongAdd(B * M - A * N, (b * b) * M - (a * a) * N, d * (A * B), d * ((a * a) * (b * b)), q);
    CongAdd(B * M - A * N - d * (A * B), K, K, K, q);
    ClearDenominators(x, y, m, n, d);
    var f := -(x * x) + y * y - 1 - d * ((x * x) * (y * y));
    CurveTermForm(c, s);
    assert Cong(f * K, 0, q);
    CongZero(f * K, q);
    NoZeroDivisors(f, K, q);
    if K % q == 0 {
      NoZeroDivisors(m * n, m * n, q);
      NoZeroDivisors(m, n, q);
    }
  }
}

/**
 Edwards addition is associative on every curve whose `d` is not a square.

 Both ways of adding three points are written as a numerator over a denominator
 in the original coordinates. The cross difference of the two fractions is a
 combination of the curve equations; the only genuine polynomial identity,
 WordIdentity, is linear in the eight products of one coordinate per point.
 */
module EdwardsAssociativity {
  import opened ModularArithmetic
  import opened EdwardsPoints
  import opened EdwardsGroup

  // ---------- the polynomial identity ----------

  lemma SplitSigns(W0: int, W1: int, W2: int, W3: int, a: int, b: int, g: int)
    ensures (W0 + W3 - W1 - W2) * a - (W0 + W1 - W2 - W3) * b + (W0 + W1 + W2 + W3) * g
         == W0 * (a - b + g) + W1 * (-a - b + g) + W2 * (-a + b + g) + W3 * (a + b + g)
  {
  }

  /** `t = a + b` and `v = b - a - 1`, in the two forms the coefficients need. */
  lemma TimesSum(w: int, a: int, b: int)
    ensures w * (a + b) == 2 * (w * b) - w - w * (b - a - 1)
    ensures w * (a + b) == 2 * (w * a) + w + w * (b - a - 1)
  {
  }

  /** The coefficient of each word's product with the first, second and third point, simplified. */
  lemma Coefficients(a1: int, b1: int, a2: int, b2: int, a3: int, b3: int)
    ensures
      var v1, v2, v3, t1, t2, t3 := b1 - a1 - 1, b2 - a2 - 1, b3 - a3 - 1, a1 + b1, a2 + b2, a3 + b3;
      && (1 - v2 * v3) - v3 * t2 + t3 == 2 * (b3 - v3 * b2)
      && (1 - v2 * v3) + v3 * t2 + t3 == 2 * (b3 + v3 * a2)
      && -(1 - v2 * v3) - v3 * t2 + t3 == 2 * (a3 - v3 * a2)
      && -(1 - v2 * v3) + v3 * t2 + t3 == 2 * (a3 + v3 * b2)
      && v1 * t3 - v3 * t1 + (v1 - v3) == 2 * (v1 * b3 - v3 * b1)
      && v1 * t3 + v3 * t1 + (v1 - v3) == 2 * (v1 * b3 + v3 * a1)
      && -(v1 * t3) - v3 * t1 + (v1 - v3) == -2 * (v1 * a3 + v3 * b1)
      && -(v1 * t3) + v3 * t1 + (v1 - v3) == 2 * (v3 * a1 - v1 * a3)
      && v1 * t2 - (1 - v1 * v2) - t1 == 2 * (v1 * b2 - b1)
      && v1 * t2 + (1 - v1 * v2) - t1 == 2 * (v1 * a2 - a1)
      && -(v1 * t2) - (1 - v1 * v2) - t1 == -2 * (v1 * a2 + b1)
      && -(v1 * t2) + (1 - v1 * v2) - t1 == -2 * (v1 * b2 + a1)
  {
    var v1, v2, v3 := b1 - a1 - 1, b2 - a2 - 1, b3 - a3 - 1;
    TimesSum(v3, a2, b2);
    TimesSum(v1, a3, b3);
    TimesSum(v3, a1, b1);
    TimesSum(v1, a2, b2);
    assert v1 * v3 == v3 * v1 && v2 * v3 == v3 * v2;
  }

  lemma Cancel1(a: int, b: int, c: int, u: int, v: int)
    ensures a * (2 * (c - v * b)) + b * (2 * (u * c + v * a)) + c * (-2 * (u * b + a)) == 0
  {
  }

  lemma Cancel2(a: int, b: int, c: int, u: int, v: int)
    ensures a * (2 * (u * c - v * b)) + b * (2 * (c + v * a)) + c * (-2 * (u * a + b)) == 0
  {
  }

  lemma Cancel3(a: int, b: int, c: int, u: int, v: int)
    ensures a * (2 * (u * b - c)) + b * (-2 * (u * a + v * c)) + c * (2 * (a + v * b)) == 0
  {
  }

  lemma Cancel0(a: int, b: int, c: int, u: int, v: int)
    ensures a * (2 * (u * b - c)) + c * (2 * (a - v * b)) + b * (2 * (v * c - u * a)) == 0
  {
  }

  lemma DistributePoint(W0: int, W1: int, W2: int, W3: int, p: int, c0: int, c1: int, c2: int, c3: int)
    ensures (W0 * c0 + W1 * c1 + W2 * c2 + W3 * c3) * p == (W0 * p) * c0 + (W1 * p) * c1 + (W2 * p) * c2 + (W3 * p) * c3
  {
  }

  lemma CollectWord(f: int, x: int, c: int, y: int, d: int, z: int, e: int)
    requires x * c + y * d + z * e == 0
    ensures (x * f) * c + (y * f) * d + (z * f) * e == 0
  {
    assert (x * f) * c + (y * f) * d + (z * f) * e == f * (x * c + y * d + z * e);
  }

  /** The contribution of one point to the alternating sum. */
  function Part(W0: int, W1: int, W2: int, W3: int, a: int, b: int, g: int): int {
    (W0 + W3 - W1 - W2) * a - (W0 + W1 - W2 - W3) * b + (W0 + W1 + W2 + W3) * g
  }

  lemma WordIdentity(W0: int, W1: int, W2: int, W3: int, p1: int, p2: int, p3: int,
                     a1: int, b1: int, a2: int, b2: int, a3: int, b3: int, f0: int, f1: int, f2: int, f3: int)
    requires W0 * p1 == a1 * f1 && W0 * p2 == a2 * f2 && W0 * p3 == a3 * f3
    requires W1 * p1 == a1 * f0 && W1 * p2 == b2 * f3 && W1 * p3 == b3 * f2
    requires W2 * p1 == b1 * f3 && W2 * p2 == a2 * f0 && W2 * p3 == b3 * f1
    requires W3 * p1 == b1 * f2 && W3 * p2 == b2 * f1 && W3 * p3 == a3 * f0
    ensures
      var v1, v2, v3, t1, t2, t3 := b1 - a1 - 1, b2 - a2 - 1, b3 - a3 - 1, a1 + b1, a2 + b2, a3 + b3;
      && Part(W0, W1, W2, W3, 1 - v2 * v3, v3 * t2, t3) * p1
       + Part(W0, W1, W2, W3, v1 * t3, v3 * t1, v1 - v3) * p2
       + Part(W0, W1, W2, W3, v1 * t2, 1 - v1 * v2, -t1) * p3 == 0
  {
    var v1, v2, v3, t1, t2, t3 := b1 - a1 - 1, b2 - a2 - 1, b3 - a3 - 1, a1 + b1, a2 + b2, a3 + b3;
    Coefficients(a1, b1, a2, b2, a3, b3);
    var c01, c11, c21, c31 := 2 * (b3 - v3 * b2), 2 * (a3 - v3 * a2), 2 * (a3 + v3 * b2), 2 * (b3 + v3 * a2);
    var c02, c12, c22, c32 :=
      2 * (v1 * b3 - v3 * b1), -2 * (v1 * a3 + v3 * b1), 2 * (v3 * a1 - v1 * a3), 2 * (v1 * b3 + v3 * a1);
    var c03, c13, c23, c33 := 2 * (v1 * b2 - b1), -2 * (v1 * a2 + b1), -2 * (v1 * b2 + a1), 2 * (v1 * a2 - a1);
    PartByWord(W0, W1, W2, W3, p1, 1 - v2 * v3, v3 * t2, t3, c01, c11, c21, c31);
    PartByWord(W0, W1, W2, W3, p2, v1 * t3, v3 * t1, v1 - v3, c02, c12, c22, c32);
    PartByWord(W0, W1, W2, W3, p3, v1 * t2, 1 - v1 * v2, -t1, c03, c13, c23, c33);
    Cancel1(a1, b2, b3, v1, v3);
    Cancel2(a2, b1, b3, v1, v3);
    Cancel3(a3, b2, b1, v1, v3);
    Cancel0(a3, a2, a1, v1, v3);
    CollectWord(f1, a1, c01, b2, c32, b3, c23);
    CollectWord(f2, a2, c02, b1, c31, b3, c13);
    CollectWord(f3, a3, c03, b2, c12, b1, c21);
    CollectWord(f0, a3, c33, a1, c11, a2, c22);
  }

  lemma PartByWord(W0: int, W1: int, W2: int, W3: int, p: int, a: int, b: int, g: int,
                   c0: int, c1: int, c2: int, c3: int)
    requires a - b + g == c0 && -a - b + g == c1 && -a + b + g == c2 && a + b + g == c3
    ensures Part(W0, W1, W2, W3, a, b, g) * p == (W0 * p) * c0 + (W1 * p) * c1 + (W2 * p) * c2 + (W3 * p) * c3
  {
    SplitSigns(W0, W1, W2, W3, a, b, g);
    DistributePoint(W0, W1, W2, W3, p, c0, c1, c2, c3);
  }

  // ---------- cross multiplication ----------

  lemma CrossDifference(S: int, G1: int, G3: int, e: int, f: int, g: int, t1: int, t2: int, t3: int)
    ensures (S + e * G3) * (1 - f * f + g * t2 + e * t3) - (S + f * G1) * (1 - e * e + g * t2 + f * t1)
         == e * G3 - f * G1 - (e * (f * f)) * G3 + ((e * e) * f) * G1 + t2 * ((e * g) * G3 - (g * f) * G1)
            + (e * e) * (t3 * G3) - (f * f) * (t1 * G1) + S * (e * e - f * f + e * t3 - f * t1)
  {
    var M2, M1 := 1 - f * f + g * t2 + e * t3, 1 - e * e + g * t2 + f * t1;
    TimesTwo(S, e, G3, M2);
    TimesTwo(S, f, G1, M1);
    ScaledFour(e, f * f, g, t2, t3);
    ScaledFour(f, e * e, g, t2, t1);
    ExpandFour(e, e * (f * f), (e * g) * t2, (e * e) * t3, G3);
    ExpandFour(f, f * (e * e), (f * g) * t2, (f * f) * t1, G1);
    CommonFactor(S, M2, M1);
    Rearranged(e, f, g, t1, t2, t3, G1, G3);
  }

  lemma TimesTwo(s: int, e: int, g: int, m: int)
    ensures (s + e * g) * m == s * m + (e * m) * g
  {
  }

  lemma ScaledFour(e: int, ff: int, g: int, t: int, u: int)
    ensures e * (1 - ff + g * t + e * u) == e - e * ff + (e * g) * t + (e * e) * u
  {
  }

  lemma CommonFactor(s: int, m: int, n: int)
    ensures s * m - s * n == s * (m - n)
  {
  }

  lemma Rearranged(e: int, f: int, g: int, t1: int, t2: int, t3: int, G1: int, G3: int)
    ensures ((e * g) * t2) * G3 - ((f * g) * t2) * G1 == t2 * ((e * g) * G3 - (g * f) * G1)
    ensures ((e * e) * t3) * G3 == (e * e) * (t3 * G3) && ((f * f) * t1) * G1 == (f * f) * (t1 * G1)
    ensures (f * (e * e)) * G1 == ((e * e) * f) * G1
  {
    CommonFactor(t2, (e * g) * G3, (g * f) * G1);
    Reordered(t2, e * g, G3);
    Reordered(t2, f * g, G1);
  }

  lemma Reordered(t: int, a: int, b: int)
    ensures (a * t) * b == t * (a * b)
  {
  }

  lemma ExpandFour(a: int, b: int, c: int, d: int, g: int)
    ensures (a - b + c + d) * g == a * g - b * g + c * g + d * g
  {
  }

  /** The part of the difference that survives once the products of cross terms are replaced. */
  function Reduced3(S: int, G1: int, G3: int, e: int, f: int,
                    v1: int, v2: int, v3: int, t1: int, t2: int, t3: int): int
  {
    e * G3 - f * G1 - (e * (v2 * v3)) * G3 + ((v1 * v2) * f) * G1 + t2 * ((v1 * f) * G3 - (v3 * e) * G1)
    + (v1 * v2) * (t3 * G3) - (v2 * v3) * (t1 * G1) + S * (v1 * v2 - v2 * v3 + e * t3 - f * t1)
  }

  lemma ReducedByPoint(S: int, G1: int, G3: int, e: int, f: int, v1: int, v2: int, v3: int, t1: int, t2: int, t3: int)
    ensures Reduced3(S, G1, G3, e, f, v1, v2, v3, t1, t2, t3)
         == e * (G3 * (1 - v2 * v3) - G1 * (v3 * t2) + S * t3)
            + v2 * (G3 * (v1 * t3) - G1 * (v3 * t1) + S * (v1 - v3))
            + f * (G3 * (v1 * t2) - G1 * (1 - v1 * v2) + S * (-t1))
  {
    FirstPart(S, G1, G3, e, v2 * v3, v3, t2, t3);
    SecondPart(S, G1, G3, v1, v2, v3, t1, t3);
    ThirdPart(S, G1, G3, f, v1 * v2, v1, t2, t1);
    assert t2 * ((v1 * f) * G3 - (v3 * e) * G1) == t2 * ((v1 * f) * G3) - t2 * ((v3 * e) * G1);
    assert S * (v1 * v2 - v2 * v3 + e * t3 - f * t1) == S * (v1 * v2 - v2 * v3) + S * (e * t3) - S * (f * t1);
  }

  lemma FirstPart(S: int, G1: int, G3: int, e: int, w: int, v3: int, t2: int, t3: int)
    ensures e * (G3 * (1 - w) - G1 * (v3 * t2) + S * t3) == e * G3 - (e * w) * G3 - t2 * ((v3 * e) * G1) + S * (e * t3)
  {
    assert e * (G3 * (1 - w)) == e * G3 - (e * w) * G3;
    assert e * (G1 * (v3 * t2)) == t2 * ((v3 * e) * G1);
    assert e * (S * t3) == S * (e * t3);
  }

  lemma SecondPart(S: int, G1: int, G3: int, v1: int, v2: int, v3: int, t1: int, t3: int)
    ensures v2 * (G3 * (v1 * t3) - G1 * (v3 * t1) + S * (v1 - v3))
         == (v1 * v2) * (t3 * G3) - (v2 * v3) * (t1 * G1) + S * (v1 * v2 - v2 * v3)
  {
    assert v2 * (G3 * (v1 * t3)) == (v1 * v2) * (t3 * G3);
    assert v2 * (G1 * (v3 * t1)) == (v2 * v3) * (t1 * G1);
    assert v2 * (S * (v1 - v3)) == S * (v1 * v2 - v2 * v3);
  }

  lemma ThirdPart(S: int, G1: int, G3: int, f: int, w: int, v1: int, t2: int, t1: int)
    ensures f * (G3 * (v1 * t2) - G1 * (1 - w) + S * (-t1))
         == t2 * ((v1 * f) * G3) - f * G1 + (w * f) * G1 - S * (f * t1)
  {
    assert f * (G3 * (v1 * t2)) == t2 * ((v1 * f) * G3);
    assert f * (G1 * (1 - w)) == f * G1 - (w * f) * G1;
    assert f * (S * (-t1)) == -(S * (f * t1));
  }

  /** Replacing `d * p * p` by the curve's value for it turns a product of cross terms into a single one. */
  lemma CrossProducts(d: int, p1: int, p2: int, p3: int, v1: int, v2: int, v3: int, q: int)
    requires q > 0 && Cong(v1, d * (p1 * p1), q) && Cong(v2, d * (p2 * p2), q) && Cong(v3, d * (p3 * p3), q)
    ensures
      var e, f, g := d * (p1 * p2), d * (p2 * p3), d * (p1 * p3);
      && Cong(e * e, v1 * v2, q) && Cong(f * f, v2 * v3, q) && Cong(e * g, v1 * f, q) && Cong(g * f, v3 * e, q)
  {
    var e, f, g := d * (p1 * p2), d * (p2 * p3), d * (p1 * p3);
    CongMul(v1, d * (p1 * p1), v2, d * (p2 * p2), q);
    CongMul(v2, d * (p2 * p2), v3, d * (p3 * p3), q);
    CongMul(v1, d * (p1 * p1), f, f, q);
    CongMul(v3, d * (p3 * p3), e, e, q);
    PairProducts(d, p1, p2, p1, p2);
    PairProducts(d, p2, p3, p2, p3);
    PairProducts(d, p1, p2, p1, p3);
    PairProducts(d, p3, p1, p3, p2);
    assert p3 * p1 == p1 * p3 && p3 * p2 == p2 * p3;
  }

  lemma PairProducts(d: int, a: int, b: int, c: int, e: int)
    ensures (d * (a * b)) * (d * (c * e)) == (d * (a * c)) * (d * (b * e))
  {
    assert (a * b) * (c * e) == (a * c) * (b * e);
    assert (d * (a * b)) * (d * (c * e)) == (d * d) * ((a * b) * (c * e));
    assert (d * (a * c)) * (d * (b * e)) == (d * d) * ((a * c) * (b * e));
  }

  /** The cross difference of the two numerators and denominators vanishes modulo `q`. */
  lemma CrossMultiply(d: int, p1: int, p2: int, p3: int, v1: int, v2: int, v3: int, t1: int, t2: int, t3: int,
                      S: int, G1: int, G3: int, q: int)
    requires q > 0 && Cong(v1, d * (p1 * p1), q) && Cong(v2, d * (p2 * p2), q) && Cong(v3, d * (p3 * p3), q)
    requires (G3 * (1 - v2 * v3) - G1 * (v3 * t2) + S * t3) * p1
           + (G3 * (v1 * t3) - G1 * (v3 * t1) + S * (v1 - v3)) * p2
           + (G3 * (v1 * t2) - G1 * (1 - v1 * v2) + S * (-t1)) * p3 == 0
    ensures
      var e, f, g := d * (p1 * p2), d * (p2 * p3), d * (p1 * p3);
      Cong((S + e * G3) * (1 - f * f + g * t2 + e * t3), (S + f * G1) * (1 - e * e + g * t2 + f * t1), q)
  {
    var e, f, g := d * (p1 * p2), d * (p2 * p3), d * (p1 * p3);
    var R := Reduced3(S, G1, G3, e, f, v1, v2, v3, t1, t2, t3);
    CrossDifference(S, G1, G3, e, f, g, t1, t2, t3);
    CrossProducts(d, p1, p2, p3, v1, v2, v3, q);
    ReplaceProducts(S, G1, G3, e, f, v1, v2, v3, t1, t2, t3, e * e, f * f, e * g, g * f, q);
    ReducedByPoint(S, G1, G3, e, f, v1, v2, v3, t1, t2, t3);
    var k1 := G3 * (1 - v2 * v3) - G1 * (v3 * t2) + S * t3;
    var k2 := G3 * (v1 * t3) - G1 * (v3 * t1) + S * (v1 - v3);
    var k3 := G3 * (v1 * t2) - G1 * (1 - v1 * v2) + S * (-t1);
    ReducedVanishes(d, p1, p2, p3, v2, k1, k2, k3, q);
    var N1, N2 := (S + e * G3) * (1 - f * f + g * t2 + e * t3), (S + f * G1) * (1 - e * e + g * t2 + f * t1);
    CongAdd(N1 - N2, 0, N2, N2, q);
  }

  lemma ReducedVanishes(d: int, p1: int, p2: int, p3: int, v2: int, k1: int, k2: int, k3: int, q: int)
    requires q > 0 && Cong(v2, d * (p2 * p2), q) && k1 * p1 + k2 * p2 + k3 * p3 == 0
    ensures Cong((d * (p1 * p2)) * k1 + v2 * k2 + (d * (p2 * p3)) * k3, 0, q)
  {
    var m := d * (p2 * p2);
    CongAdd(v2, m, m, m, q);
    CongMul(v2 - m, 0, k2, k2, q);
    assert p1 * p2 == p2 * p1;
    PullOut(d, p2, p1, k1);
    PullOut(d, p2, p3, k3);
    PullOut(d, p2, p2, k2);
    FactorOut(d * p2, k1 * p1, k2 * p2, k3 * p3);
    SubtractProduct(v2, m, k2);
  }

  lemma FactorOut(w: int, a: int, b: int, c: int)
    requires a + b + c == 0
    ensures w * a + w * b + w * c == 0
  {
    assert w * a + w * b + w * c == w * (a + b + c);
  }

  lemma SubtractProduct(a: int, b: int, c: int)
    ensures (a - b) * c == a * c - b * c
  {
  }

  lemma PullOut(d: int, a: int, b: int, k: int)
    ensures (d * (a * b)) * k == (d * a) * (k * b)
  {
  }

  lemma ReplaceProducts(S: int, G1: int, G3: int, e: int, f: int, v1: int, v2: int, v3: int, t1: int, t2: int, t3: int,
                        ee: int, ff: int, eg: int, gf: int, q: int)
    requires q > 0 && Cong(ee, v1 * v2, q) && Cong(ff, v2 * v3, q) && Cong(eg, v1 * f, q) && Cong(gf, v3 * e, q)
    ensures Cong(e * G3 - f * G1 - (e * ff) * G3 + (ee * f) * G1 + t2 * (eg * G3 - gf * G1)
                 + ee * (t3 * G3) - ff * (t1 * G1) + S * (ee - ff + e * t3 - f * t1),
                 Reduced3(S, G1, G3, e, f, v1, v2, v3, t1, t2, t3), q)
  {
    var a, b := v1 * v2, v2 * v3;
    CongTriple(e, ff, b, G3, q);
    CongTriple(f, ee, a, G1, q);
    assert (ee * f) * G1 == (f * ee) * G1 && (a * f) * G1 == (f * a) * G1;
    CongMul(eg, v1 * f, G3, G3, q);
    CongMul(gf, v3 * e, G1, G1, q);
    CongAdd(eg * G3, (v1 * f) * G3, gf * G1, (v3 * e) * G1, q);
    CongMul(t2, t2, eg * G3 - gf * G1, (v1 * f) * G3 - (v3 * e) * G1, q);
    CongMul(ee, a, t3 * G3, t3 * G3, q);
    CongMul(ff, b, t1 * G1, t1 * G1, q);
    CongAdd(ee, a, ff, b, q);
    var w := e * t3 - f * t1;
    CongAdd(ee - ff, a - b, w, w, q);
    CongMul(S, S, ee - ff + w, a - b + w, q);
    SumOfSix(e * G3 - f * G1, (e * ff) * G3, (e * b) * G3, (ee * f) * G1, (a * f) * G1,
             t2 * (eg * G3 - gf * G1), t2 * ((v1 * f) * G3 - (v3 * e) * G1),
             ee * (t3 * G3), a * (t3 * G3), ff * (t1 * G1), b * (t1 * G1), S * (ee - ff + w), S * (a - b + w), q);
  }

  lemma CongTriple(e: int, f: int, b: int, g: int, q: int)
    requires q > 0 && Cong(f, b, q)
    ensures Cong((e * f) * g, (e * b) * g, q)
  {
    CongMul(e, e, f, b, q);
    CongMul(e * f, e * b, g, g, q);
  }

  lemma SumOfSix(k: int, a: int, a': int, b: int, b': int, c: int, c': int, d: int, d': int, e: int, e': int,
                 f: int, f': int, q: int)
    requires q > 0 && Cong(a, a', q) && Cong(b, b', q) && Cong(c, c', q)
    requires Cong(d, d', q) && Cong(e, e', q) && Cong(f, f', q)
    ensures Cong(k - a + b + c + d - e + f, k - a' + b' + c' + d' - e' + f', q)
  {
    CongAdd(k, k, a, a', q);
    CongAdd(k - a, k - a', b, b', q);
    CongAdd(k - a + b, k - a' + b', c, c', q);
    CongAdd(k - a + b + c, k - a' + b' + c', d, d', q);
    CongAdd(k - a + b + c + d, k - a' + b' + c' + d', e, e', q);
    CongAdd(k - a + b + c + d - e, k - a' + b' + c' + d' - e', f, f', q);
  }

  // ---------- three points ----------

  /** Numerators and denominators of (l + m) + r, in the coordinates of the three points. */
  function Nested(c: Curve, l: Point, m: Point, r: Point): (t: (int, int, int, int)) {
    var e, a, b := Cross(c, l, m), l.x * m.y + m.x * l.y, l.y * m.y + l.x * m.x;
    var k := c.d * ((a * b) * (r.x * r.y));
    ((a * (1 - e)) * r.y + (b * (1 + e)) * r.x, (1 - e * e) + k,
     (b * (1 + e)) * r.y + (a * (1 - e)) * r.x, (1 - e * e) - k)
  }

  lemma NestedSum(c: Curve, l: Point, m: Point, r: Point)
    requires c.Complete() && OnCurve(c, l) && OnCurve(c, m) && OnCurve(c, r)
    ensures
      var t, (nx, dx, ny, dy) := Add(c, Add(c, l, m), r), Nested(c, l, m, r);
      && dx % c.q != 0 && dy % c.q != 0
      && Cong(dx * t.x, nx, c.q) && Cong(dy * t.y, ny, c.q)
  {
    var s := Add(c, l, m);
    AddClosed(c, l, m);
    AddQuotients(c, l, m);
    AddQuotients(c, s, r);
    DenominatorsNonZero(c, l, m);
    DenominatorsNonZero(c, s, r);
    NestedFractions(c.d, Cross(c, l, m), l.x * m.y + m.x * l.y, l.y * m.y + l.x * m.x, s, r, Add(c, s, r), c.q);
  }

  lemma NestedFractions(d: int, e: int, a: int, b: int, s: Point, r: Point, t: Point, q: int)
    requires IsPrime(q) && (1 + e) % q != 0 && (1 - e) % q != 0
    requires Cong((1 + e) * s.x, a, q) && Cong((1 - e) * s.y, b, q)
    requires var h := d * ((s.x * s.y) * (r.x * r.y));
             && (1 + h) % q != 0 && (1 - h) % q != 0
             && Cong((1 + h) * t.x, s.x * r.y + r.x * s.y, q) && Cong((1 - h) * t.y, s.y * r.y + s.x * r.x, q)
    ensures var k := d * ((a * b) * (r.x * r.y));
            && (1 - e * e + k) % q != 0 && (1 - e * e - k) % q != 0
            && Cong((1 - e * e + k) * t.x, (a * (1 - e)) * r.y + (b * (1 + e)) * r.x, q)
            && Cong((1 - e * e - k) * t.y, (b * (1 + e)) * r.y + (a * (1 - e)) * r.x, q)
  {
    DifferenceOfSquares(e);
    NestedCore(d, 1 + e, 1 - e, 1 - e * e, a, b, s, r, t, q);
  }

  lemma NestedCore(d: int, m: int, n: int, bd: int, a: int, b: int, s: Point, r: Point, t: Point, q: int)
    requires IsPrime(q) && m % q != 0 && n % q != 0 && bd == m * n
    requires Cong(m * s.x, a, q) && Cong(n * s.y, b, q)
    requires var h := d * ((s.x * s.y) * (r.x * r.y));
             && (1 + h) % q != 0 && (1 - h) % q != 0
             && Cong((1 + h) * t.x, s.x * r.y + r.x * s.y, q) && Cong((1 - h) * t.y, s.y * r.y + s.x * r.x, q)
    ensures var k := d * ((a * b) * (r.x * r.y));
            && (bd + k) % q != 0 && (bd - k) % q != 0
            && Cong((bd + k) * t.x, (a * n) * r.y + (b * m) * r.x, q)
            && Cong((bd - k) * t.y, (b * m) * r.y + (a * n) * r.x, q)
  {
    var h, k := d * ((s.x * s.y) * (r.x * r.y)), d * ((a * b) * (r.x * r.y));
    ScaledCross(d, m, n, s.x, s.y, a, b, r.x * r.y, q);
    if bd % q == 0 { NoZeroDivisors(m, n, q); }
    CongNegate(bd, h, k, q);
    NestedCoordinate(bd, h, k, t.x, s.x * r.y + s.y * r.x, m, n, s, a, b, r.x, r.y, q);
    NestedCoordinate(bd, -h, -k, t.y, s.x * r.x + s.y * r.y, m, n, s, a, b, r.y, r.x, q);
  }

  lemma NestedCoordinate(bd: int, h: int, k: int, t: int, sum: int, m: int, n: int, s: Point, a: int, b: int, u: int,
                         v: int, q: int)
    requires IsPrime(q) && bd == m * n && bd % q != 0 && (1 + h) % q != 0 && Cong(bd * h, k, q)
    requires Cong(m * s.x, a, q) && Cong(n * s.y, b, q) && sum == s.x * v + s.y * u && Cong((1 + h) * t, sum, q)
    ensures (bd + k) % q != 0 && Cong((bd + k) * t, (a * n) * v + (b * m) * u, q)
  {
    ScaledNumerator(m, n, s.x, s.y, a, b, u, v, q);
    ClearDenominator(bd, h, k, t, sum, q);
  }

  lemma CongNegate(b: int, h: int, k: int, q: int)
    requires q > 0 && Cong(b * h, k, q)
    ensures Cong(b * -h, -k, q)
  {
    CongMul(-1, -1, b * h, k, q);
    assert b * -h == -1 * (b * h);
  }

  lemma ScaledCross(d: int, m: int, n: int, x: int, y: int, a: int, b: int, p: int, q: int)
    requires q > 0 && Cong(m * x, a, q) && Cong(n * y, b, q)
    ensures Cong((m * n) * (d * ((x * y) * p)), d * ((a * b) * p), q)
  {
    CongMul(m * x, a, n * y, b, q);
    CongTriple(d, (m * x) * (n * y), a * b, p, q);
    assert (m * x) * (n * y) == (m * n) * (x * y);
    assert (m * n) * (d * ((x * y) * p)) == (d * ((m * n) * (x * y))) * p;
    assert d * ((a * b) * p) == (d * (a * b)) * p;
  }

  lemma ScaledNumerator(m: int, n: int, x: int, y: int, a: int, b: int, u: int, v: int, q: int)
    requires q > 0 && Cong(m * x, a, q) && Cong(n * y, b, q)
    ensures Cong((m * n) * (x * v + y * u), (a * n) * v + (b * m) * u, q)
  {
    CongMul(m * x, a, n * v, n * v, q);
    CongMul(n * y, b, m * u, m * u, q);
    CongAdd((m * x) * (n * v), a * (n * v), (n * y) * (m * u), b * (m * u), q);
    assert (m * n) * (x * v + y * u) == (m * x) * (n * v) + (n * y) * (m * u);
    assert a * (n * v) == (a * n) * v && b * (m * u) == (b * m) * u;
  }

  lemma ClearDenominator(bd: int, h: int, k: int, t: int, n: int, q: int)
    requires IsPrime(q) && bd % q != 0 && (1 + h) % q != 0
    requires Cong(bd * h, k, q) && Cong((1 + h) * t, n, q)
    ensures (bd + k) % q != 0 && Cong((bd + k) * t, bd * n, q)
  {
    CongAdd(bd, bd, bd * h, k, q);
    OneMore(bd, h);
    ClearFactor(bd, 1 + h, bd + k, t, n, q);
  }

  lemma OneMore(b: int, h: int)
    ensures b + b * h == b * (1 + h)
  {
  }

  lemma ClearFactor(b: int, f: int, m: int, t: int, n: int, q: int)
    requires IsPrime(q) && b % q != 0 && f % q != 0 && Cong(b * f, m, q) && Cong(f * t, n, q)
    ensures m % q != 0 && Cong(m * t, b * n, q)
  {
    if m % q == 0 {
      NoZeroDivisors(b, f, q);
    }
    CongMul(m, b * f, t, t, q);
    CongMul(b, b, f * t, n, q);
    Reassociated(b, f, t);
  }

  lemma Reassociated(a: int, b: int, c: int)
    ensures (a * b) * c == a * (b * c)
  {
  }

  /** `v` is what the curve equation makes of `d * (x*y)^2`. */
  lemma CurveValue(c: Curve, p: Point)
    requires c.q > 0 && OnCurve(c, p)
    ensures Cong(p.y * p.y - p.x * p.x - 1, c.d * ((p.x * p.y) * (p.x * p.y)), c.q)
  {
    CurveEquation(c, p);
    SquareOfProduct(p.x, p.y);
    CongAdd(p.y * p.y - p.x * p.x, 1 + c.d * ((p.x * p.x) * (p.y * p.y)), 1, 1, c.q);
  }

  /** The two denominators and the two numerators for one bracketing, as the cross multiplication wants them. */
  lemma NestedForm(c: Curve, l: Point, m: Point, r: Point)
    ensures
      var (nx, dx, ny, dy) := Nested(c, l, m, r);
      var e, f := c.d * ((l.x * l.y) * (m.x * m.y)), c.d * ((m.x * m.y) * (r.x * r.y));
      var g := c.d * ((l.x * l.y) * (r.x * r.y));
      var tl, tm := l.x * l.x + l.y * l.y, m.x * m.x + m.y * m.y;
      && dx == 1 - e * e + g * tm + f * tl && dy == 1 - e * e - g * tm - f * tl
      && nx == (l.x * m.x * r.x + l.x * m.y * r.y + l.y * m.x * r.y + l.y * m.y * r.x)
               + e * (l.x * m.x * r.x + l.y * m.y * r.x - l.x * m.y * r.y - l.y * m.x * r.y)
      && ny == (l.y * m.y * r.y + l.y * m.x * r.x + l.x * m.y * r.x + l.x * m.x * r.y)
               + e * (l.y * m.y * r.y + l.x * m.x * r.y - l.y * m.x * r.x - l.x * m.y * r.x)
  {
    var e, a, b := Cross(c, l, m), l.x * m.y + m.x * l.y, l.y * m.y + l.x * m.x;
    NumeratorForm(l.x * m.y, m.x * l.y, l.y * m.y, l.x * m.x, r.x, r.y, e);
    NumeratorForm(l.x * m.y, m.x * l.y, l.y * m.y, l.x * m.x, r.y, r.x, e);
    DenominatorForm(c.d, l.x, l.y, m.x, m.y, r.x * r.y);
  }

  lemma NumeratorForm(a: int, a': int, b: int, b': int, u: int, v: int, e: int)
    ensures ((a + a') * (1 - e)) * v + ((b + b') * (1 + e)) * u
         == (b' * u + a * v + a' * v + b * u) + e * (b' * u + b * u - a * v - a' * v)
  {
    assert ((a + a') * (1 - e)) * v == (a * v + a' * v) - e * (a * v + a' * v);
    assert ((b + b') * (1 + e)) * u == (b * u + b' * u) + e * (b * u + b' * u);
    assert e * (b * u + b' * u) - e * (a * v + a' * v) == e * (b' * u + b * u - a * v - a' * v);
  }

  lemma DenominatorForm(d: int, x1: int, y1: int, x2: int, y2: int, p: int)
    ensures d * (((x1 * y2 + x2 * y1) * (y1 * y2 + x1 * x2)) * p)
         == (d * ((x1 * y1) * p)) * (x2 * x2 + y2 * y2) + (d * ((x2 * y2) * p)) * (x1 * x1 + y1 * y1)
  {
    var p1, p2, t1, t2 := x1 * y1, x2 * y2, x1 * x1 + y1 * y1, x2 * x2 + y2 * y2;
    MixedProduct(x1, y1, x2, y2);
    SpreadFactor(p1, t2, p2, t1, p);
    DistributeFactor(d, p1 * p, t2, p2 * p, t1);
  }

  lemma SpreadFactor(a: int, s: int, b: int, t: int, p: int)
    ensures (a * s + b * t) * p == (a * p) * s + (b * p) * t
  {
  }

  lemma MixedProduct(x1: int, y1: int, x2: int, y2: int)
    ensures (x1 * y2 + x2 * y1) * (y1 * y2 + x1 * x2)
         == (x1 * y1) * (x2 * x2 + y2 * y2) + (x2 * y2) * (x1 * x1 + y1 * y1)
  {
  }

  lemma DistributeFactor(d: int, a: int, s: int, b: int, t: int)
    ensures d * (a * s + b * t) == (d * a) * s + (d * b) * t
  {
  }


  // ---------- associativity ----------

  lemma SameFraction(m: int, n: int, s: int, t: int, a: int, b: int, q: int)
    requires IsPrime(q) && m % q != 0 && n % q != 0
    requires Cong(m * s, a, q) && Cong(n * t, b, q) && Cong(a * n, b * m, q)
    ensures Cong(s, t, q)
  {
    CongMul(m * s, a, n, n, q);
    CongMul(n * t, b, m, m, q);
    assert (m * s) * n == s * (m * n) && (n * t) * m == t * (m * n);
    if (m * n) % q == 0 { NoZeroDivisors(m, n, q); }
    Cancel(s, t, m * n, q);
  }

  lemma WordsAgree(c: Curve, l: Point, m: Point, r: Point)
    requires c.q > 0 && OnCurve(c, l) && OnCurve(c, m) && OnCurve(c, r)
    ensures
      var (nx, dx, ny, dy) := Nested(c, l, m, r);
      var (nx', dx', ny', dy') := Nested(c, m, r, l);
      Cong(nx * dx', nx' * dx, c.q) && Cong(ny * dy', ny' * dy, c.q)
  {
    XWordsAgree(c, l, m, r);
    YWordsAgree(c, l, m, r);
  }

  lemma Triple(a: int, b: int, c: int)
    ensures a * b * c == b * c * a == c * a * b == b * a * c
  {
  }

  /** A word times one point's product flips that point's letter and leaves a square. */
  lemma Flip(a: int, a': int, b: int, b': int, c: int, c': int)
    ensures (a * b * c) * (a * a') == (a * a) * (a' * b * c)
    ensures (a * b * c) * (b * b') == (b * b) * (a * b' * c)
    ensures (a * b * c) * (c * c') == (c * c) * (a * b * c')
  {
    FlipOne(a, a', b * c);
    FlipOne(b, b', a * c);
    FlipOne(c, c', a * b);
    Regrouped(a, b, c);
    Regrouped(a', b, c);
    Regrouped(a, b', c);
    Regrouped(a, b, c');
  }

  lemma FlipOne(a: int, a': int, k: int)
    ensures (a * k) * (a * a') == (a * a) * (a' * k)
  {
  }

  lemma Regrouped(a: int, b: int, c: int)
    ensures a * b * c == a * (b * c) == b * (a * c) == c * (a * b)
  {
  }

  lemma XFlips(x1: int, y1: int, x2: int, y2: int, x3: int, y3: int)
    ensures
      var W0, W1, W2, W3 := x1 * x2 * x3, x1 * y2 * y3, y1 * x2 * y3, y1 * y2 * x3;
      var f0, f1, f2, f3 := y1 * y2 * y3, y1 * x2 * x3, x1 * y2 * x3, x1 * x2 * y3;
      var p1, p2, p3 := x1 * y1, x2 * y2, x3 * y3;
      && W0 * p1 == (x1 * x1) * f1 && W0 * p2 == (x2 * x2) * f2 && W0 * p3 == (x3 * x3) * f3
      && W1 * p1 == (x1 * x1) * f0 && W1 * p2 == (y2 * y2) * f3 && W1 * p3 == (y3 * y3) * f2
      && W2 * p1 == (y1 * y1) * f3 && W2 * p2 == (x2 * x2) * f0 && W2 * p3 == (y3 * y3) * f1
      && W3 * p1 == (y1 * y1) * f2 && W3 * p2 == (y2 * y2) * f1 && W3 * p3 == (x3 * x3) * f0
  {
    Flip(x1, y1, x2, y2, x3, y3);
    Flip(x1, y1, y2, x2, y3, x3);
    Flip(y1, x1, x2, y2, y3, x3);
    Flip(y1, x1, y2, x2, x3, y3);
    assert y1 * x1 == x1 * y1 && y2 * x2 == x2 * y2 && y3 * x3 == x3 * y3;
  }

  lemma NegateBoth(w: int, a: int, f: int)
    requires w == a * f
    ensures w == -a * -f
  {
  }

  lemma XWordIdentity(l: Point, m: Point, r: Point)
    ensures
      var (x1, y1, x2, y2, x3, y3) := (l.x, l.y, m.x, m.y, r.x, r.y);
      var W0, W1, W2, W3 := x1 * x2 * x3, x1 * y2 * y3, y1 * x2 * y3, y1 * y2 * x3;
      var v1, v2, v3 := y1 * y1 - x1 * x1 - 1, y2 * y2 - x2 * x2 - 1, y3 * y3 - x3 * x3 - 1;
      var t1, t2, t3 := x1 * x1 + y1 * y1, x2 * x2 + y2 * y2, x3 * x3 + y3 * y3;
      Part(W0, W1, W2, W3, 1 - v2 * v3, v3 * t2, t3) * (x1 * y1)
      + Part(W0, W1, W2, W3, v1 * t3, v3 * t1, v1 - v3) * (x2 * y2)
      + Part(W0, W1, W2, W3, v1 * t2, 1 - v1 * v2, -t1) * (x3 * y3) == 0
  {
    var (x1, y1, x2, y2, x3, y3) := (l.x, l.y, m.x, m.y, r.x, r.y);
    XFlips(x1, y1, x2, y2, x3, y3);
    WordIdentity(x1 * x2 * x3, x1 * y2 * y3, y1 * x2 * y3, y1 * y2 * x3, x1 * y1, x2 * y2, x3 * y3,
                 x1 * x1, y1 * y1, x2 * x2, y2 * y2, x3 * x3, y3 * y3,
                 y1 * y2 * y3, y1 * x2 * x3, x1 * y2 * x3, x1 * x2 * y3);
  }

  /** The same identity with the letters exchanged, used with every square negated. */
  lemma YWordIdentity(l: Point, m: Point, r: Point)
    ensures
      var (x1, y1, x2, y2, x3, y3) := (l.x, l.y, m.x, m.y, r.x, r.y);
      var W0, W1, W2, W3 := y1 * y2 * y3, y1 * x2 * x3, x1 * y2 * x3, x1 * x2 * y3;
      var v1, v2, v3 := y1 * y1 - x1 * x1 - 1, y2 * y2 - x2 * x2 - 1, y3 * y3 - x3 * x3 - 1;
      var t1, t2, t3 := -(x1 * x1) - y1 * y1, -(x2 * x2) - y2 * y2, -(x3 * x3) - y3 * y3;
      Part(W0, W1, W2, W3, 1 - v2 * v3, v3 * t2, t3) * (x1 * y1)
      + Part(W0, W1, W2, W3, v1 * t3, v3 * t1, v1 - v3) * (x2 * y2)
      + Part(W0, W1, W2, W3, v1 * t2, 1 - v1 * v2, -t1) * (x3 * y3) == 0
  {
    var (x1, y1, x2, y2, x3, y3) := (l.x, l.y, m.x, m.y, r.x, r.y);
    YFlips(x1, y1, x2, y2, x3, y3);
    WordIdentity(y1 * y2 * y3, y1 * x2 * x3, x1 * y2 * x3, x1 * x2 * y3, x1 * y1, x2 * y2, x3 * y3,
                 -(y1 * y1), -(x1 * x1), -(y2 * y2), -(x2 * x2), -(y3 * y3), -(x3 * x3),
                 -(x1 * x2 * x3), -(x1 * y2 * y3), -(y1 * x2 * y3), -(y1 * y2 * x3));
  }

  lemma YFlips(x1: int, y1: int, x2: int, y2: int, x3: int, y3: int)
    ensures
      var W0, W1, W2, W3 := y1 * y2 * y3, y1 * x2 * x3, x1 * y2 * x3, x1 * x2 * y3;
      var f0, f1, f2, f3 := -(x1 * x2 * x3), -(x1 * y2 * y3), -(y1 * x2 * y3), -(y1 * y2 * x3);
      var p1, p2, p3 := x1 * y1, x2 * y2, x3 * y3;
      && W0 * p1 == -(y1 * y1) * f1 && W0 * p2 == -(y2 * y2) * f2 && W0 * p3 == -(y3 * y3) * f3
      && W1 * p1 == -(y1 * y1) * f0 && W1 * p2 == -(x2 * x2) * f3 && W1 * p3 == -(x3 * x3) * f2
      && W2 * p1 == -(x1 * x1) * f3 && W2 * p2 == -(y2 * y2) * f0 && W2 * p3 == -(x3 * x3) * f1
      && W3 * p1 == -(x1 * x1) * f2 && W3 * p2 == -(x2 * x2) * f1 && W3 * p3 == -(y3 * y3) * f0
  {
    var g0, g1, g2, g3 := x1 * x2 * x3, x1 * y2 * y3, y1 * x2 * y3, y1 * y2 * x3;
    var W0, W1, W2, W3 := y1 * y2 * y3, y1 * x2 * x3, x1 * y2 * x3, x1 * x2 * y3;
    var p1, p2, p3 := x1 * y1, x2 * y2, x3 * y3;
    XFlips(y1, x1, y2, x2, y3, x3);
    assert y1 * x1 == p1 && y2 * x2 == p2 && y3 * x3 == p3;
    NegateBoth(W0 * p1, y1 * y1, g1); NegateBoth(W0 * p2, y2 * y2, g2); NegateBoth(W0 * p3, y3 * y3, g3);
    NegateBoth(W1 * p1, y1 * y1, g0); NegateBoth(W1 * p2, x2 * x2, g3); NegateBoth(W1 * p3, x3 * x3, g2);
    NegateBoth(W2 * p1, x1 * x1, g3); NegateBoth(W2 * p2, y2 * y2, g0); NegateBoth(W2 * p3, x3 * x3, g1);
    NegateBoth(W3 * p1, x1 * x1, g2); NegateBoth(W3 * p2, x2 * x2, g1); NegateBoth(W3 * p3, y3 * y3, g0);
  }

  lemma XWordsAgree(c: Curve, l: Point, m: Point, r: Point)
    requires c.q > 0 && OnCurve(c, l) && OnCurve(c, m) && OnCurve(c, r)
    ensures Cong(Nested(c, l, m, r).0 * Nested(c, m, r, l).1, Nested(c, m, r, l).0 * Nested(c, l, m, r).1, c.q)
  {
    var (x1, y1, x2, y2, x3, y3) := (l.x, l.y, m.x, m.y, r.x, r.y);
    var W0, W1, W2, W3 := x1 * x2 * x3, x1 * y2 * y3, y1 * x2 * y3, y1 * y2 * x3;
    CurveValue(c, l);
    CurveValue(c, m);
    CurveValue(c, r);
    NestedForm(c, l, m, r);
    NestedForm(c, m, r, l);
    Triple(x1, x2, x3); Triple(x1, y2, y3); Triple(y1, x2, y3); Triple(y1, y2, x3);
    CommuteProducts(x1 * y1, x2 * y2, x3 * y3);
    XWordIdentity(l, m, r);
    CrossMultiply(c.d, x1 * y1, x2 * y2, x3 * y3, y1 * y1 - x1 * x1 - 1, y2 * y2 - x2 * x2 - 1, y3 * y3 - x3 * x3 - 1,
                  x1 * x1 + y1 * y1, x2 * x2 + y2 * y2, x3 * x3 + y3 * y3,
                  W0 + W1 + W2 + W3, W0 + W1 - W2 - W3, W0 + W3 - W1 - W2, c.q);
  }

  lemma CommuteProducts(a: int, b: int, c: int)
    ensures b * a == a * b && c * a == a * c
  {
  }

  lemma YWordsAgree(c: Curve, l: Point, m: Point, r: Point)
    requires c.q > 0 && OnCurve(c, l) && OnCurve(c, m) && OnCurve(c, r)
    ensures Cong(Nested(c, l, m, r).2 * Nested(c, m, r, l).3, Nested(c, m, r, l).2 * Nested(c, l, m, r).3, c.q)
  {
    var (x1, y1, x2, y2, x3, y3) := (l.x, l.y, m.x, m.y, r.x, r.y);
    var W0, W1, W2, W3 := y1 * y2 * y3, y1 * x2 * x3, x1 * y2 * x3, x1 * x2 * y3;
    var t1, t2, t3 := -(x1 * x1) - y1 * y1, -(x2 * x2) - y2 * y2, -(x3 * x3) - y3 * y3;
    var e, f, g := c.d * ((x1 * y1) * (x2 * y2)), c.d * ((x2 * y2) * (x3 * y3)), c.d * ((x1 * y1) * (x3 * y3));
    CurveValue(c, l);
    CurveValue(c, m);
    CurveValue(c, r);
    NestedForm(c, l, m, r);
    NestedForm(c, m, r, l);
    Triple(y1, y2, y3); Triple(y1, x2, x3); Triple(x1, y2, x3); Triple(x1, x2, y3);
    CommuteProducts(x1 * y1, x2 * y2, x3 * y3);
    YWordIdentity(l, m, r);
    CrossMultiply(c.d, x1 * y1, x2 * y2, x3 * y3, y1 * y1 - x1 * x1 - 1, y2 * y2 - x2 * x2 - 1, y3 * y3 - x3 * x3 - 1,
                  t1, t2, t3, W0 + W1 + W2 + W3, W0 + W1 - W2 - W3, W0 + W3 - W1 - W2, c.q);
    NegateFactor(g, -t2); NegateFactor(f, -t1); NegateFactor(e, -t3);
  }

  lemma NegateFactor(a: int, t: int)
    ensures a * -t == -(a * t)
  {
  }

  lemma AddCommutes(c: Curve, l: Point, r: Point)
    requires c.q > 2
    ensures Add(c, l, r) == Add(c, r, l)
  {
    assert c.d * l.x * r.x * l.y * r.y == c.d * r.x * l.x * r.y * l.y;
    assert l.x * r.y + r.x * l.y == r.x * l.y + l.x * r.y;
    assert l.y * r.y + l.x * r.x == r.y * l.y + r.x * l.x;
  }

  lemma AddAssociates(c: Curve, l: Point, m: Point, r: Point)
    requires c.Complete() && OnCurve(c, l) && OnCurve(c, m) && OnCurve(c, r)
    ensures Add(c, Add(c, l, m), r) == Add(c, l, Add(c, m, r))
  {
    var s, t := Add(c, Add(c, l, m), r), Add(c, Add(c, m, r), l);
    var (nx, dx, ny, dy) := Nested(c, l, m, r);
    var (nx', dx', ny', dy') := Nested(c, m, r, l);
    NestedSum(c, l, m, r);
    NestedSum(c, m, r, l);
    WordsAgree(c, l, m, r);
    SameFraction(dx, dx', s.x, t.x, nx, nx', c.q);
    SameFraction(dy, dy', s.y, t.y, ny, ny', c.q);
    ReducedUnique(s.x, t.x, c.q);
    ReducedUnique(s.y, t.y, c.q);
    AddCommutes(c, l, Add(c, m, r));
  }

  lemma ReducedUnique(a: int, b: int, q: int)
    requires 0 <= a < q && 0 <= b < q && Cong(a, b, q)
    ensures a == b
  {
    RemainderUnique(a, 0, a, q);
    RemainderUnique(b, 0, b, q);
  }
}

/**
 Arithmetic modulo a prime, on plain integers.

 The signature checker computes with unbounded integers and reduces with `%`
 now and then, so the lemmas here are about congruence of integers, not about
 a separate type of field elements.
 */
module ModularArithmetic {

  import opened Sets

  ghost predicate IsPrime(q: int) {
    q > 1 && forall k :: 1 < k < q ==> q % k != 0
  }

  /** `a` and `b` leave the same remainder. */
  predicate Cong(a: int, b: int, q: int)
    requires q > 0
  {
    a % q == b % q
  }

  function Pow(a: int, n: nat): int {
    if n == 0 then 1 else a * Pow(a, n - 1)
  }

  /** Python's `pow(a, n, q)`. */
  function PowMod(a: int, n: nat, q: int): (r: int)
    requires q > 0
    ensures 0 <= r < q
    ensures Cong(r, Pow(a, n), q)
  {
    Pow(a, n) % q
  }

  // ---------- congruence ----------

  lemma MultipleIsZero(k: int, q: int)
    requires q > 0
    ensures (k * q) % q == 0
  {
    RemainderUnique(k * q, k, 0, q);
  }

  lemma {:induction false} RemainderUnique(a: int, k: int, r: int, q: int)
    requires q > 0 && 0 <= r < q && a == k * q + r
    ensures a / q == k && a % q == r
  {
    var d := a / q - k;
    assert a == (a / q) * q + a % q;
    assert d * q == r - a % q by {
      assert d * q == (a / q) * q - k * q;
    }
    if d > 0 {
      Scale(1, d, q);
    } else if d < 0 {
      Scale(d, -1, q);
    }
  }

  lemma Scale(a: int, b: int, q: int)
    requires a <= b && q >= 0
    ensures a * q <= b * q
  {
    assert b * q - a * q == (b - a) * q;
  }

  /** The two ways to say "congruent": equal remainders, or a difference that is a multiple. */
  lemma CongByMultiple(a: int, b: int, k: int, q: int)
    requires q > 0 && a - b == k * q
    ensures Cong(a, b, q)
  {
    assert b == (b / q) * q + b % q;
    assert a == (k + b / q) * q + b % q;
    RemainderUnique(a, k + b / q, b % q, q);
  }

  lemma CongMultiple(a: int, b: int, q: int) returns (k: int)
    requires q > 0 && Cong(a, b, q)
    ensures a - b == k * q
  {
    k := a / q - b / q;
    assert a == (a / q) * q + a % q;
    assert b == (b / q) * q + b % q;
  }

  lemma CongReduce(a: int, q: int)
    requires q > 0
    ensures Cong(a % q, a, q)
  {
    assert a == (a / q) * q + a % q;
    CongByMultiple(a % q, a, -(a / q), q);
  }

  lemma CongZero(a: int, q: int)
    requires q > 0
    ensures Cong(a, 0, q) <==> a % q == 0
  {
    RemainderUnique(0, 0, 0, q);
  }

  lemma CongAdd(a: int, b: int, c: int, d: int, q: int)
    requires q > 0 && Cong(a, b, q) && Cong(c, d, q)
    ensures Cong(a + c, b + d, q)
    ensures Cong(a - c, b - d, q)
  {
    var k := CongMultiple(a, b, q);
    var l := CongMultiple(c, d, q);
    assert (a + c) - (b + d) == (k + l) * q;
    assert (a - c) - (b - d) == (k - l) * q;
    CongByMultiple(a + c, b + d, k + l, q);
    CongByMultiple(a - c, b - d, k - l, q);
  }

  lemma CongMul(a: int, b: int, c: int, d: int, q: int)
    requires q > 0 && Cong(a, b, q) && Cong(c, d, q)
    ensures Cong(a * c, b * d, q)
  {
    var k := CongMultiple(a, b, q);
    var l := CongMultiple(c, d, q);
    DifferenceOfProducts(a, b, c, d, k, l, q);
    CongByMultiple(a * c, b * d, k * c + b * l, q);
  }

  lemma DifferenceOfProducts(a: int, b: int, c: int, d: int, k: int, l: int, q: int)
    requires a - b == k * q && c - d == l * q
    ensures a * c - b * d == (k * c + b * l) * q
  {
    assert a * c - b * d == (a - b) * c + b * (c - d);
    SwapFactors(k, c, q);
    SwapFactors(b, l, q);
    assert (k * c + b * l) * q == k * (c * q) + b * (l * q);
  }

  lemma {:induction false} CongPow(a: int, b: int, n: nat, q: int)
    requires q > 0 && Cong(a, b, q)
    ensures Cong(Pow(a, n), Pow(b, n), q)
  {
    if n > 0 {
      CongPow(a, b, n - 1, q);
      CongMul(a, b, Pow(a, n - 1), Pow(b, n - 1), q);
    }
  }

  lemma {:induction false} PowAdd(a: int, m: nat, n: nat)
    ensures Pow(a, m + n) == Pow(a, m) * Pow(a, n)
  {
    if m > 0 {
      PowAdd(a, m - 1, n);
      assert a * (Pow(a, m - 1) * Pow(a, n)) == (a * Pow(a, m - 1)) * Pow(a, n);
    }
  }

  lemma {:induction false} PowSquared(r: int, n: nat)
    ensures Pow(r * r, n) == Pow(r, 2 * n) == Pow(r, n) * Pow(r, n)
  {
    PowAdd(r, n, n);
    if n > 0 {
      PowSquared(r, n - 1);
      calc {
        Pow(r * r, n);
        (r * r) * (Pow(r, n - 1) * Pow(r, n - 1));
        (r * Pow(r, n - 1)) * (r * Pow(r, n - 1));
        Pow(r, n) * Pow(r, n);
      }
    }
  }

  // ---------- a prime has no zero divisors ----------

  /** Euclid's algorithm: some combination of `a` and `b` divides both. */
  lemma {:induction false} Bezout(a: nat, b: nat) returns (g: int, u: int, v: int, m: int, n: int)
    requires b > 0
    ensures g > 0 && g == u * a + v * b
    ensures a == m * g && b == n * g
    decreases b
  {
    var k, r := a / b, a % b;
    assert a == k * b + r;
    if r == 0 {
      g, u, v, m, n := b, 0, 1, k, 1;
    } else {
      var g', u', v', m', n' := Bezout(b, r);
      g, u, v, m, n := g', v', u' - v' * k, k * m' + n', m';
      assert v' * r == v' * a - (v' * k) * b;
      assert g == u' * b + v' * r;
      assert a == k * (m' * g) + n' * g == (k * m' + n') * g;
    }
  }

  lemma NoZeroDivisors(a: int, b: int, q: int)
    requires IsPrime(q) && (a * b) % q == 0
    ensures a % q == 0 || b % q == 0
  {
    if a % q != 0 {
      var r := a % q;
      var g, u, v, m, n := Bezout(r, q);
      assert g == 1 by {
        if g > 1 {
          if n <= 0 { Scale(n, 0, g); }
          if m <= 0 { Scale(m, 0, g); }
          if n == 1 { Scale(1, m, g); }
          assert n >= 2;
          Scale(2, n, g);
          RemainderUnique(q, n, 0, g);
        }
      }
      // 1 = u*r + v*q, so b = u*(r*b) + (v*b)*q
      CongReduce(a, q);
      CongMul(r, a, b, b, q);
      CongZero(a * b, q);
      var k := CongMultiple(r * b, 0, q);
      calc {
        b;
        (u * r + v * q) * b;
        u * (r * b) + (v * b) * q;
        (u * k + v * b) * q;
      }
      MultipleIsZero(u * k + v * b, q);
    }
  }

  /** A factor that is not zero can be cancelled. */
  lemma Cancel(a: int, b: int, c: int, q: int)
    requires IsPrime(q) && c % q != 0 && Cong(a * c, b * c, q)
    ensures Cong(a, b, q)
  {
    var k := CongMultiple(a * c, b * c, q);
    assert (a - b) * c == k * q;
    MultipleIsZero(k, q);
    NoZeroDivisors(a - b, c, q);
    CongZero(a - b, q);
    var l := CongMultiple(a - b, 0, q);
    CongByMultiple(a, b, l, q);
  }

  /** Square roots are unique up to sign. */
  lemma RootsUpToSign(a: int, b: int, q: int)
    requires IsPrime(q) && Cong(a * a, b * b, q)
    ensures Cong(a, b, q) || Cong(a, -b, q)
  {
    var k := CongMultiple(a * a, b * b, q);
    assert (a - b) * (a + b) == k * q;
    MultipleIsZero(k, q);
    NoZeroDivisors(a - b, a + b, q);
    if (a - b) % q == 0 {
      CongZero(a - b, q);
      var l := CongMultiple(a - b, 0, q);
      CongByMultiple(a, b, l, q);
    } else {
      CongZero(a + b, q);
      var l := CongMultiple(a + b, 0, q);
      CongByMultiple(a, -b, l, q);
    }
  }

  // ---------- Fermat's little theorem ----------

  ghost function Product(s: set<int>): int {
    if s == {} then 1 else var x := AnyOf(s); x * Product(s - {x})
  }

  lemma SwapFactors(x: int, y: int, p: int)
    ensures x * (y * p) == y * (x * p)
  {
  }

  lemma {:induction false} ProductRemove(s: set<int>, x: int)
    requires x in s
    ensures Product(s) == x * Product(s - {x})
  {
    var y := AnyOf(s);
    if y != x {
      ProductRemove(s - {y}, x);
      ProductRemove(s - {x}, y);
      assert s - {y} - {x} == s - {x} - {y};
      SwapFactors(x, y, Product(s - {x} - {y}));
    }
  }

  predicate IsResidue(x: int, q: int) {
    1 <= x < q
  }

  ghost function Residues(q: int): set<int> {
    set x {:trigger IsResidue(x, q)} | 1 <= x < q && IsResidue(x, q)
  }

  function Times(a: int, x: int, q: int): int
    requires q > 0
  {
    (a * x) % q
  }

  ghost function Scaled(a: int, s: set<int>, q: int): set<int>
    requires q > 0
  {
    set x | x in s :: Times(a, x, q)
  }

  lemma {:induction false} ResiduesCount(q: int)
    requires q >= 1
    ensures |Residues(q)| == q - 1
  {
    if q == 1 {
      assert Residues(1) == {};
    } else {
      ResiduesCount(q - 1);
      assert Residues(q) == Residues(q - 1) + {q - 1};
    }
  }

  lemma {:induction false} ProductNonZero(s: set<int>, q: int)
    requires IsPrime(q) && s <= Residues(q)
    ensures Product(s) % q != 0
  {
    if s != {} {
      var x := AnyOf(s);
      ProductRemove(s, x);
      ProductNonZero(s - {x}, q);
      if Product(s) % q == 0 {
        NoZeroDivisors(x, Product(s - {x}), q);
        RemainderUnique(x, 0, x, q);
      }
    } else {
      RemainderUnique(1, 0, 1, q);
    }
  }

  lemma ScaledInjective(a: int, x: int, y: int, q: int)
    requires IsPrime(q) && a % q != 0 && x in Residues(q) && y in Residues(q)
    requires Times(a, x, q) == Times(a, y, q)
    ensures x == y
  {
    assert x * a == a * x && y * a == a * y;
    Cancel(x, y, a, q);
    RemainderUnique(x, 0, x, q);
    RemainderUnique(y, 0, y, q);
  }

  lemma Regroup(a: int, x: int, n: int, p: int)
    ensures (a * x) * (n * p) == (a * n) * (x * p)
  {
  }

  lemma {:induction false} ScaledProduct(a: int, s: set<int>, q: int)
    requires IsPrime(q) && a % q != 0 && s <= Residues(q)
    ensures |Scaled(a, s, q)| == |s|
    ensures Cong(Product(Scaled(a, s, q)), Pow(a, |s|) * Product(s), q)
  {
    if s == {} {
      assert Scaled(a, s, q) == {};
    } else {
      var x := AnyOf(s);
      var t, z := s - {x}, Times(a, x, q);
      var image := Scaled(a, t, q);
      ScaledSplit(a, x, s, q);
      assert image == Scaled(a, s, q) - {z};
      assert |Scaled(a, s, q)| == |image| + 1 && |s| == |t| + 1;
      ScaledProduct(a, t, q);
      ProductRemove(Scaled(a, s, q), z);
      ProductRemove(s, x);
      ScaledStep(a, x, Product(image), Pow(a, |t|), Product(t), q);
    }
  }

  lemma ScaledSplit(a: int, x: int, s: set<int>, q: int)
    requires IsPrime(q) && a % q != 0 && s <= Residues(q) && x in s
    ensures Times(a, x, q) in Scaled(a, s, q)
    ensures Scaled(a, s, q) - {Times(a, x, q)} == Scaled(a, s - {x}, q)
  {
    forall y | y in s && y != x ensures Times(a, y, q) != Times(a, x, q) {
      if Times(a, y, q) == Times(a, x, q) {
        ScaledInjective(a, x, y, q);
      }
    }
    SplitImage(a, x, s, q);
  }

  lemma SplitImage(a: int, x: int, s: set<int>, q: int)
    requires q > 0 && x in s
    requires forall y | y in s && y != x :: Times(a, y, q) != Times(a, x, q)
    ensures Scaled(a, s, q) - {Times(a, x, q)} == Scaled(a, s - {x}, q)
  {
  }

  lemma ScaledStep(a: int, x: int, m: int, n: int, p: int, q: int)
    requires q > 0 && Cong(m, n * p, q)
    ensures Cong(Times(a, x, q) * m, (a * n) * (x * p), q)
  {
    CongReduce(a * x, q);
    CongMul((a * x) % q, a * x, m, n * p, q);
    Regroup(a, x, n, p);
  }

  lemma Fermat(a: int, q: int)
    requires IsPrime(q) && a % q != 0
    ensures Cong(Pow(a, q - 1), 1, q)
  {
    var s := Residues(q);
    ResiduesCount(q);
    ScaledProduct(a, s, q);
    var t := Scaled(a, s, q);
    forall z | z in t ensures z in s {
      var x :| x in s && Times(a, x, q) == z;
      if z == 0 {
        NoZeroDivisors(a, x, q);
        RemainderUnique(x, 0, x, q);
      }
    }
    SubsetOfSameSize(t, s);
    var p := Product(s);
    ProductNonZero(s, q);
    assert 1 * p == p;
    assert Cong(1 * p, Pow(a, q - 1) * p, q);
    Cancel(Pow(a, q - 1), 1, p, q);
  }

  lemma SubsetOfSameSize(t: set<int>, s: set<int>)
    requires t <= s && |t| == |s|
    ensures t == s
  {
    assert |s - t| == 0 by {
      assert s == t + (s - t);
    }
  }

  /** The modular inverse the code computes: `pow(a, q - 2, q)`. */
  lemma FermatInverse(a: int, q: int)
    requires IsPrime(q) && a % q != 0
    ensures Cong(a * PowMod(a, q - 2, q), 1, q)
  {
    Fermat(a, q);
    CongMul(a, a, PowMod(a, q - 2, q), Pow(a, q - 2), q);
    assert a * Pow(a, q - 2) == Pow(a, q - 1);
  }
}

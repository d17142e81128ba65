/**
 The point arithmetic behind `verify_ed25519` in benchmarks/v3/trust.py, over
 any prime congruent to 5 modulo 8. RFC 8032 section 5.1 is the instance with
 q = 2^255 - 19.
 */
module EdwardsPoints {
  import opened LittleEndian
  import opened ModularArithmetic

  const SIGN_BIT: int := 0x8000_0000_0000_0000_0000_0000_0000_0000_0000_0000_0000_0000_0000_0000_0000_0000

  const ENCODED_LENGTH: nat := 32

  /** The checker's `_Q`, `_D` and `_I`. */
  datatype Curve = Curve(q: int, d: int, i: int) {

    ghost predicate Valid() {
      && IsPrime(q) && q % 8 == 5 && q < SIGN_BIT
      && (i * i + 1) % q == 0
      && (d + 1) % q != 0
    }

    /** `d` is not a square: the condition under which addition has no exceptional cases. */
    ghost predicate Complete() {
      && IsPrime(q) && q % 8 == 5
      && (i * i + 1) % q == 0
      && forall r: int :: !Cong(r * r, d, q)
    }
  }

  datatype Point = Point(x: int, y: int)

  const IDENTITY: Point := Point(0, 1)

  predicate Reduced(c: Curve, p: Point) {
    0 <= p.x < c.q && 0 <= p.y < c.q
  }

  function CurveTerm(c: Curve, p: Point): int {
    -p.x * p.x + p.y * p.y - 1 - c.d * p.x * p.x * p.y * p.y
  }

  predicate OnCurve(c: Curve, p: Point)
    requires c.q > 0
  {
    CurveTerm(c, p) % c.q == 0
  }

  // ---------- decoding ----------

  /** `pow(xx, (q + 3) // 8, q)`, multiplied by `i` when its square misses `xx`. */
  function CandidateRoot(c: Curve, xx: int): int
    requires c.q > 0
  {
    var x := PowMod(xx, (c.q + 3) / 8, c.q);
    if (x * x - xx) % c.q != 0 then (x * c.i) % c.q else x
  }

  function XRecover(c: Curve, y: int): int
    requires c.q > 2
  {
    var xx := (y * y - 1) * PowMod(c.d * y * y + 1, c.q - 2, c.q);
    var x := CandidateRoot(c, xx);
    if x % 2 == 1 then c.q - x else x
  }

  datatype Rejection = InvalidLength | NonCanonicalY | NegativeZero | NotOnCurve | IdentityPoint
  datatype Decoded = Accepted(point: Point) | Rejected(reason: Rejection)

  /** The root whose parity is the sign bit. */
  function WithParity(q: int, x: int, sign: int): int {
    if x % 2 != sign then q - x else x
  }

  function DecodePoint(c: Curve, encoded: seq<Byte>): Decoded
    requires c.q > 2
  {
    if |encoded| != 32 then Rejected(InvalidLength) else
    var value := FromBytes(encoded);
    var y := value % SIGN_BIT;
    if y >= c.q then Rejected(NonCanonicalY) else
    var x0 := XRecover(c, y);
    var sign := value / SIGN_BIT;
    if x0 == 0 && sign != 0 then Rejected(NegativeZero) else
    var x := WithParity(c.q, x0, sign);
    if !OnCurve(c, Point(x, y)) then Rejected(NotOnCurve) else
    if Point(x, y) == IDENTITY then Rejected(IdentityPoint) else
    Accepted(Point(x, y))
  }

  /** RFC 8032 section 5.1.2: the y coordinate, with the parity of x in the top bit. */
  function EncodePoint(p: Point): seq<Byte>
    requires 0 <= p.y < SIGN_BIT
  {
    ToBytes(p.y + (p.x % 2) * SIGN_BIT, ENCODED_LENGTH)
  }

  lemma Capacity32()
    ensures Capacity(ENCODED_LENGTH) == 2 * SIGN_BIT
  {
    assert Capacity(8) == 0x1_0000_0000_0000_0000;
    assert Capacity(16) == Capacity(8) * 0x1_0000_0000_0000_0000;
    assert Capacity(24) == Capacity(16) * 0x1_0000_0000_0000_0000;
    assert Capacity(32) == Capacity(24) * 0x1_0000_0000_0000_0000;
  }

  /** With q = 5 modulo 8, the candidate power squares to `xx` or to its negative. */
  lemma PowerIsRootUpToSign(q: int, xx: int, r: int)
    requires IsPrime(q) && q % 8 == 5 && Cong(r * r, xx, q)
    ensures var x := PowMod(xx, (q + 3) / 8, q); Cong(x * x, xx, q) || Cong(x * x, -xx, q)
  {
    var k: nat := (q + 3) / 8;
    var x, t := PowMod(xx, k, q), Pow(xx, (q - 1) / 4);
    var p := Pow(xx, k);
    CongMul(x, p, x, p, q);
    PowAdd(xx, k, k);
    assert p * p == xx * t;
    if r % q == 0 {
      CongZero(r, q);
      CongMul(r, 0, r, 0, q);
      CongMul(xx, 0, t, t, q);
    } else {
      // t^2 = xx^((q-1)/2) = r^(q-1) = 1
      var h: nat := (q - 1) / 4;
      PowAdd(xx, h, h);
      CongPow(r * r, xx, 2 * h, q);
      PowSquared(r, 2 * h);
      Fermat(r, q);
      assert Cong(t * t, 1 * 1, q);
      RootsUpToSign(t, 1, q);
      CongMul(xx, xx, t, if Cong(t, 1, q) then 1 else -1, q);
    }
  }

  lemma CandidateRootIsRoot(c: Curve, xx: int, r: int)
    requires IsPrime(c.q) && c.q % 8 == 5 && (c.i * c.i + 1) % c.q == 0 && Cong(r * r, xx, c.q)
    ensures var x := CandidateRoot(c, xx); 0 <= x < c.q && Cong(x * x, xx, c.q)
  {
    var q := c.q;
    var x := PowMod(xx, (q + 3) / 8, q);
    PowerIsRootUpToSign(q, xx, r);
    if (x * x - xx) % q == 0 {
      CongZero(x * x - xx, q);
      CongAdd(x * x - xx, 0, xx, xx, q);
    } else {
      if Cong(x * x, xx, q) {
        CongAdd(x * x, xx, xx, xx, q);
        CongZero(x * x - xx, q);
      }
      TurnRoot(x, xx, c.i, q);
    }
  }

  /** Multiplying by a root of -1 turns a root of `-xx` into a root of `xx`. */
  lemma TurnRoot(x: int, xx: int, i: int, q: int)
    requires q > 1 && Cong(x * x, -xx, q) && (i * i + 1) % q == 0
    ensures var z := (x * i) % q; Cong(z * z, xx, q)
  {
    var z := (x * i) % q;
    CongReduce(x * i, q);
    CongMul(z, x * i, z, x * i, q);
    MinusOne(i * i, q);
    CongMul(x * x, -xx, i * i, -1, q);
    RegroupSquares(x, i);
  }

  lemma MinusOne(a: int, q: int)
    requires q > 0 && (a + 1) % q == 0
    ensures Cong(a, -1, q)
  {
    CongZero(a + 1, q);
    CongAdd(a + 1, 0, 1, 1, q);
  }

  lemma RegroupSquares(x: int, i: int)
    ensures (x * i) * (x * i) == (x * x) * (i * i)
  {
  }

  /** Taking `q - x` negates modulo `q` and flips the parity. */
  lemma Negate(x: int, q: int)
    requires q > 0 && q % 2 == 1
    ensures Cong(q - x, -x, q)
    ensures (q - x) % 2 != x % 2
  {
    CongByMultiple(q - x, -x, 1, q);
  }

  /** A curve point never makes the divisor of `_xrecover` vanish. */
  lemma DivisorNonZero(c: Curve, p: Point)
    requires c.Valid() && OnCurve(c, p)
    ensures (c.d * p.y * p.y + 1) % c.q != 0
  {
    CurveTermSplit(c, p);
    DivisorNonZeroCore(p.x * p.x, p.y * p.y, c.d, c.q);
  }

  lemma DivisorNonZeroCore(xx: int, yy: int, d: int, q: int)
    requires q > 0 && ((yy - 1) - xx * (d * yy + 1)) % q == 0 && (d + 1) % q != 0
    ensures (d * yy + 1) % q != 0
  {
    DifferenceIsConstant(d, yy);
    DivisorFactor(xx, yy - 1, d * yy + 1, d, q);
  }

  lemma DifferenceIsConstant(d: int, yy: int)
    ensures (d * yy + 1) - d * (yy - 1) == d + 1
  {
  }

  lemma DivisorFactor(xx: int, v: int, w: int, d: int, q: int)
    requires q > 0 && (v - xx * w) % q == 0 && w - d * v == d + 1 && (d + 1) % q != 0
    ensures w % q != 0
  {
    CongZero(w, q);
    CongZero(v - xx * w, q);
    CongZero(d + 1, q);
    if w % q == 0 {
      CongMul(xx, xx, w, 0, q);
      CongAdd(v - xx * w, 0, xx * w, 0, q);
      CongMul(d, d, v, 0, q);
      CongAdd(w, 0, d * v, 0, q);
    }
  }

  lemma CurveTermSplit(c: Curve, p: Point)
    ensures c.d * p.y * p.y == c.d * (p.y * p.y)
    ensures CurveTerm(c, p) == (p.y * p.y - 1) - (p.x * p.x) * (c.d * (p.y * p.y) + 1)
  {
    assert (p.x * p.x) * (c.d * (p.y * p.y) + 1) == c.d * p.x * p.x * p.y * p.y + p.x * p.x;
  }

  /** `_xrecover` returns the even square root whenever the curve has a point with this y. */
  lemma XRecoverEvenRoot(c: Curve, p: Point)
    requires c.Valid() && OnCurve(c, p)
    ensures var x := XRecover(c, p.y);
            0 <= x < c.q && x % 2 == 0 && (Cong(x, p.x, c.q) || Cong(x, -p.x, c.q))
  {
    var q, w, v, r := c.q, c.d * p.y * p.y + 1, p.y * p.y - 1, p.x;
    var inv := PowMod(w, q - 2, q);
    var xx := v * inv;
    DivisorNonZero(c, p);
    FermatInverse(w, q);
    // r^2 = r^2 * (w * inv) = v * inv
    CurveTermSplit(c, p);
    CongZero(CurveTerm(c, p), q);
    CongAdd(v - (r * r) * w, 0, (r * r) * w, (r * r) * w, q);
    CongMul(v, (r * r) * w, inv, inv, q);
    CongMul(r * r, r * r, w * inv, 1, q);
    assert ((r * r) * w) * inv == (r * r) * (w * inv);
    CandidateRootIsRoot(c, xx, r);
    var x := CandidateRoot(c, xx);
    RootsUpToSign(x, r, q);
    if x % 2 == 1 {
      Negate(x, q);
      CongAdd(0, 0, x, if Cong(x, r, q) then r else -r, q);
    }
  }

  /** Two reduced numbers that are equal up to sign and have the same parity are equal. */
  lemma SameParity(x: int, r: int, q: int)
    requires q > 0 && q % 2 == 1 && 0 <= x < q && 0 <= r < q && x % 2 == r % 2
    requires Cong(x, r, q) || Cong(x, -r, q)
    ensures x == r
  {
    RemainderUnique(x, 0, x, q);
    RemainderUnique(r, 0, r, q);
    if Cong(x, -r, q) {
      if r > 0 { RemainderUnique(-r, -1, q - r, q); }
    }
  }

  lemma EncodedValue(p: Point)
    requires 0 <= p.y < SIGN_BIT
    ensures |EncodePoint(p)| == 32
    ensures FromBytes(EncodePoint(p)) % SIGN_BIT == p.y
    ensures FromBytes(EncodePoint(p)) / SIGN_BIT == p.x % 2
  {
    Capacity32();
    RemainderUnique(p.y + (p.x % 2) * SIGN_BIT, p.x % 2, p.y, SIGN_BIT);
    ToBytesInverse(p.y + (p.x % 2) * SIGN_BIT, ENCODED_LENGTH);
  }

  /** Picking the recovered root by the parity of x gives x back. */
  lemma ParityRestores(x0: int, x: int, q: int)
    requires q > 0 && q % 2 == 1 && 0 <= x0 < q && 0 <= x < q && x0 % 2 == 0
    requires Cong(x0, x, q) || Cong(x0, -x, q)
    ensures WithParity(q, x0, x % 2) == x
    ensures x0 == 0 ==> x == 0
  {
    if x0 == 0 {
      RemainderUnique(0, 0, 0, q);
      RemainderUnique(x, 0, x, q);
      CongAdd(0, 0, 0, if Cong(x0, x, q) then x else -x, q);
    }
    if x % 2 == 0 {
      SameParity(x0, x, q);
    } else if x0 != 0 {
      Negate(x0, q);
      CongAdd(0, 0, x0, if Cong(x0, x, q) then x else -x, q);
      SameParity(q - x0, x, q);
    }
  }

  lemma DecodeAcceptsEncoding(c: Curve, p: Point)
    requires c.Valid() && Reduced(c, p) && OnCurve(c, p) && p != IDENTITY
    ensures DecodePoint(c, EncodePoint(p)) == Accepted(p)
  {
    EncodedValue(p);
    XRecoverEvenRoot(c, p);
    ParityRestores(XRecover(c, p.y), p.x, c.q);
  }

  lemma SplitSign(value: nat)
    requires value < 2 * SIGN_BIT
    ensures 0 <= value / SIGN_BIT <= 1
    ensures value == value % SIGN_BIT + (value / SIGN_BIT) * SIGN_BIT
  {
  }

  lemma ParityPicked(q: int, x: int, sign: int)
    requires q > 0 && q % 2 == 1 && 0 <= x < q && x % 2 == 0 && 0 <= sign <= 1 && (x == 0 ==> sign == 0)
    ensures var z := WithParity(q, x, sign); 0 <= z < q && z % 2 == sign
  {
    Negate(x, q);
  }

  lemma AcceptedPoint(c: Curve, encoded: seq<Byte>, p: Point)
    requires c.Valid() && DecodePoint(c, encoded) == Accepted(p) && FromBytes(encoded) < 2 * SIGN_BIT
    ensures Reduced(c, p) && OnCurve(c, p) && p != IDENTITY
    ensures FromBytes(encoded) == p.y + (p.x % 2) * SIGN_BIT
  {
    var value := FromBytes(encoded);
    SplitSign(value);
    XRecoverEvenRoot(c, p);
    ParityPicked(c.q, XRecover(c, p.y), value / SIGN_BIT);
  }

  lemma AcceptedReencodes(c: Curve, encoded: seq<Byte>)
    requires c.Valid() && DecodePoint(c, encoded).Accepted?
    ensures var p := DecodePoint(c, encoded).point;
            Reduced(c, p) && OnCurve(c, p) && p != IDENTITY && EncodePoint(p) == encoded
  {
    Capacity32();
    FromBytesInverse(encoded);
    AcceptedPoint(c, encoded, DecodePoint(c, encoded).point);
  }

  /**
   Decoding and encoding are mutually inverse: a string is accepted as `p` exactly
   when it is the encoding of `p` and `p` is a reduced, non-identity curve point.
   */
  lemma DecodeIsInverseOfEncode(c: Curve, encoded: seq<Byte>, p: Point)
    requires c.Valid()
    ensures DecodePoint(c, encoded) == Accepted(p)
       <==> Reduced(c, p) && OnCurve(c, p) && p != IDENTITY && encoded == EncodePoint(p)
  {
    if DecodePoint(c, encoded) == Accepted(p) {
      AcceptedReencodes(c, encoded);
    } else if Reduced(c, p) && OnCurve(c, p) && p != IDENTITY && encoded == EncodePoint(p) {
      DecodeAcceptsEncoding(c, p);
    }
  }

  /** The one point of the curve whose encoding is refused. */
  lemma IdentityIsRefused(c: Curve)
    requires c.Valid()
    ensures DecodePoint(c, EncodePoint(IDENTITY)).Rejected?
  {
    var encoded := EncodePoint(IDENTITY);
    if DecodePoint(c, encoded).Accepted? {
      var p := DecodePoint(c, encoded).point;
      EncodedValue(IDENTITY);
      AcceptedReencodes(c, encoded);
      EncodedValue(p);
      AtTheTop(c, p);
    }
  }

  lemma AtTheTop(c: Curve, p: Point)
    requires c.Valid() && OnCurve(c, p) && Reduced(c, p) && p.y == 1
    ensures p == IDENTITY
  {
    CurveTermSplit(c, p);
    assert CurveTerm(c, p) == -((p.x * p.x) * (c.d + 1));
    NegatedZero((p.x * p.x) * (c.d + 1), c.q);
    VanishingX(p.x, p.x * p.x, c.d + 1, c.q);
  }

  lemma NegatedZero(a: int, q: int)
    requires q > 0 && (-a) % q == 0
    ensures a % q == 0
  {
    CongZero(-a, q);
    CongMul(-a, 0, -1, -1, q);
    assert -a * -1 == a;
    CongZero(a, q);
  }

  lemma VanishingX(x: int, square: int, f: int, q: int)
    requires IsPrime(q) && 0 <= x < q && square == x * x && f % q != 0 && (square * f) % q == 0
    ensures x == 0
  {
    NoZeroDivisors(square, f, q);
    NoZeroDivisors(x, x, q);
  }
}

/** Scalar multiplication and signature verification of benchmarks/v3/trust.py, with any hash function for SHA-512. */
module Ed25519 {
  import opened LittleEndian
  import opened ModularArithmetic
  import opened EdwardsPoints
  import opened EdwardsGroup
  import opened EdwardsAssociativity

  /** The sum of `n` copies of `p`. */
  function NFold(c: Curve, p: Point, n: nat): Point
    requires c.q > 2
  {
    if n == 0 then IDENTITY else Add(c, NFold(c, p, n - 1), p)
  }

  // ---------- identity and inverse ----------

  lemma {:induction false} PowOne(n: nat)
    ensures Pow(1, n) == 1
  {
    if n > 0 { PowOne(n - 1); }
  }

  lemma IdentityOnCurve(c: Curve)
    requires c.q > 2
    ensures Element(c, IDENTITY)
  {
    RemainderUnique(0, 0, 0, c.q);
  }

  lemma AddIdentity(c: Curve, p: Point)
    requires c.q > 2 && Reduced(c, p)
    ensures Add(c, p, IDENTITY) == p == Add(c, IDENTITY, p)
  {
    PowOne(c.q - 2);
    RemainderUnique(1, 0, 1, c.q);
    RemainderUnique(p.x, 0, p.x, c.q);
    RemainderUnique(p.y, 0, p.y, c.q);
    AddCommutes(c, p, IDENTITY);
  }

  function Negation(c: Curve, p: Point): Point
    requires c.q > 0
  {
    Point((c.q - p.x) % c.q, p.y)
  }

  /** The negation is on the curve and undoes the point. */
  lemma AddInverse(c: Curve, p: Point)
    requires c.Complete() && OnCurve(c, p)
    ensures OnCurve(c, Negation(c, p)) && Add(c, p, Negation(c, p)) == IDENTITY
  {
    var q, n := c.q, Negation(c, p);
    CongReduce(q - p.x, q);
    CongByMultiple(q - p.x, -p.x, 1, q);
    NegationOnCurve(c, p, n);
    var s, e := Add(c, p, n), Cross(c, p, n);
    AddQuotients(c, p, n);
    DenominatorsNonZero(c, p, n);
    NegationSums(c, p, n);
    Cancel0(1 + e, s.x, q);
    CongMul(1 - e, 1 - e, 1, 1, q);
    CongComm(1 - e, s.y, 1, q);
    Cancel(s.y, 1, 1 - e, q);
    RemainderUnique(1, 0, 1, q);
    ReducedUnique(s.y, 1, q);
  }

  lemma CongComm(a: int, b: int, d: int, q: int)
    requires q > 0 && Cong(a * b, a, q) && d == 1
    ensures Cong(b * a, d * a, q)
  {
  }

  lemma Cancel0(a: int, x: int, q: int)
    requires IsPrime(q) && a % q != 0 && 0 <= x < q && Cong(a * x, 0, q)
    ensures x == 0
  {
    CongZero(a * x, q);
    NoZeroDivisors(a, x, q);
    RemainderUnique(x, 0, x, q);
  }

  lemma NegationOnCurve(c: Curve, p: Point, n: Point)
    requires c.q > 0 && OnCurve(c, p) && n.y == p.y && Cong(n.x, -p.x, c.q)
    ensures OnCurve(c, n) && Cong(n.x * n.x, p.x * p.x, c.q)
  {
    var q, Y := c.q, p.y * p.y;
    CongMul(n.x, -p.x, n.x, -p.x, q);
    assert (-p.x) * (-p.x) == p.x * p.x;
    CurveTermForm(c, p);
    CurveTermForm(c, n);
    CongMul(n.x * n.x, p.x * p.x, Y, Y, q);
    CongMul(c.d, c.d, (n.x * n.x) * Y, (p.x * p.x) * Y, q);
    CongAdd(Y - 1, Y - 1, n.x * n.x, p.x * p.x, q);
    CongAdd(Y - 1 - n.x * n.x, Y - 1 - p.x * p.x, c.d * ((n.x * n.x) * Y), c.d * ((p.x * p.x) * Y), q);
    CongZero(CurveTerm(c, p), q);
    CongZero(CurveTerm(c, n), q);
  }

  lemma NegationSums(c: Curve, p: Point, n: Point)
    requires c.q > 0 && OnCurve(c, p) && n.y == p.y && Cong(n.x, -p.x, c.q)
    ensures Cong(p.x * n.y + n.x * p.y, 0, c.q)
    ensures Cong(p.y * n.y + p.x * n.x, 1 - Cross(c, p, n), c.q)
  {
    CurveEquation(c, p);
    NegationSumsCore(c.d, p.x, p.y, n.x, c.q);
  }

  lemma NegationSumsCore(d: int, x: int, y: int, n: int, q: int)
    requires q > 0 && Cong(n, -x, q) && Cong(y * y - x * x, 1 + d * ((x * x) * (y * y)), q)
    ensures Cong(x * y + n * y, 0, q)
    ensures Cong(y * y + x * n, 1 - d * ((x * y) * (n * y)), q)
  {
    var Y, m := y * y, -(x * x);
    CongMul(n, -x, y, y, q);
    CongAdd(x * y, x * y, n * y, -x * y, q);
    assert -x * y == -(x * y) && x * -x == m;
    CongMul(x, x, n, -x, q);
    CongAdd(Y, Y, x * n, m, q);
    CongTriple(d, x * n, m, Y, q);
    CongAdd(1, 1, (d * (x * n)) * Y, (d * m) * Y, q);
    MixedSquares(d, x, y, n);
  }

  lemma MixedSquares(d: int, x: int, y: int, n: int)
    ensures d * ((x * y) * (n * y)) == (d * (x * n)) * (y * y)
    ensures (d * -(x * x)) * (y * y) == -(d * ((x * x) * (y * y)))
  {
  }

  // ---------- multiples ----------

  lemma {:induction false} NFoldOnCurve(c: Curve, p: Point, n: nat)
    requires c.Complete() && OnCurve(c, p)
    ensures Element(c, NFold(c, p, n))
  {
    if n == 0 {
      IdentityOnCurve(c);
    } else {
      NFoldOnCurve(c, p, n - 1);
      AddClosed(c, NFold(c, p, n - 1), p);
    }
  }

  lemma {:induction false} NFoldAdd(c: Curve, p: Point, m: nat, n: nat)
    requires c.Complete() && OnCurve(c, p)
    ensures NFold(c, p, m + n) == Add(c, NFold(c, p, m), NFold(c, p, n))
  {
    NFoldOnCurve(c, p, m);
    if n == 0 {
      AddIdentity(c, NFold(c, p, m));
    } else {
      NFoldAdd(c, p, m, n - 1);
      NFoldOnCurve(c, p, n - 1);
      AddAssociates(c, NFold(c, p, m), NFold(c, p, n - 1), p);
    }
  }

  lemma {:induction false} NFoldMul(c: Curve, p: Point, m: nat, n: nat)
    requires c.Complete() && OnCurve(c, p)
    ensures NFold(c, NFold(c, p, m), n) == NFold(c, p, m * n)
  {
    if n > 0 {
      NFoldMul(c, p, m, n - 1);
      OneLess(m, n);
      NFoldAdd(c, p, m * (n - 1), m);
    }
  }

  lemma OneLess(m: nat, n: nat)
    requires n > 0
    ensures m * n == m * (n - 1) + m && m * (n - 1) >= 0
  {
  }

  /** Doubling the point halves the count. */
  lemma {:induction false} NFoldDouble(c: Curve, p: Point, n: nat)
    requires c.Complete() && OnCurve(c, p)
    ensures NFold(c, Add(c, p, p), n) == NFold(c, p, 2 * n)
  {
    if n > 0 {
      NFoldDouble(c, p, n - 1);
      NFoldOnCurve(c, p, 2 * n - 2);
      AddAssociates(c, NFold(c, p, 2 * n - 2), p, p);
      assert NFold(c, p, 2 * n - 1) == Add(c, NFold(c, p, 2 * n - 2), p);
    }
  }

  /** One turn of the loop for an odd scalar: the lowest copy moves into the result. */
  lemma TakeOne(c: Curve, result: Point, p: Point, n: nat)
    requires c.Complete() && OnCurve(c, p) && OnCurve(c, result) && n > 0
    ensures Add(c, Add(c, result, p), NFold(c, p, n - 1)) == Add(c, result, NFold(c, p, n))
  {
    NFoldOnCurve(c, p, n - 1);
    AddAssociates(c, result, p, NFold(c, p, n - 1));
    AddCommutes(c, p, NFold(c, p, n - 1));
  }

  /** The double-and-add loop. */
  method ScalarMult(c: Curve, point: Point, n: nat) returns (result: Point)
    requires c.Complete() && OnCurve(c, point)
    ensures result == NFold(c, point, n)
  {
    result := IDENTITY;
    var addend, scalar := point, n;
    IdentityOnCurve(c);
    NFoldOnCurve(c, point, n);
    AddIdentity(c, NFold(c, point, n));
    while scalar != 0
      invariant scalar >= 0 && Element(c, result) && OnCurve(c, addend)
      invariant Add(c, result, NFold(c, addend, scalar)) == NFold(c, point, n)
      decreases scalar
    {
      NFoldDouble(c, addend, scalar / 2);
      if scalar % 2 == 1 {
        TakeOne(c, result, addend, scalar);
        AddClosed(c, result, addend);
        result := Add(c, result, addend);
      }
      AddClosed(c, addend, addend);
      addend := Add(c, addend, addend);
      scalar := scalar / 2;
    }
    AddIdentity(c, result);
  }

  // ---------- verification ----------

  /** `_L` and `_B`: the base point and the order the checker expects it to have. */
  datatype Group = Group(curve: Curve, base: Point, order: nat) {
    ghost predicate Valid() {
      && curve.Valid() && curve.Complete()
      && Element(curve, base) && 0 < order < 2 * SIGN_BIT
      && NFold(curve, base, order) == IDENTITY
    }
  }

  datatype Verdict =
    | Verified
    | BadLength
    | NonCanonicalScalar
    | BadPoint(reason: Rejection)
    | KeyOutsideSubgroup
    | PointOutsideSubgroup
    | EquationFails

  type Hash = seq<Byte> -> seq<Byte>

  function Challenge(g: Group, hash: Hash, encodedR: seq<Byte>, publicKey: seq<Byte>, message: seq<Byte>): nat
    requires g.order > 0
  {
    FromBytes(hash(encodedR + publicKey + message)) % g.order
  }

  /** What the checker decides, with n-fold sums in place of the loop. */
  function Decide(g: Group, hash: Hash, publicKey: seq<Byte>, message: seq<Byte>, signature: seq<Byte>): Verdict
    requires g.curve.q > 2
  {
    var c := g.curve;
    if |publicKey| != 32 || |signature| != 64 then BadLength else
    var s := FromBytes(signature[32..]);
    if s >= g.order then NonCanonicalScalar else
    match DecodePoint(c, publicKey)
    case Rejected(why) => BadPoint(why)
    case Accepted(a) =>
      match DecodePoint(c, signature[..32])
      case Rejected(why) => BadPoint(why)
      case Accepted(r) =>
        if NFold(c, a, g.order) != IDENTITY then KeyOutsideSubgroup
        else if NFold(c, r, g.order) != IDENTITY then PointOutsideSubgroup
        else if NFold(c, g.base, s) != Add(c, r, NFold(c, a, Challenge(g, hash, signature[..32], publicKey, message)))
        then EquationFails
        else Verified
  }

  method VerifySignature(g: Group, hash: Hash, publicKey: seq<Byte>, message: seq<Byte>, signature: seq<Byte>)
    returns (verdict: Verdict)
    requires g.Valid()
    ensures verdict == Decide(g, hash, publicKey, message, signature)
    ensures verdict.Verified? <==>
              && |publicKey| == 32 && |signature| == 64 && FromBytes(signature[32..]) < g.order
              && DecodePoint(g.curve, publicKey).Accepted? && DecodePoint(g.curve, signature[..32]).Accepted?
              && var a, r := DecodePoint(g.curve, publicKey).point, DecodePoint(g.curve, signature[..32]).point;
                 var challenge := FromBytes(hash(signature[..32] + publicKey + message)) % g.order;
                 && NFold(g.curve, a, g.order) == IDENTITY && NFold(g.curve, r, g.order) == IDENTITY
                 && NFold(g.curve, g.base, FromBytes(signature[32..])) == Add(g.curve, r, NFold(g.curve, a, challenge))
  {
    var c := g.curve;
    if |publicKey| != 32 || |signature| != 64 {
      return BadLength;
    }
    var encodedR, encodedS := signature[..32], signature[32..];
    var scalarS := FromBytes(encodedS);
    if scalarS >= g.order {
      return NonCanonicalScalar;
    }
    var key := DecodePoint(c, publicKey);
    if key.Rejected? {
      return BadPoint(key.reason);
    }
    var point := DecodePoint(c, encodedR);
    if point.Rejected? {
      return BadPoint(point.reason);
    }
    AcceptedReencodes(c, publicKey);
    AcceptedReencodes(c, encodedR);
    var check := ScalarMult(c, key.point, g.order);
    if check != IDENTITY {
      return KeyOutsideSubgroup;
    }
    check := ScalarMult(c, point.point, g.order);
    if check != IDENTITY {
      return PointOutsideSubgroup;
    }
    var challenge := FromBytes(hash(encodedR + publicKey + message)) % g.order;
    var left := ScalarMult(c, g.base, scalarS);
    var right := ScalarMult(c, key.point, challenge);
    verdict := if left != Add(c, point.point, right) then EquationFails else Verified;
  }

  /** Adding a multiple of the order changes nothing. */
  lemma ReduceByOrder(g: Group, n: nat)
    requires g.Valid()
    ensures NFold(g.curve, g.base, n % g.order) == NFold(g.curve, g.base, n)
  {
    assert g.order > 0;
    hide *;
    var k, r := Divided(n, g.order);
    WholeTurns(g, k, r);
  }

  lemma Divided(n: nat, d: nat) returns (k: nat, r: nat)
    requires d > 0
    ensures n == d * k + r && r == n % d
  {
    k, r := n / d, n % d;
  }

  lemma WholeTurns(g: Group, k: nat, r: nat)
    requires g.Valid()
    ensures NFold(g.curve, g.base, g.order * k + r) == NFold(g.curve, g.base, r)
  {
    var c := g.curve;
    NFoldMul(c, g.base, g.order, k);
    NFoldOfIdentity(c, k);
    NFoldAdd(c, g.base, g.order * k, r);
    NFoldOnCurve(c, g.base, r);
    AddIdentity(c, NFold(c, g.base, r));
  }

  lemma {:induction false} NFoldOfIdentity(c: Curve, n: nat)
    requires c.q > 2
    ensures NFold(c, IDENTITY, n) == IDENTITY
  {
    if n > 0 {
      NFoldOfIdentity(c, n - 1);
      AddIdentity(c, IDENTITY);
    }
  }

  lemma InSubgroup(g: Group, n: nat)
    requires g.Valid()
    ensures NFold(g.curve, NFold(g.curve, g.base, n), g.order) == IDENTITY
  {
    NFoldMul(g.curve, g.base, n, g.order);
    NFoldMul(g.curve, g.base, g.order, n);
    NFoldOfIdentity(g.curve, n);
    assert n * g.order == g.order * n;
  }

  /** The signature of RFC 8032 section 5.1.6. */
  function Sign(g: Group, hash: Hash, secret: nat, nonce: nat, message: seq<Byte>): seq<Byte>
    requires g.curve.q > 2 && g.order > 0
    requires 0 <= NFold(g.curve, g.base, secret).y < SIGN_BIT && 0 <= NFold(g.curve, g.base, nonce).y < SIGN_BIT
  {
    var encodedR := EncodePoint(NFold(g.curve, g.base, nonce));
    var challenge := Challenge(g, hash, encodedR, EncodePoint(NFold(g.curve, g.base, secret)), message);
    encodedR + ToBytes((nonce + challenge * secret) % g.order, ENCODED_LENGTH)
  }

  /**
   A signature formed as that RFC says is accepted exactly if neither the public key nor the nonce's point is the
   identity, which the RFC would let pass and this checker refuses.
   */
  lemma HonestSignatureVerifies(g: Group, hash: Hash, secret: nat, nonce: nat, message: seq<Byte>)
    requires g.Valid()
    ensures
      var a, r := NFold(g.curve, g.base, secret), NFold(g.curve, g.base, nonce);
      0 <= a.y < SIGN_BIT && 0 <= r.y < SIGN_BIT &&
      (Decide(g, hash, EncodePoint(a), message, Sign(g, hash, secret, nonce, message)) == Verified
       <==> a != IDENTITY && r != IDENTITY)
  {
    hide NFold, Add, DecodePoint, Decide;
    var c := g.curve;
    var a, r := NFold(c, g.base, secret), NFold(c, g.base, nonce);
    NFoldOnCurve(c, g.base, secret);
    NFoldOnCurve(c, g.base, nonce);
    var challenge := Challenge(g, hash, EncodePoint(r), EncodePoint(a), message);
    var s := (nonce + challenge * secret) % g.order;
    JoinedParts(EncodePoint(r), ToBytes(s, ENCODED_LENGTH));
    if a == IDENTITY || r == IDENTITY {
      IdentityIsRefused(c);
      Refused(g, hash, EncodePoint(a), message, EncodePoint(r) + ToBytes(s, ENCODED_LENGTH));
    } else {
      HonestCase(g, hash, a, r, secret, nonce, message, challenge, s);
    }
  }

  lemma Refused(g: Group, hash: Hash, publicKey: seq<Byte>, message: seq<Byte>, signature: seq<Byte>)
    requires g.curve.q > 2 && |signature| == 64
    requires DecodePoint(g.curve, publicKey).Rejected? || DecodePoint(g.curve, signature[..32]).Rejected?
    ensures Decide(g, hash, publicKey, message, signature) != Verified
  {
  }

  lemma HonestCase(g: Group, hash: Hash, a: Point, r: Point, secret: nat, nonce: nat, message: seq<Byte>,
                   challenge: nat, s: nat)
    requires g.Valid() && a != IDENTITY && r != IDENTITY && Element(g.curve, a) && Element(g.curve, r)
    requires a == NFold(g.curve, g.base, secret) && r == NFold(g.curve, g.base, nonce)
    requires challenge == Challenge(g, hash, EncodePoint(r), EncodePoint(a), message)
    requires s == (nonce + challenge * secret) % g.order
    ensures Decide(g, hash, EncodePoint(a), message, EncodePoint(r) + ToBytes(s, ENCODED_LENGTH)) == Verified
  {
    hide NFold, Add, DecodePoint, Decide, EncodePoint, ToBytes, FromBytes, Challenge;
    var c := g.curve;
    EncodedValue(a);
    EncodedValue(r);
    JoinedParts(EncodePoint(r), ToBytes(s, ENCODED_LENGTH));
    DecodeAcceptsEncoding(c, a);
    DecodeAcceptsEncoding(c, r);
    InSubgroup(g, secret);
    InSubgroup(g, nonce);
    HonestEquation(g, secret, nonce, challenge);
    Capacity32();
    ToBytesInverse(s, ENCODED_LENGTH);
    Accepts(g, hash, EncodePoint(a), message, EncodePoint(r) + ToBytes(s, ENCODED_LENGTH), a, r, s);
  }

  lemma JoinedParts(left: seq<Byte>, right: seq<Byte>)
    ensures (left + right)[..|left|] == left && (left + right)[|left|..] == right
  {
  }

  lemma HonestEquation(g: Group, secret: nat, nonce: nat, challenge: nat)
    requires g.Valid()
    ensures NFold(g.curve, g.base, (nonce + challenge * secret) % g.order)
         == Add(g.curve, NFold(g.curve, g.base, nonce), NFold(g.curve, NFold(g.curve, g.base, secret), challenge))
  {
    assert challenge * secret == secret * challenge;
    ReduceByOrder(g, nonce + challenge * secret);
    NFoldAdd(g.curve, g.base, nonce, secret * challenge);
    NFoldMul(g.curve, g.base, secret, challenge);
  }

  lemma Accepts(g: Group, hash: Hash, publicKey: seq<Byte>, message: seq<Byte>, signature: seq<Byte>, a: Point,
                r: Point, s: nat)
    requires g.curve.q > 2 && |publicKey| == 32 && |signature| == 64
    requires DecodePoint(g.curve, publicKey) == Accepted(a) && DecodePoint(g.curve, signature[..32]) == Accepted(r)
    requires FromBytes(signature[32..]) == s < g.order
    requires NFold(g.curve, a, g.order) == IDENTITY && NFold(g.curve, r, g.order) == IDENTITY
    requires NFold(g.curve, g.base, s)
          == Add(g.curve, r, NFold(g.curve, a, Challenge(g, hash, signature[..32], publicKey, message)))
    ensures Decide(g, hash, publicKey, message, signature) == Verified
  {
  }

  /** No smaller multiple of the base point is the identity. */
  ghost predicate ExactOrder(g: Group)
    requires g.curve.q > 2
  {
    forall j: nat :: 0 < j < g.order ==> NFold(g.curve, g.base, j) != IDENTITY
  }

  /** A multiplier that turns `j` into one more than a multiple of the prime `order`. */
  lemma Inverted(j: nat, order: nat) returns (u: nat, k: nat)
    requires IsPrime(order) && 0 < j < order
    ensures j * u == order * k + 1
  {
    RemainderUnique(j, 0, j, order);
    FermatInverse(j, order);
    u := PowMod(j, order - 2, order);
    RemainderUnique(1, 0, 1, order);
    k := (j * u) / order;
  }

  /** Every multiple of the base point short of the order has a multiple that is the base point again. */
  lemma BackToBase(g: Group, j: nat) returns (u: nat)
    requires g.Valid() && IsPrime(g.order) && 0 < j < g.order
    ensures NFold(g.curve, NFold(g.curve, g.base, j), u) == g.base
  {
    var k;
    u, k := Inverted(j, g.order);
    NFoldMul(g.curve, g.base, j, u);
    WholeTurns(g, k, 1);
    AddIdentity(g.curve, g.base);
    assert NFold(g.curve, g.base, 1) == Add(g.curve, NFold(g.curve, g.base, 0), g.base);
  }

  /** A base point of prime order has no smaller multiple that is the identity. */
  lemma PrimeOrderIsExact(g: Group)
    requires g.Valid() && IsPrime(g.order) && g.base != IDENTITY
    ensures ExactOrder(g)
  {
    forall j: nat | 0 < j < g.order ensures NFold(g.curve, g.base, j) != IDENTITY {
      var u := BackToBase(g, j);
      NFoldOfIdentity(g.curve, u);
    }
  }

  lemma EqualScalars(g: Group, s: nat, t: nat)
    requires g.Valid() && IsPrime(g.order) && g.base != IDENTITY && s < g.order && t < g.order
    requires NFold(g.curve, g.base, s) == NFold(g.curve, g.base, t)
    ensures s == t
  {
    PrimeOrderIsExact(g);
    if s < t { EqualMultiples(g, s, t); }
    if t < s { EqualMultiples(g, t, s); }
  }

  /** A verified signature cannot be turned into another one of the same message under the same key and point. */
  lemma SignatureScalarIsUnique(g: Group, hash: Hash, publicKey: seq<Byte>, message: seq<Byte>, one: seq<Byte>,
                                two: seq<Byte>)
    requires g.Valid() && IsPrime(g.order) && g.base != IDENTITY
    requires Decide(g, hash, publicKey, message, one) == Verified
    requires Decide(g, hash, publicKey, message, two) == Verified
    requires one[..32] == two[..32]
    ensures one == two
  {
    hide NFold, Add, DecodePoint, IsPrime, FromBytes, Challenge;
    var s, t := FromBytes(one[32..]), FromBytes(two[32..]);
    VerifiedScalar(g, hash, publicKey, message, one);
    VerifiedScalar(g, hash, publicKey, message, two);
    EqualScalars(g, s, t);
    FromBytesInverse(one[32..]);
    FromBytesInverse(two[32..]);
    assert one == one[..32] + one[32..] && two == two[..32] + two[32..];
  }

  lemma VerifiedScalar(g: Group, hash: Hash, publicKey: seq<Byte>, message: seq<Byte>, signature: seq<Byte>)
    requires g.Valid() && Decide(g, hash, publicKey, message, signature) == Verified
    ensures |publicKey| == 32 && |signature| == 64 && FromBytes(signature[32..]) < g.order
    ensures DecodePoint(g.curve, publicKey).Accepted? && DecodePoint(g.curve, signature[..32]).Accepted?
    ensures var a, r := DecodePoint(g.curve, publicKey).point, DecodePoint(g.curve, signature[..32]).point;
            var challenge := Challenge(g, hash, signature[..32], publicKey, message);
            NFold(g.curve, g.base, FromBytes(signature[32..])) == Add(g.curve, r, NFold(g.curve, a, challenge))
  {
  }

  /** What is added to the same point and gives the same sum is the same. */
  lemma AddCancels(c: Curve, r: Point, x: Point, y: Point)
    requires c.Complete() && Element(c, r) && Element(c, x) && Element(c, y) && Add(c, r, x) == Add(c, r, y)
    ensures x == y
  {
    var n := Negation(c, r);
    AddInverse(c, r);
    AddCommutes(c, r, n);
    AddAssociates(c, n, r, x);
    AddAssociates(c, n, r, y);
    AddIdentity(c, x);
    AddIdentity(c, y);
  }

  /**
   A verified signature is bound to its message: it verifies for another one exactly if the hash, of the point, the key
   and the message, comes to the same number modulo the order.
   */
  lemma SignatureBindsMessage(g: Group, hash: Hash, publicKey: seq<Byte>, message: seq<Byte>, other: seq<Byte>,
                              signature: seq<Byte>)
    requires g.Valid() && IsPrime(g.order)
    requires Decide(g, hash, publicKey, message, signature) == Verified
    ensures |signature| == 64
    ensures Decide(g, hash, publicKey, other, signature) == Verified <==>
              FromBytes(hash(signature[..32] + publicKey + message)) % g.order
              == FromBytes(hash(signature[..32] + publicKey + other)) % g.order
  {
    hide NFold, Add, DecodePoint, IsPrime, FromBytes, EncodePoint, Element;
    var c := g.curve;
    var a, r := DecodePoint(c, publicKey).point, DecodePoint(c, signature[..32]).point;
    AcceptedElement(c, publicKey);
    AcceptedElement(c, signature[..32]);
    if Decide(g, hash, publicKey, other, signature) == Verified {
      var m, n := Challenge(g, hash, signature[..32], publicKey, message),
                  Challenge(g, hash, signature[..32], publicKey, other);
      MultipleElement(c, a, m);
      MultipleElement(c, a, n);
      AddCancels(c, r, NFold(c, a, m), NFold(c, a, n));
      EqualScalars(g.(base := a), m, n);
    }
  }

  lemma AcceptedElement(c: Curve, encoded: seq<Byte>)
    requires c.Valid() && DecodePoint(c, encoded).Accepted?
    ensures Element(c, DecodePoint(c, encoded).point) && DecodePoint(c, encoded).point != IDENTITY
  {
    hide DecodePoint;
    AcceptedReencodes(c, encoded);
  }

  lemma MultipleElement(c: Curve, p: Point, n: nat)
    requires c.Complete() && Element(c, p)
    ensures Element(c, NFold(c, p, n))
  {
    NFoldOnCurve(c, p, n);
  }

  lemma EqualMultiples(g: Group, s: nat, t: nat)
    requires g.Valid() && s < t && NFold(g.curve, g.base, s) == NFold(g.curve, g.base, t)
    ensures NFold(g.curve, g.base, t - s) == IDENTITY
  {
    var c := g.curve;
    var p, d := NFold(c, g.base, s), NFold(c, g.base, t - s);
    NFoldAdd(c, g.base, t - s, s);
    NFoldOnCurve(c, g.base, s);
    NFoldOnCurve(c, g.base, t - s);
    AddInverse(c, p);
    AddAssociates(c, d, p, Negation(c, p));
    AddIdentity(c, d);
  }

  // ---------- a small group that meets every condition ----------

  const SMALL := Group(Curve(13, 5, 5), Point(4, 10), 3)

  lemma SquaresModulo13(r: int)
    ensures !Cong(r * r, 5, 13)
  {
    var s := r % 13;
    CongReduce(r, 13);
    CongMul(r, s, r, s, 13);
    assert 0 <= s < 13 && (s * s) % 13 != 5;
  }

  lemma SmallIsComplete()
    ensures SMALL.curve.Valid() && SMALL.curve.Complete()
  {
    forall r: int ensures !Cong(r * r, 5, 13) {
      SquaresModulo13(r);
    }
  }

  lemma SmallDoubles()
    ensures Element(SMALL.curve, SMALL.base) && Add(SMALL.curve, SMALL.base, SMALL.base) == Point(9, 10)
  {
    hide Add;
    SmallIsComplete();
    var s := Add(SMALL.curve, SMALL.base, SMALL.base);
    AddQuotients(SMALL.curve, SMALL.base, SMALL.base);
    SmallQuotients(s);
  }

  lemma SmallQuotients(s: Point)
    requires Reduced(SMALL.curve, s) && Cong(8001 * s.x, 80, 13) && Cong(-7999 * s.y, 116, 13)
    ensures s == Point(9, 10)
  {
    assert 0 <= s.x < 13 && 0 <= s.y < 13;
  }

  lemma SmallOrder()
    ensures NFold(SMALL.curve, SMALL.base, 3) == IDENTITY
  {
    hide Add, OnCurve;
    var c, b := SMALL.curve, SMALL.base;
    SmallIsComplete();
    SmallDoubles();
    AddIdentity(c, b);
    AddInverse(c, b);
    AddCommutes(c, b, Negation(c, b));
    assert NFold(c, b, 1) == b;
    assert NFold(c, b, 2) == Negation(c, b);
  }

  /** What is assumed of a group can be met, with a base point of prime order. */
  lemma SmallIsAGroup()
    ensures SMALL.Valid() && IsPrime(SMALL.order) && SMALL.base != IDENTITY
  {
    hide Add, NFold, Element, OnCurve;
    SmallIsComplete();
    SmallDoubles();
    SmallOrder();
  }
}

/**
 Python's `int.from_bytes(b, "little")` and its inverse.
 */
module LittleEndian {

  type Byte = x: int | 0 <= x < 256

  function FromBytes(b: seq<Byte>): (v: nat) {
    if b == [] then 0 else b[0] + 256 * FromBytes(b[1..])
  }

  function ToBytes(v: nat, n: nat): (b: seq<Byte>)
    ensures |b| == n
  {
    if n == 0 then [] else [v % 256] + ToBytes(v / 256, n - 1)
  }

  /** The number of values `n` bytes can hold. */
  function Capacity(n: nat): (c: nat)
    ensures c > 0
  {
    if n == 0 then 1 else 256 * Capacity(n - 1)
  }

  lemma {:induction false} FromBytesInverse(b: seq<Byte>)
    ensures FromBytes(b) < Capacity(|b|)
    ensures ToBytes(FromBytes(b), |b|) == b
  {
    if b != [] {
      FromBytesInverse(b[1..]);
      var rest := FromBytes(b[1..]);
      assert (b[0] + 256 * rest) % 256 == b[0] && (b[0] + 256 * rest) / 256 == rest;
    }
  }

  lemma {:induction false} ToBytesInverse(v: nat, n: nat)
    requires v < Capacity(n)
    ensures FromBytes(ToBytes(v, n)) == v
  {
    if n > 0 {
      ToBytesInverse(v / 256, n - 1);
      assert ToBytes(v, n)[1..] == ToBytes(v / 256, n - 1);
    }
  }

  lemma Shift(low: nat, high: nat, n: nat)
    requires low < 256 && n > 0
    ensures ((low + 256 * high) / Capacity(n)) == high / Capacity(n - 1)
  {
    var c := Capacity(n - 1);
    var q, r := high / c, high % c;
    assert low + 256 * high == q * (256 * c) + (256 * r + low) && 256 * r + low < 256 * c;
    QuotientIs(low + 256 * high, 256 * c, q, 256 * r + low);
  }

  lemma QuotientIs(v: nat, d: nat, q: nat, r: nat)
    requires d > 0 && v == q * d + r && r < d
    ensures v / d == q
  {
    if v / d < q {
      Larger(v / d + 1, q, d);
    } else if v / d > q {
      Larger(q + 1, v / d, d);
    }
  }

  lemma Larger(a: nat, b: nat, d: nat)
    requires a <= b
    ensures a * d <= b * d
  {
  }

  /** Byte `i` counts multiples of 256 to the power `i`. */
  lemma {:induction false} ByteAt(b: seq<Byte>, i: nat)
    requires i < |b|
    ensures (FromBytes(b) / Capacity(i)) % 256 == b[i]
  {
    if i > 0 {
      Shift(b[0], FromBytes(b[1..]), i);
      ByteAt(b[1..], i - 1);
    }
  }
}

/** Incremental UTF-8 decoding (RFC 3629, sections 3 and 4), rejecting an ill-formed sequence as soon as it shows. */
module Utf8 {

  import opened LittleEndian

  type Text = seq<int>

  datatype Head = Scalar(value: int, length: nat) | Incomplete | Malformed

  datatype Decoded = Decoded(text: Text, pending: seq<Byte>) | IllFormed

  predicate IsScalar(c: int) {
    0 <= c < 0xD800 || 0xE000 <= c < 0x110000
  }

  predicate IsContinuation(b: Byte) {
    0x80 <= b < 0xC0
  }

  /** The second byte's range: no overlong forms, no surrogates, nothing above U+10FFFF. */
  predicate MayFollow(first: Byte, second: Byte) {
    && IsContinuation(second)
    && (first == 0xE0 ==> second >= 0xA0) && (first == 0xED ==> second < 0xA0)
    && (first == 0xF0 ==> second >= 0x90) && (first == 0xF4 ==> second < 0x90)
  }

  /** Appends a continuation byte's six bits. */
  function Push(high: nat, low: Byte): nat
    requires IsContinuation(low)
  {
    high * 64 + (low - 0x80)
  }

  /** What the bytes start with: a whole character, the beginning of one, or neither. */
  function First(b: seq<Byte>): (h: Head)
    requires b != []
    ensures h.Scalar? ==> 1 <= h.length <= |b|
  {
    if b[0] < 0x80 then Scalar(b[0], 1)
    else if b[0] < 0xC2 || b[0] > 0xF4 then Malformed
    else if |b| == 1 then Incomplete
    else if !MayFollow(b[0], b[1]) then Malformed
    else if b[0] < 0xE0 then Scalar(Push(b[0] - 0xC0, b[1]), 2)
    else if |b| == 2 then Incomplete
    else if !IsContinuation(b[2]) then Malformed
    else if b[0] < 0xF0 then Scalar(Push(Push(b[0] - 0xE0, b[1]), b[2]), 3)
    else if |b| == 3 then Incomplete
    else if !IsContinuation(b[3]) then Malformed
    else Scalar(Push(Push(Push(b[0] - 0xF0, b[1]), b[2]), b[3]), 4)
  }

  /** Decodes every complete character; an incomplete one at the end stays pending. */
  function Decode(b: seq<Byte>): Decoded
    decreases |b|
  {
    if b == [] then Decoded([], [])
    else match First(b)
      case Malformed => IllFormed
      case Incomplete => Decoded([], b)
      case Scalar(c, n) => Prepend([c], Decode(b[n..]))
  }

  function Prepend(first: Text, d: Decoded): Decoded {
    match d
    case IllFormed => IllFormed
    case Decoded(text, pending) => Decoded(first + text, pending)
  }

  lemma PrependTwice(a: Text, b: Text, d: Decoded)
    ensures Prepend(a, Prepend(b, d)) == Prepend(a + b, d)
  {
    if d.Decoded? {
      assert a + (b + d.text) == (a + b) + d.text;
    }
  }

  /** Decoding may stop anywhere and go on with the pending bytes in front of the next chunk. */
  lemma {:induction false} DecodeSplit(a: seq<Byte>, b: seq<Byte>)
    ensures Decode(a + b) == match Decode(a)
                             case IllFormed => IllFormed
                             case Decoded(text, pending) => Prepend(text, Decode(pending + b))
    decreases |a|
  {
    if a == [] {
      assert a + b == b;
      assert [] + b == b;
      PrependNothing(Decode(b));
    } else {
      match First(a)
      case Malformed =>
        assert First(a + b) == Malformed;
      case Incomplete =>
        PrependNothing(Decode(a + b));
      case Scalar(c, n) =>
        assert First(a + b) == First(a);
        assert (a + b)[n..] == a[n..] + b;
        DecodeSplit(a[n..], b);
        if Decode(a[n..]).Decoded? {
          PrependTwice([c], Decode(a[n..]).text, Decode(Decode(a[n..]).pending + b));
        }
    }
  }

  lemma PrependNothing(d: Decoded)
    ensures Prepend([], d) == d
  {
    if d.Decoded? {
      assert [] + d.text == d.text;
    }
  }

  // ---------- the encoder, and why the two are inverse ----------

  function Low(c: nat): (b: Byte)
    ensures IsContinuation(b) && Push(c / 64, b) == c
  {
    0x80 + c % 64
  }

  lemma PushIsReversible(high: nat, low: Byte)
    requires IsContinuation(low)
    ensures Push(high, low) / 64 == high && Low(Push(high, low)) == low
  {
  }

  function Encode(c: int): seq<Byte>
    requires IsScalar(c)
  {
    if c < 0x80 then [c]
    else if c < 0x800 then [0xC0 + c / 64, Low(c)]
    else if c < 0x10000 then [0xE0 + c / 64 / 64, Low(c / 64), Low(c)]
    else [0xF0 + c / 64 / 64 / 64, Low(c / 64 / 64), Low(c / 64), Low(c)]
  }

  predicate AllScalars(t: Text) {
    forall i | 0 <= i < |t| :: IsScalar(t[i])
  }

  function EncodeAll(t: Text): seq<Byte>
    requires AllScalars(t)
  {
    if t == [] then [] else Encode(t[0]) + EncodeAll(t[1..])
  }

  lemma FirstOfEncoding(c: int, more: seq<Byte>)
    requires IsScalar(c)
    ensures First(Encode(c) + more) == Scalar(c, |Encode(c)|)
  {
  }

  lemma FirstIsEncoding(b: seq<Byte>)
    requires b != [] && First(b).Scalar?
    ensures var c := First(b).value; var n := First(b).length;
            IsScalar(c) && n <= |b| && b[..n] == Encode(c)
  {
    var n := First(b).length;
    if n == 2 {
      PushIsReversible(b[0] - 0xC0, b[1]);
    } else if n == 3 {
      PushIsReversible(b[0] - 0xE0, b[1]);
      PushIsReversible(Push(b[0] - 0xE0, b[1]), b[2]);
    } else if n == 4 {
      PushIsReversible(b[0] - 0xF0, b[1]);
      PushIsReversible(Push(b[0] - 0xF0, b[1]), b[2]);
      PushIsReversible(Push(Push(b[0] - 0xF0, b[1]), b[2]), b[3]);
    }
  }

  lemma {:induction false} DecodeEncoding(t: Text)
    requires AllScalars(t)
    ensures Decode(EncodeAll(t)) == Decoded(t, [])
  {
    if t != [] {
      var rest := EncodeAll(t[1..]);
      FirstOfEncoding(t[0], rest);
      assert (Encode(t[0]) + rest)[|Encode(t[0])|..] == rest;
      DecodeEncoding(t[1..]);
    }
  }

  lemma EncodePrepend(c: int, t: Text)
    requires IsScalar(c) && AllScalars(t)
    ensures AllScalars([c] + t) && EncodeAll([c] + t) == Encode(c) + EncodeAll(t)
  {
    assert ([c] + t)[1..] == t;
  }

  lemma {:induction false} DecodedIsEncoding(b: seq<Byte>)
    requires Decode(b).Decoded? && Decode(b).pending == []
    ensures AllScalars(Decode(b).text) && b == EncodeAll(Decode(b).text)
    decreases |b|
  {
    if b != [] {
      FirstIsEncoding(b);
      var c, n := First(b).value, First(b).length;
      var later := Decode(b[n..]).text;
      assert Decode(b) == Prepend([c], Decode(b[n..]));
      DecodedIsEncoding(b[n..]);
      EncodePrepend(c, later);
      assert b == b[..n] + b[n..];
    }
  }

  /** Bytes decode completely to `t` exactly when they are the encoding of `t`. */
  lemma DecodesExactlyEncodings(b: seq<Byte>, t: Text)
    ensures Decode(b) == Decoded(t, []) <==> AllScalars(t) && b == EncodeAll(t)
  {
    if AllScalars(t) && b == EncodeAll(t) {
      DecodeEncoding(t);
    }
    if Decode(b) == Decoded(t, []) {
      DecodedIsEncoding(b);
    }
  }
}

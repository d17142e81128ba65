/**
 Literal strings (section 7.3.4.2 of ISO 32000-1): the fixture writer's escaping, and what a reader makes of it.
 Bytes are written as the Latin-1 characters with the same codes.
 */
module PdfLiteral {

  import opened Wrappers

  type Bytes = string

  const BACKSLASH := '\\'
  const OPEN := '('
  const CLOSE := ')'
  const LF := '\n'
  const CR := '\r'

  /** `bytes.replace` of a one-byte pattern. */
  function Replace(s: Bytes, pattern: char, with: Bytes): Bytes {
    if s == [] then [] else (if s[0] == pattern then with else [s[0]]) + Replace(s[1..], pattern, with)
  }

  function Escape(s: Bytes): Bytes {
    Replace(Replace(Replace(s, BACKSLASH, [BACKSLASH, BACKSLASH]), OPEN, [BACKSLASH, OPEN]), CLOSE, [BACKSLASH, CLOSE])
  }

  predicate NeedsEscape(c: char) {
    c == BACKSLASH || c == OPEN || c == CLOSE
  }

  function EscapedChar(c: char): Bytes {
    if NeedsEscape(c) then [BACKSLASH, c] else [c]
  }

  lemma {:induction false} ReplaceConcat(a: Bytes, b: Bytes, pattern: char, with: Bytes)
    ensures Replace(a + b, pattern, with) == Replace(a, pattern, with) + Replace(b, pattern, with)
  {
    if a == [] {
      assert a + b == b;
    } else {
      assert (a + b)[1..] == a[1..] + b;
      ReplaceConcat(a[1..], b, pattern, with);
    }
  }

  lemma ReplaceShort(c: char, d: char, pattern: char, with: Bytes)
    ensures Replace([c], pattern, with) == if c == pattern then with else [c]
    ensures c != pattern ==> Replace([c, d], pattern, with) == [c] + Replace([d], pattern, with)
  {
    assert [c][1..] == [] && [c, d][1..] == [d];
  }

  lemma EscapeChar(c: char)
    ensures Escape([c]) == EscapedChar(c)
  {
    ReplaceShort(c, c, BACKSLASH, [BACKSLASH, BACKSLASH]);
    ReplaceShort(c, c, OPEN, [BACKSLASH, OPEN]);
    ReplaceShort(BACKSLASH, BACKSLASH, OPEN, [BACKSLASH, OPEN]);
    ReplaceShort(c, c, CLOSE, [BACKSLASH, CLOSE]);
    ReplaceShort(BACKSLASH, BACKSLASH, CLOSE, [BACKSLASH, CLOSE]);
    ReplaceShort(BACKSLASH, OPEN, CLOSE, [BACKSLASH, CLOSE]);
    ReplaceShort(OPEN, OPEN, CLOSE, [BACKSLASH, CLOSE]);
  }

  /** Three replacements one after the other do not trip over each other: each byte is escaped on its own. */
  lemma {:induction false} EscapeIsPerByte(s: Bytes)
    ensures Escape(s) == if s == [] then [] else EscapedChar(s[0]) + Escape(s[1..])
  {
    if s != [] {
      var first, rest := [s[0]], s[1..];
      assert s == first + rest;
      var a, b := Replace(first, BACKSLASH, [BACKSLASH, BACKSLASH]), Replace(rest, BACKSLASH, [BACKSLASH, BACKSLASH]);
      ReplaceConcat(first, rest, BACKSLASH, [BACKSLASH, BACKSLASH]);
      ReplaceConcat(a, b, OPEN, [BACKSLASH, OPEN]);
      ReplaceConcat(Replace(a, OPEN, [BACKSLASH, OPEN]), Replace(b, OPEN, [BACKSLASH, OPEN]), CLOSE,
                    [BACKSLASH, CLOSE]);
      EscapeChar(s[0]);
    }
  }

  // ---------- the reader ----------

  datatype Literal = Literal(text: Bytes, rest: Bytes)

  predicate IsOctal(c: char) {
    '0' <= c <= '7'
  }

  function Digit(c: char): nat {
    if '0' <= c then c as int - '0' as int else 0
  }

  function OctalLength(s: Bytes): (n: nat)
    ensures n <= 3 && n <= |s|
  {
    if s == [] || !IsOctal(s[0]) then 0
    else if |s| == 1 || !IsOctal(s[1]) then 1
    else if |s| == 2 || !IsOctal(s[2]) then 2
    else 3
  }

  function OctalValue(s: Bytes): (v: nat)
    requires forall i | 0 <= i < |s| :: IsOctal(s[i])
  {
    if s == [] then 0 else OctalValue(s[..|s| - 1]) * 8 + Digit(s[|s| - 1])
  }

  /** The length of an end-of-line marker at the front: \r\n, \r or \n. */
  function EolLength(s: Bytes): (n: nat)
    ensures n <= |s|
  {
    if s == [] then 0
    else if s[0] == LF then 1
    else if s[0] == CR then (if |s| > 1 && s[1] == LF then 2 else 1)
    else 0
  }

  function After(s: Bytes, n: nat, out: Bytes, depth: nat): Option<Literal>
    requires 1 <= n <= |s|
    decreases |s|, 0
  {
    Prepend(out, Read(s[n..], depth))
  }

  function Prepend(out: Bytes, r: Option<Literal>): Option<Literal> {
    match r
    case None => None
    case Some(l) => Some(Literal(out + l.text, l.rest))
  }

  /** What follows a backslash. */
  function AfterBackslash(s: Bytes, depth: nat): Option<Literal>
    requires s != [] && s[0] == BACKSLASH
    decreases |s|, 1
  {
    if |s| == 1 then None
    else
      var c := s[1];
      if c == 'n' then After(s, 2, [LF], depth)
      else if c == 'r' then After(s, 2, [CR], depth)
      else if c == 't' then After(s, 2, ['\t'], depth)
      else if c == 'b' then After(s, 2, [8 as char], depth)
      else if c == 'f' then After(s, 2, [12 as char], depth)
      else if EolLength(s[1..]) > 0 then After(s, 1 + EolLength(s[1..]), [], depth)
      else if OctalLength(s[1..]) > 0 then
        var digits := s[1..][..OctalLength(s[1..])];
        After(s, 1 + |digits|, [(OctalValue(digits) % 256) as char], depth)
      else After(s, 2, [c], depth)
  }

  /** Reads a literal string after its opening parenthesis; `depth` counts the parentheses opened inside it. */
  function Read(s: Bytes, depth: nat): Option<Literal>
    decreases |s|, 2
  {
    if s == [] then None
    else if s[0] == BACKSLASH then AfterBackslash(s, depth)
    else if EolLength(s) > 0 then After(s, EolLength(s), [LF], depth)
    else if s[0] == OPEN then After(s, 1, [OPEN], depth + 1)
    else if s[0] == CLOSE then
      if depth == 0 then Some(Literal([], s[1..])) else After(s, 1, [CLOSE], depth - 1)
    else After(s, 1, [s[0]], depth)
  }

  /** Inside a literal string every end-of-line marker counts as \n. */
  function NormalizeEol(s: Bytes): Bytes
    decreases |s|
  {
    if s == [] then []
    else if EolLength(s) > 0 then [LF] + NormalizeEol(s[EolLength(s)..])
    else [s[0]] + NormalizeEol(s[1..])
  }

  lemma ReadEscapedChar(c: char, tail: Bytes)
    requires NeedsEscape(c)
    ensures Read([BACKSLASH, c] + tail, 0) == Prepend([c], Read(tail, 0))
  {
    assert ([BACKSLASH, c] + tail)[2..] == tail;
    var s := [BACKSLASH, c] + tail;
    assert s[1..][0] == c && EolLength(s[1..]) == 0 && OctalLength(s[1..]) == 0;
    assert AfterBackslash(s, 0) == After(s, 2, [c], 0);
  }

  lemma ReadPlainChar(c: char, tail: Bytes)
    requires !NeedsEscape(c) && (c == CR ==> tail == [] || tail[0] != LF)
    ensures Read([c] + tail, 0) == Prepend([if c == CR then LF else c], Read(tail, 0))
  {
    assert ([c] + tail)[1..] == tail;
  }

  lemma ReadCrLf(tail: Bytes)
    ensures Read([CR] + ([LF] + tail), 0) == Prepend([LF], Read(tail, 0))
  {
    assert ([CR] + ([LF] + tail))[2..] == tail;
  }

  lemma EscapeOfTwo(s: Bytes)
    requires |s| > 1
    ensures Escape(s[1..]) == EscapedChar(s[1]) + Escape(s[2..])
  {
    EscapeIsPerByte(s[1..]);
    assert s[1..][1..] == s[2..];
  }

  lemma ReadsOne(s: Bytes, close: Bytes)
    requires s != [] && close != [] && close[0] == CLOSE
    ensures Read(Escape(s) + close, 0) ==
            if EolLength(s) == 2 then Prepend([LF], Read(Escape(s[2..]) + close, 0))
            else Prepend([if s[0] == CR then LF else s[0]], Read(Escape(s[1..]) + close, 0))
  {
    EscapeIsPerByte(s);
    var tail := Escape(s[1..]) + close;
    assert Escape(s) + close == EscapedChar(s[0]) + tail;
    if |s| > 1 { EscapeOfTwo(s); }
    if NeedsEscape(s[0]) {
      ReadEscapedChar(s[0], tail);
    } else if EolLength(s) == 2 {
      assert tail == [LF] + (Escape(s[2..]) + close);
      ReadCrLf(Escape(s[2..]) + close);
    } else {
      assert |s| == 1 ==> tail == close;
      assert |s| > 1 ==> tail[0] == EscapedChar(s[1])[0];
      ReadPlainChar(s[0], tail);
    }
  }

  lemma {:induction false} ReadsEscaped(s: Bytes, rest: Bytes)
    ensures Read(Escape(s) + ([CLOSE] + rest), 0) == Some(Literal(NormalizeEol(s), rest))
    decreases |s|
  {
    var close := [CLOSE] + rest;
    if s == [] {
      EscapeIsPerByte(s);
      assert Escape(s) + close == close && close[1..] == rest;
    } else {
      ReadsOne(s, close);
      ReadsEscaped(s[if EolLength(s) == 2 then 2 else 1..], rest);
    }
  }

  lemma {:induction false} NormalizedHasNoCr(s: Bytes)
    ensures CR !in NormalizeEol(s)
    decreases |s|
  {
    if s != [] {
      NormalizedHasNoCr(s[if EolLength(s) == 2 then 2 else 1..]);
    }
  }

  lemma {:induction false} NormalizeKeeps(s: Bytes)
    requires CR !in s
    ensures NormalizeEol(s) == s
  {
    if s != [] {
      assert s[0] in s;
      NormalizeKeeps(s[1..]);
      assert s == [s[0]] + s[1..];
    }
  }

  /** A reader gets the text back, up to its line ends; and exactly when it holds no carriage return. */
  lemma LiteralRoundTrip(s: Bytes, rest: Bytes)
    ensures Read(Escape(s) + ([CLOSE] + rest), 0) == Some(Literal(NormalizeEol(s), rest))
    ensures Read(Escape(s) + ([CLOSE] + rest), 0) == Some(Literal(s, rest)) <==> CR !in s
  {
    ReadsEscaped(s, rest);
    NormalizedHasNoCr(s);
    if CR !in s { NormalizeKeeps(s); }
  }
}

/**
 The fixture writer's file structure (sections 7.5.4 and 7.5.5 of ISO 32000-1) and a reader that finds an
 object by following `startxref` to the cross-reference table. Bytes are Latin-1 characters.
 */
module PdfFile {

  import opened PdfLiteral
  import opened Wrappers

  // ---------- numbers ----------

  predicate IsDigit(c: char) {
    '0' <= c <= '9'
  }

  predicate AllDigits(s: Bytes) {
    forall i | 0 <= i < |s| :: IsDigit(s[i])
  }

  function DigitChar(d: nat): (c: char)
    requires d < 10
    ensures IsDigit(c)
  {
    ('0' as int + d) as char
  }

  function Decimal(n: nat): (s: Bytes)
    ensures s != [] && AllDigits(s)
  {
    if n < 10 then [DigitChar(n)] else Decimal(n / 10) + [DigitChar(n % 10)]
  }

  function DigitOf(c: char): nat {
    if IsDigit(c) then c as int - '0' as int else 0
  }

  function Value(s: Bytes): nat {
    if s == [] then 0 else Value(s[..|s| - 1]) * 10 + DigitOf(s[|s| - 1])
  }

  function Zeros(n: nat): (s: Bytes)
    ensures |s| == n && AllDigits(s)
  {
    seq(n, i => '0')
  }

  /** Python's `{n:0{width}d}`: wider numbers are not cut. */
  function Padded(n: nat, width: nat): (s: Bytes)
    ensures AllDigits(s)
  {
    if |Decimal(n)| >= width then Decimal(n) else Zeros(width - |Decimal(n)|) + Decimal(n)
  }

  function Pow10(k: nat): (p: nat)
    ensures p >= 1
  {
    if k == 0 then 1 else 10 * Pow10(k - 1)
  }

  lemma {:induction false} DecimalValue(n: nat)
    ensures Value(Decimal(n)) == n
  {
    if n >= 10 {
      DecimalValue(n / 10);
      assert Decimal(n)[..|Decimal(n)| - 1] == Decimal(n / 10);
    }
  }

  lemma {:induction false} DecimalLength(n: nat, k: nat)
    requires n < Pow10(k) && k >= 1
    ensures |Decimal(n)| <= k
  {
    if n >= 10 {
      assert Pow10(1) == 10 * Pow10(0);
      DecimalLength(n / 10, k - 1);
    }
  }

  lemma {:induction false} LeadingZeros(k: nat, s: Bytes)
    ensures Value(Zeros(k) + s) == Value(s)
  {
    var t := Zeros(k) + s;
    if s != [] {
      assert t[..|t| - 1] == Zeros(k) + s[..|s| - 1];
      LeadingZeros(k, s[..|s| - 1]);
    } else if k > 0 {
      assert t[..|t| - 1] == Zeros(k - 1) + s;
      LeadingZeros(k - 1, s);
    }
  }

  lemma PaddedValue(n: nat, width: nat)
    requires n < Pow10(width) && width >= 1
    ensures |Padded(n, width)| == width && Value(Padded(n, width)) == n
  {
    DecimalLength(n, width);
    DecimalValue(n);
    LeadingZeros(width - |Decimal(n)|, Decimal(n));
    assert |Decimal(n)| == width ==> Padded(n, width) == Decimal(n);
  }

  // ---------- reading numbers in place ----------

  /** How many digits end just before `end`. */
  function DigitsBefore(b: Bytes, end: nat): (n: nat)
    requires end <= |b|
    ensures n <= end
  {
    if end == 0 || !IsDigit(b[end - 1]) then 0 else DigitsBefore(b, end - 1) + 1
  }

  /** How many digits start at `p`. */
  function DigitsFrom(b: Bytes, p: nat): (n: nat)
    requires p <= |b|
    ensures p + n <= |b|
    decreases |b| - p
  {
    if p == |b| || !IsDigit(b[p]) then 0 else DigitsFrom(b, p + 1) + 1
  }

  /** The value of the `n` digits at `p`. */
  function ValueAt(b: Bytes, p: nat, n: nat): nat
    requires p + n <= |b|
  {
    if n == 0 then 0 else ValueAt(b, p, n - 1) * 10 + DigitOf(b[p + n - 1])
  }

  lemma {:induction false} DigitsBeforeIs(b: Bytes, p: nat, n: nat)
    requires p + n <= |b| && (p == 0 || !IsDigit(b[p - 1])) && forall i | p <= i < p + n :: IsDigit(b[i])
    ensures DigitsBefore(b, p + n) == n
  {
    if n > 0 { DigitsBeforeIs(b, p, n - 1); }
  }

  lemma {:induction false} DigitsFromIs(b: Bytes, p: nat, n: nat)
    requires p + n <= |b| && (p + n == |b| || !IsDigit(b[p + n])) && forall i | p <= i < p + n :: IsDigit(b[i])
    ensures DigitsFrom(b, p) == n
    decreases n
  {
    if n > 0 { DigitsFromIs(b, p + 1, n - 1); }
  }

  lemma {:induction false} ValueAtIs(b: Bytes, p: nat, d: Bytes)
    requires At(b, p, d)
    ensures ValueAt(b, p, |d|) == Value(d)
  {
    if d != [] {
      ValueAtIs(b, p, d[..|d| - 1]);
      assert d[|d| - 1] == b[p + (|d| - 1)];
    }
  }

  // ---------- positions ----------

  /** The text `s` stands at position `p`. */
  predicate At(b: Bytes, p: nat, s: Bytes) {
    p + |s| <= |b| && forall i | 0 <= i < |s| :: s[i] == b[p + i]
  }

  lemma SamePlace(b: Bytes, p: nat, q: nat, s: Bytes)
    requires At(b, p, s) && p == q
    ensures At(b, q, s)
  {
  }

  lemma AtSplit(b: Bytes, p: nat, s: Bytes, u: Bytes)
    requires At(b, p, s + u)
    ensures At(b, p, s) && At(b, p + |s|, u)
  {
    assert forall i | 0 <= i < |s| :: (s + u)[i] == s[i];
    forall i | 0 <= i < |u| ensures u[i] == b[p + |s| + i] {
      assert (s + u)[|s| + i] == u[i];
    }
  }

  lemma AtSplit3(b: Bytes, p: nat, s: Bytes, u: Bytes, v: Bytes)
    requires At(b, p, s + (u + v))
    ensures At(b, p, s) && At(b, p + |s|, u) && At(b, p + |s| + |u|, v)
  {
    AtSplit(b, p, s, u + v);
    AtSplit(b, p + |s|, u, v);
  }

  lemma AtBoth(b: Bytes, s: Bytes, u: Bytes)
    requires b == s + u
    ensures At(b, 0, s) && At(b, |s|, u) && |b| == |s| + |u|
  {
  }

  /** Where the parts of a file are; the last one is found from the end. */
  lemma FileParts(b: Bytes, bodies: Bytes, middle: Bytes, front: Bytes, last: Bytes)
    requires b == bodies + (middle + (front + last))
    ensures At(b, 0, bodies) && At(b, |bodies|, middle) && |last| <= |b| && At(b, |b| - |last|, last)
  {
    AtBoth(b, bodies, middle + (front + last));
    RestOfParts(b, |bodies|, middle, front + last, front, last);
  }

  lemma RestOfParts(b: Bytes, p: nat, middle: Bytes, end: Bytes, front: Bytes, last: Bytes)
    requires At(b, p, middle + end) && end == front + last && |b| == p + |middle + end|
    ensures At(b, p, middle) && |last| <= |b| && At(b, |b| - |last|, last)
  {
    AtSplit(b, p, middle, end);
    AtSplit(b, p + |middle|, front, last);
  }

  lemma AtDigits(b: Bytes, p: nat, d: Bytes)
    requires At(b, p, d) && AllDigits(d)
    ensures forall i | p <= i < p + |d| :: IsDigit(b[i])
  {
    forall i | p <= i < p + |d| ensures IsDigit(b[i]) {
      assert d[i - p] == b[p + (i - p)];
    }
  }

  /** A number followed by something that starts with a non-digit is read whole. */
  lemma NumberForward(b: Bytes, p: nat, d: Bytes, next: Bytes)
    requires At(b, p, d) && AllDigits(d) && At(b, p + |d|, next) && next != [] && !IsDigit(next[0])
    ensures DigitsFrom(b, p) == |d| && ValueAt(b, p, |d|) == Value(d)
  {
    AtDigits(b, p, d);
    ValueAtIs(b, p, d);
    assert b[p + |d| + 0] == next[0];
    DigitsFromIs(b, p, |d|);
  }

  lemma NumberBackward(b: Bytes, p: nat, d: Bytes, before: Bytes)
    requires At(b, p, before) && At(b, p + |before|, d) && AllDigits(d)
    requires before != [] && !IsDigit(before[|before| - 1])
    ensures DigitsBefore(b, p + |before| + |d|) == |d| && ValueAt(b, p + |before|, |d|) == Value(d)
  {
    var q := p + |before|;
    AtDigits(b, q, d);
    ValueAtIs(b, q, d);
    assert b[p + (|before| - 1)] == before[|before| - 1];
    DigitsBeforeIs(b, q, |d|);
  }

  // ---------- the writer ----------

  /** The fixed texts of a file, between its numbers and objects. */
  datatype Format = Format(header: Bytes, afterNumber: Bytes, afterObject: Bytes, table: Bytes, afterCount: Bytes,
                           free: Bytes, inUse: Bytes, size: Bytes, root: Bytes, start: Bytes, mark: Bytes)
  {
    /** A table entry takes 20 bytes, and no digit touches the numbers from outside. */
    predicate Good() {
      && |free| == 20 && |inUse| == 10 && !IsDigit(inUse[0])
      && afterCount != [] && !IsDigit(afterCount[0])
      && start != [] && !IsDigit(start[|start| - 1])
    }

    function Framed(number: nat, content: Bytes): Bytes {
      Decimal(number) + (afterNumber + (content + afterObject))
    }

    /** The header and the objects, numbered from 1. */
    function Bodies(objects: seq<Bytes>): Bytes {
      if objects == [] then header else Bodies(objects[..|objects| - 1]) + Framed(|objects|, objects[|objects| - 1])
    }

    function Entry(offset: nat): Bytes {
      Padded(offset, 10) + inUse
    }

    function Entries(objects: seq<Bytes>): Bytes {
      if objects == [] then [] else Entries(objects[..|objects| - 1]) + Entry(|Bodies(objects[..|objects| - 1])|)
    }

    function LastLines(xref: nat): Bytes {
      start + (Decimal(xref) + mark)
    }

    function End(count: nat, xref: nat): Bytes {
      (size + (Decimal(count) + root)) + LastLines(xref)
    }

    function Table(count: nat, entries: Bytes): Bytes {
      table + (Decimal(count) + (afterCount + (free + entries)))
    }

    function File(objects: seq<Bytes>): Bytes {
      Bodies(objects) + (Table(|objects| + 1, Entries(objects)) + End(|objects| + 1, |Bodies(objects)|))
    }

    /** The first loop of the writer: the bodies, and where each of them starts. */
    method WriteBodies(objects: seq<Bytes>) returns (body: Bytes, offsets: seq<nat>)
      ensures body == Bodies(objects) && |offsets| == |objects| + 1
      ensures forall k | 1 <= k <= |objects| :: offsets[k] == |Bodies(objects[..k - 1])|
    {
      body, offsets := header, [0];
      for number := 1 to |objects| + 1
        invariant body == Bodies(objects[..number - 1]) && |offsets| == number
        invariant forall k | 1 <= k < number :: offsets[k] == |Bodies(objects[..k - 1])|
      {
        assert objects[..number][..number - 1] == objects[..number - 1];
        offsets := offsets + [|body|];
        body := body + Framed(number, objects[number - 1]);
      }
      assert objects[..|objects|] == objects;
    }

    /** The second loop: one table entry per offset. */
    method WriteEntries(ghost objects: seq<Bytes>, offsets: seq<nat>) returns (entries: Bytes)
      requires |offsets| == |objects| + 1
      requires forall k | 1 <= k <= |objects| :: offsets[k] == |Bodies(objects[..k - 1])|
      ensures entries == Entries(objects)
    {
      entries := [];
      for k := 1 to |offsets|
        invariant entries == Entries(objects[..k - 1])
      {
        assert objects[..k][..k - 1] == objects[..k - 1];
        entries := entries + Entry(offsets[k]);
      }
      assert objects[..|objects|] == objects;
    }

    method Write(objects: seq<Bytes>) returns (body: Bytes)
      ensures body == File(objects)
    {
      var offsets;
      body, offsets := WriteBodies(objects);
      var xref := |body|;
      var entries := WriteEntries(objects, offsets);
      body := body + (Table(|objects| + 1, entries) + End(|objects| + 1, xref));
    }

    // ---------- the reader ----------

    /** The last lines of the file: `startxref`, an offset, the end-of-file marker. */
    function StartXref(b: Bytes): Option<nat> {
      if |b| < |mark| || !At(b, |b| - |mark|, mark) then None else NumberAfterStart(b, |b| - |mark|)
    }

    function NumberAfterStart(b: Bytes, end: nat): Option<nat>
      requires end <= |b|
    {
      var n := DigitsBefore(b, end);
      if n == 0 || end - n < |start| || !At(b, end - n - |start|, start) then None else Some(ValueAt(b, end - n, n))
    }

    /** Where the entries of the table begin, and how many there are. */
    function TableAt(b: Bytes, p: nat): Option<(nat, nat)> {
      if !At(b, p, table) then None else CountAt(b, p + |table|)
    }

    function CountAt(b: Bytes, p: nat): Option<(nat, nat)>
      requires p <= |b|
    {
      var n := DigitsFrom(b, p);
      if n == 0 || !At(b, p + n, afterCount) then None else Some((p + n + |afterCount|, ValueAt(b, p, n)))
    }

    /** An entry takes exactly 20 bytes; only one in use names an offset. */
    function EntryAt(b: Bytes, p: nat): Option<nat> {
      if p + 20 > |b| || DigitsFrom(b, p) != 10 || !At(b, p + 10, inUse) then None else Some(ValueAt(b, p, 10))
    }

    function ObjectOffset(b: Bytes, number: nat): Option<nat> {
      match StartXref(b)
      case None => None
      case Some(xref) =>
        match TableAt(b, xref)
        case None => None
        case Some((first, count)) => if number < count then EntryAt(b, first + 20 * number) else None
    }

    // ---------- the reader finds every object ----------

    lemma FindsStart(b: Bytes, p: nat, d: Bytes)
      requires Good() && d != [] && AllDigits(d) && At(b, p, start + (d + mark)) && |b| == p + |start| + |d| + |mark|
      ensures StartXref(b) == Some(Value(d))
    {
      AtSplit3(b, p, start, d, mark);
      StartIsRead(b, p, d);
    }

    lemma StartIsRead(b: Bytes, p: nat, d: Bytes)
      requires Good() && d != [] && AllDigits(d) && At(b, p, start) && At(b, p + |start|, d)
      requires At(b, p + |start| + |d|, mark) && |b| == p + |start| + |d| + |mark|
      ensures StartXref(b) == Some(Value(d))
    {
      SamePlace(b, p + |start| + |d|, |b| - |mark|, mark);
      NumberBackward(b, p, d, start);
      NumberIsAfterStart(b, |b| - |mark|, |d|, p, Value(d));
    }

    lemma NumberIsAfterStart(b: Bytes, end: nat, n: nat, p: nat, value: nat)
      requires end <= |b| && DigitsBefore(b, end) == n && n > 0 && end == p + |start| + n
      requires At(b, p, start) && ValueAt(b, p + |start|, n) == value
      ensures NumberAfterStart(b, end) == Some(value)
    {
      SamePlace(b, p, end - n - |start|, start);
    }

    lemma CountIsRead(b: Bytes, p: nat, d: Bytes)
      requires Good() && d != [] && AllDigits(d) && At(b, p, d) && At(b, p + |d|, afterCount)
      ensures CountAt(b, p) == Some((p + |d| + |afterCount|, Value(d)))
    {
      NumberForward(b, p, d, afterCount);
    }

    lemma FindsTable(b: Bytes, p: nat, d: Bytes, rest: Bytes)
      requires Good() && d != [] && AllDigits(d) && At(b, p, table + (d + (afterCount + rest)))
      ensures TableAt(b, p) == Some((p + |table| + |d| + |afterCount|, Value(d)))
      ensures At(b, p + |table| + |d| + |afterCount|, rest)
    {
      AtSplit3(b, p, table, d, afterCount + rest);
      AtSplit(b, p + |table| + |d|, afterCount, rest);
      TableIsRead(b, p, d);
    }

    lemma TableIsRead(b: Bytes, p: nat, d: Bytes)
      requires Good() && d != [] && AllDigits(d) && At(b, p, table)
      requires At(b, p + |table|, d) && At(b, p + |table| + |d|, afterCount)
      ensures TableAt(b, p) == Some((p + |table| + |d| + |afterCount|, Value(d)))
    {
      CountIsRead(b, p + |table|, d);
    }

    lemma EntryIsRead(b: Bytes, p: nat, offset: nat)
      requires Good() && offset < Pow10(10) && At(b, p, Entry(offset))
      ensures EntryAt(b, p) == Some(offset)
    {
      PaddedValue(offset, 10);
      AtSplit(b, p, Padded(offset, 10), inUse);
      NumberForward(b, p, Padded(offset, 10), inUse);
    }

    /** Where object `number` starts. */
    function Start(objects: seq<Bytes>, number: nat): nat
      requires 1 <= number <= |objects|
    {
      |Bodies(objects[..number - 1])|
    }

    lemma {:induction false} BodyIsThere(b: Bytes, objects: seq<Bytes>, number: nat)
      requires 1 <= number <= |objects| && At(b, 0, Bodies(objects))
      ensures At(b, Start(objects, number), Framed(number, objects[number - 1]))
    {
      var init := objects[..|objects| - 1];
      AtSplit(b, 0, Bodies(init), Framed(|objects|, objects[|objects| - 1]));
      if number < |objects| {
        BodyIsThere(b, init, number);
        assert init[..number - 1] == objects[..number - 1];
      }
    }

    /** Every entry before the table's end takes its 20 bytes, and names where its object starts. */
    lemma {:induction false} EntryIsThere(b: Bytes, p: nat, objects: seq<Bytes>, number: nat)
      requires Good() && 1 <= number <= |objects| && |Bodies(objects)| < Pow10(10) && At(b, p, Entries(objects))
      ensures EntryAt(b, p + 20 * (number - 1)) == Some(Start(objects, number))
    {
      hide At, EntryAt, Good;
      var init := objects[..|objects| - 1];
      var last := Entry(|Bodies(init)|);
      AtSplit(b, p, Entries(init), last);
      if number < |objects| {
        EntryIsThere(b, p, init, number);
        assert init[..number - 1] == objects[..number - 1];
      } else {
        EntriesLength(init);
        EntryIsRead(b, p + 20 * (number - 1), |Bodies(init)|);
      }
    }

    lemma {:induction false} EntriesLength(objects: seq<Bytes>)
      requires Good() && |Bodies(objects)| < Pow10(10)
      ensures |Entries(objects)| == 20 * |objects|
    {
      if objects != [] {
        var init := objects[..|objects| - 1];
        EntriesLength(init);
        PaddedValue(|Bodies(init)|, 10);
      }
    }

    /**
     A reader that follows `startxref` to the table finds object `number` where its entry says, framed by its
     own number, provided no object starts beyond the ten digits an entry has.
     */
    lemma EveryObjectIsFound(objects: seq<Bytes>, number: nat)
      requires Good() && 1 <= number <= |objects| && |Bodies(objects)| < Pow10(10)
      ensures ObjectOffset(File(objects), number).Some?
      ensures At(File(objects), ObjectOffset(File(objects), number).value, Framed(number, objects[number - 1]))
    {
      var count, xref := |objects| + 1, |Bodies(objects)|;
      FoundBetween(File(objects), objects, number, Table(count, Entries(objects)), size + (Decimal(count) + root),
                   LastLines(xref));
    }

    lemma FoundBetween(b: Bytes, objects: seq<Bytes>, number: nat, middle: Bytes, front: Bytes, last: Bytes)
      requires Good() && 1 <= number <= |objects| && |Bodies(objects)| < Pow10(10)
      requires b == Bodies(objects) + (middle + (front + last))
      requires middle == Table(|objects| + 1, Entries(objects)) && last == LastLines(|Bodies(objects)|)
      ensures ObjectOffset(b, number) == Some(Start(objects, number))
      ensures At(b, Start(objects, number), Framed(number, objects[number - 1]))
    {
      FileParts(b, Bodies(objects), middle, front, last);
      ObjectIsFound(b, objects, number, Entries(objects));
      BodyIsThere(b, objects, number);
    }

    lemma ObjectIsFound(b: Bytes, objects: seq<Bytes>, number: nat, entries: Bytes)
      requires Good() && 1 <= number <= |objects| && |Bodies(objects)| < Pow10(10) && entries == Entries(objects)
      requires At(b, |Bodies(objects)|, Table(|objects| + 1, entries))
      requires var last := LastLines(|Bodies(objects)|); |last| <= |b| && At(b, |b| - |last|, last)
      ensures ObjectOffset(b, number) == Some(Start(objects, number))
    {
      var first := TableIsFound(b, |Bodies(objects)|, |objects| + 1, entries, number);
      EntryIsThere(b, first, objects, number);
    }

    lemma TableIsFound(b: Bytes, xref: nat, count: nat, entries: Bytes, number: nat) returns (first: nat)
      requires Good() && 1 <= number < count && At(b, xref, Table(count, entries))
      requires var last := LastLines(xref); |last| <= |b| && At(b, |b| - |last|, last)
      ensures At(b, first, entries) && ObjectOffset(b, number) == EntryAt(b, first + 20 * (number - 1))
    {
      DecimalValue(xref);
      DecimalValue(count);
      FindsStart(b, |b| - |LastLines(xref)|, Decimal(xref));
      FindsTable(b, xref, Decimal(count), free + entries);
      AtSplit(b, xref + |table| + |Decimal(count)| + |afterCount|, free, entries);
      first := xref + |table| + |Decimal(count)| + |afterCount| + 20;
    }
  }

  /** The texts the fixture writer uses. */
  const PDF := Format("%PDF-1.4\n%\U{E2}\U{E3}\U{CF}\U{D3}\n", " 0 obj\n", "\nendobj\n", "xref\n0 ", "\n",
                      "0000000000 65535 f \n", " 00000 n \n", "trailer\n<< /Size ", " /Root 1 0 R >>\n",
                      "startxref\n", "\n%%EOF\n")

  lemma PdfIsGood()
    ensures PDF.Good()
  {
  }
}

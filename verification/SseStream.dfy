/** The benchmark client's reader of server-sent events. */
module SseStream {

  import opened LittleEndian
  import opened Utf8
  import opened Whitespace
  import opened Wrappers

  const LF := 10
  const CR := 13

  // ---------- the delimiter \r?\n\r?\n ----------

  function Has(t: Text, i: nat, c: int): nat {
    if i < |t| && t[i] == c then 1 else 0
  }

  /** The length of the line end at `i`, or 0. */
  function LineEnd(t: Text, i: nat): nat {
    if Has(t, i + Has(t, i, CR), LF) == 1 then Has(t, i, CR) + 1 else 0
  }

  /** The length of the delimiter at `i`, or 0. */
  function Delimiter(t: Text, i: nat): (n: nat)
    ensures n > 0 ==> i + n <= |t|
  {
    var first := LineEnd(t, i);
    if first > 0 && LineEnd(t, i + first) > 0 then first + LineEnd(t, i + first) else 0
  }

  /** \r?\n\r?\n matches these four, and no more than one of them at a place. */
  lemma DelimiterIs(t: Text, i: nat, n: nat)
    requires i + n <= |t| && n > 0
    ensures var part := t[i..i + n];
            Delimiter(t, i) == n
            <==> part == [10, 10] || part == [13, 10, 10] || part == [10, 13, 10] || part == [13, 10, 13, 10]
  {
    var part := t[i..i + n];
    assert part[0] == t[i];
    assert n > 1 ==> part[1] == t[i + 1];
    assert n > 2 ==> part[2] == t[i + 2];
    assert n > 3 ==> part[3] == t[i + 3];
    if Delimiter(t, i) == n {
      match n
      case 2 => assert part == [10, 10];
      case 3 => assert part == if t[i] == 13 then [13, 10, 10] else [10, 13, 10];
      case 4 => assert part == [13, 10, 13, 10];
      case _ => assert false;
    }
  }

  predicate FirstAt(t: Text, s: nat) {
    Delimiter(t, s) > 0 && forall i | 0 <= i < s :: Delimiter(t, i) == 0
  }

  /** `re.search`: where the leftmost delimiter starts. */
  function Search(t: Text, from: nat := 0): (r: Option<nat>)
    requires forall i | 0 <= i < from :: Delimiter(t, i) == 0
    ensures r.Some? ==> FirstAt(t, r.value)
    ensures r.None? ==> forall i :: 0 <= i ==> Delimiter(t, i) == 0
    decreases |t| - from
  {
    if from >= |t| then None
    else if Delimiter(t, from) > 0 then Some(from)
    else Search(t, from + 1)
  }

  lemma DelimiterExtends(a: Text, b: Text, i: nat)
    requires Delimiter(a, i) > 0
    ensures Delimiter(a + b, i) == Delimiter(a, i)
  {
  }

  /** A delimiter in an extension that starts before one in the prefix was already there. */
  lemma DelimiterNotEarlier(a: Text, b: Text, i: nat, s: nat)
    requires i < s && Delimiter(a, s) > 0 && Delimiter(a, i) == 0
    ensures Delimiter(a + b, i) == 0
  {
    var t := a + b;
    assert forall k | 0 <= k < |a| :: t[k] == a[k];
  }

  lemma SearchFinds(t: Text, s: nat)
    requires FirstAt(t, s)
    ensures Search(t) == Some(s)
  {
    var r := Search(t);
  }

  /** The leftmost delimiter of a prefix is the leftmost delimiter of every extension. */
  lemma SearchStable(a: Text, b: Text)
    requires Search(a).Some?
    ensures Search(a + b) == Search(a)
    ensures Delimiter(a + b, Search(a).value) == Delimiter(a, Search(a).value)
  {
    var s := Search(a).value;
    DelimiterExtends(a, b, s);
    forall i | 0 <= i < s ensures Delimiter(a + b, i) == 0 {
      DelimiterNotEarlier(a, b, i, s);
    }
    SearchFinds(a + b, s);
  }

  // ---------- cutting the text into blocks ----------

  datatype Cut = Cut(blocks: seq<Text>, rest: Text)

  function After(first: seq<Text>, c: Cut): Cut {
    Cut(first + c.blocks, c.rest)
  }

  datatype Found = NotFound | Found(block: Text, rest: Text)

  /** The text before the leftmost delimiter and the text after it. */
  function NextBlock(t: Text): (f: Found)
    ensures f.Found? ==> |f.rest| < |t|
  {
    match Search(t)
    case None => NotFound
    case Some(s) => Found(t[..s], t[s + Delimiter(t, s)..])
  }

  lemma NextBlockStable(a: Text, b: Text)
    requires NextBlock(a).Found?
    ensures NextBlock(a + b) == Found(NextBlock(a).block, NextBlock(a).rest + b)
  {
    SearchStable(a, b);
    var s := Search(a).value;
    var e := s + Delimiter(a, s);
    assert (a + b)[..s] == a[..s] && (a + b)[e..] == a[e..] + b;
  }

  function Blocks(t: Text): Cut
    decreases |t|
  {
    match NextBlock(t)
    case NotFound => Cut([], t)
    case Found(block, rest) => After([block], Blocks(rest))
  }

  lemma AfterTwice(a: seq<Text>, b: seq<Text>, c: Cut)
    ensures After(a, After(b, c)) == After(a + b, c)
  {
    assert a + (b + c.blocks) == (a + b) + c.blocks;
  }

  /** Cutting may stop anywhere and go on with the rest in front of what arrives next. */
  lemma {:induction false} BlocksSplit(a: Text, b: Text)
    ensures Blocks(a + b) == After(Blocks(a).blocks, Blocks(Blocks(a).rest + b))
    decreases |a|
  {
    match NextBlock(a)
    case NotFound =>
      assert [] + Blocks(a + b).blocks == Blocks(a + b).blocks;
    case Found(block, rest) =>
      NextBlockStable(a, b);
      BlocksSplit(rest, b);
      AfterTwice([block], Blocks(rest).blocks, Blocks(Blocks(rest).rest + b));
  }

  // ---------- one block ----------

  /** The line boundaries of `str.splitlines`. */
  predicate IsBreak(c: int) {
    10 <= c <= 13 || 0x1C <= c <= 0x1E || c == 0x85 || c == 0x2028 || c == 0x2029
  }

  function LineLength(t: Text): (n: nat)
    ensures n <= |t| && (n < |t| ==> IsBreak(t[n])) && forall i | 0 <= i < n :: !IsBreak(t[i])
  {
    if t == [] || IsBreak(t[0]) then 0 else 1 + LineLength(t[1..])
  }

  /** Where the text goes on after its first line; \r\n is one boundary. */
  function AfterLine(t: Text): (rest: Text)
    requires LineLength(t) < |t|
    ensures |rest| <= |t| - LineLength(t) - 1
  {
    var n := LineLength(t);
    t[n + if t[n] == CR && Has(t, n + 1, LF) == 1 then 2 else 1..]
  }

  /** `str.splitlines`: a boundary at the end starts no further line. */
  function SplitLines(t: Text): seq<Text>
    decreases |t|
  {
    if t == [] then []
    else if LineLength(t) == |t| then [t]
    else [t[..LineLength(t)]] + SplitLines(AfterLine(t))
  }

  /** The code points of "event: " and "data: ". */
  const EVENT: Text := [101, 118, 101, 110, 116, 58, 32]
  const DATA: Text := [100, 97, 116, 97, 58, 32]

  datatype Fields = Fields(event: Option<Text>, data: seq<Text>)

  const NO_FIELDS := Fields(None, [])

  function AddLine(f: Fields, line: Text): Fields {
    if EVENT <= line then f.(event := Some(line[|EVENT|..]))
    else if DATA <= line then f.(data := f.data + [line[|DATA|..]])
    else f
  }

  /** The last "event: " line names the event; the "data: " lines are kept in order. */
  function Collect(lines: seq<Text>): Fields {
    if lines == [] then NO_FIELDS else AddLine(Collect(lines[..|lines| - 1]), lines[|lines| - 1])
  }

  function JoinLines(lines: seq<Text>): Text {
    if lines == [] then [] else if |lines| == 1 then lines[0] else lines[0] + [LF] + JoinLines(lines[1..])
  }

  /** Later lines add their data to that of the earlier ones, and the last event line wins. */
  lemma {:induction false} CollectConcat(a: seq<Text>, b: seq<Text>)
    ensures Collect(a + b).data == Collect(a).data + Collect(b).data
    ensures Collect(a + b).event == if Collect(b).event.Some? then Collect(b).event else Collect(a).event
  {
    if b == [] {
      assert a + b == a;
    } else {
      var k := |b| - 1;
      assert (a + b)[..|a| + k] == a + b[..k];
      CollectConcat(a, b[..k]);
      assert forall line :: Collect(a).data + (Collect(b[..k]).data + [line])
                            == (Collect(a).data + Collect(b[..k]).data) + [line];
    }
  }

  /** One line: what follows "event: " or "data: ", or nothing. */
  lemma CollectLine(rest: Text, line: Text)
    ensures Collect([[101, 118, 101, 110, 116, 58, 32] + rest]) == Fields(Some(rest), [])
    ensures Collect([[100, 97, 116, 97, 58, 32] + rest]) == Fields(None, [rest])
    ensures Collect([line]) != NO_FIELDS ==>
              [101, 118, 101, 110, 116, 58, 32] <= line || [100, 97, 116, 97, 58, 32] <= line
  {
    assert [EVENT + rest][..0] == [] && [DATA + rest][..0] == [] && [line][..0] == [];
    assert (EVENT + rest)[|EVENT|..] == rest && (DATA + rest)[|DATA|..] == rest;
    assert (DATA + rest)[0] == DATA[0];
  }

  /** The data lines are joined by line feeds. */
  lemma {:induction false} JoinConcat(a: seq<Text>, b: seq<Text>)
    requires a != [] && b != []
    ensures JoinLines(a + b) == JoinLines(a) + [10] + JoinLines(b)
  {
    assert (a + b)[1..] == a[1..] + b;
    if |a| > 1 {
      JoinConcat(a[1..], b);
    }
  }

  /** What the JSON parser makes of a text; `J` stands for its objects. */
  datatype Loaded<J> = NotJson | NotObject | Object(value: J)

  datatype Event<J> = Event(name: Text, payload: J)

  datatype Reading<J> = Skipped | Unreadable | Read(event: Event<J>)

  function ReadBlock<J>(block: Text, loads: Text -> Loaded<J>): Reading<J> {
    var f := Collect(SplitLines(block));
    if f.event.None? || f.data == [] then Skipped
    else match loads(JoinLines(f.data))
      case Object(v) => Read(Event(f.event.value, v))
      case _ => Unreadable
  }

  // ---------- the whole stream, as a function of its bytes ----------

  datatype Result<J> = Failed | Events(events: seq<Event<J>>)

  function ReadBlocks<J>(blocks: seq<Text>, loads: Text -> Loaded<J>): Result<J> {
    if blocks == [] then Events([])
    else match ReadBlock(blocks[0], loads)
      case Unreadable => Failed
      case Skipped => ReadBlocks(blocks[1..], loads)
      case Read(e) => PrependEvents([e], ReadBlocks(blocks[1..], loads))
  }

  function PrependEvents<J>(first: seq<Event<J>>, r: Result<J>): Result<J> {
    match r
    case Failed => Failed
    case Events(events) => Events(first + events)
  }

  predicate IsBlank(t: Text) {
    forall i | 0 <= i < |t| :: IsSpace(t[i])
  }

  /** The events of a byte stream: what the reader must deliver however the stream is cut into chunks. */
  function Parse<J>(bytes: seq<Byte>, loads: Text -> Loaded<J>): Result<J> {
    match Decode(bytes)
    case IllFormed => Failed
    case Decoded(text, pending) =>
      if pending != [] || !IsBlank(Blocks(text).rest) then Failed else ReadBlocks(Blocks(text).blocks, loads)
  }

  function Join(chunks: seq<seq<Byte>>): seq<Byte> {
    if chunks == [] then [] else Join(chunks[..|chunks| - 1]) + chunks[|chunks| - 1]
  }

  lemma {:induction false} JoinPrefix(chunks: seq<seq<Byte>>, i: nat) returns (later: seq<Byte>)
    requires i <= |chunks|
    ensures Join(chunks) == Join(chunks[..i]) + later
  {
    if i == |chunks| {
      assert chunks[..i] == chunks;
      later := [];
    } else {
      var k := |chunks| - 1;
      var before := JoinPrefix(chunks[..k], i);
      assert chunks[..k][..i] == chunks[..i];
      later := before + chunks[k];
    }
  }

  lemma {:induction false} ReadBlocksSplit<J>(a: seq<Text>, b: seq<Text>, loads: Text -> Loaded<J>)
    ensures ReadBlocks(a + b, loads) == match ReadBlocks(a, loads)
                                        case Failed => Failed
                                        case Events(events) => PrependEvents(events, ReadBlocks(b, loads))
  {
    if a == [] {
      assert a + b == b;
      if ReadBlocks(b, loads).Events? {
        assert [] + ReadBlocks(b, loads).events == ReadBlocks(b, loads).events;
      }
    } else {
      assert (a + b)[1..] == a[1..] + b;
      ReadBlocksSplit(a[1..], b, loads);
      match ReadBlock(a[0], loads)
      case Unreadable =>
      case Skipped =>
      case Read(e) =>
        if ReadBlocks(a[1..], loads).Events? && ReadBlocks(b, loads).Events? {
          var x, y := ReadBlocks(a[1..], loads).events, ReadBlocks(b, loads).events;
          assert [e] + (x + y) == ([e] + x) + y;
        }
    }
  }

  // ---------- the reader ----------

  /** The loop over the lines of one block. */
  method ScanBlock(block: Text) returns (event: Option<Text>, data: seq<Text>)
    ensures Fields(event, data) == Collect(SplitLines(block))
  {
    event, data := None, [];
    var lines := SplitLines(block);
    for i := 0 to |lines|
      invariant Fields(event, data) == Collect(lines[..i])
    {
      assert lines[..i + 1][..i] == lines[..i];
      var line := lines[i];
      if EVENT <= line {
        event := Some(line[|EVENT|..]);
      } else if DATA <= line {
        data := data + [line[|DATA|..]];
      }
    }
    assert lines[..|lines|] == lines;
  }

  /** One complete block: skipped, unreadable, or an event. */
  method ReadOne<J>(block: Text, loads: Text -> Loaded<J>) returns (r: Reading<J>)
    ensures r == ReadBlock(block, loads)
  {
    hide Collect, SplitLines;
    var event, data := ScanBlock(block);
    if event.None? || data == [] { return Skipped; }
    var loaded := loads(JoinLines(data));
    r := if loaded.Object? then Read(Event(event.value, loaded.value)) else Unreadable;
  }

  /** The inner loop: reads every complete block out of the buffer. */
  method DrainBuffer<J>(text: Text, loads: Text -> Loaded<J>) returns (ok: bool, events: seq<Event<J>>, buffer: Text)
    ensures ok <==> ReadBlocks(Blocks(text).blocks, loads).Events?
    ensures ok ==> events == ReadBlocks(Blocks(text).blocks, loads).events && buffer == Blocks(text).rest
  {
    hide NextBlock, ReadBlock, ReadBlocks, Blocks;
    buffer, events := text, [];
    var found := NextBlock(buffer);
    PrependNothing(ReadBlocks(Blocks(text).blocks, loads));
    while found.Found?
      invariant found == NextBlock(buffer)
      invariant Blocks(text).rest == Blocks(buffer).rest
      invariant ReadBlocks(Blocks(text).blocks, loads)
                == PrependEvents(events, ReadBlocks(Blocks(buffer).blocks, loads))
      decreases |buffer|
    {
      ReadNext(buffer, loads);
      buffer := found.rest;
      var reading := ReadOne(found.block, loads);
      if reading.Unreadable? { return false, events, buffer; }
      if reading.Read? {
        PrependTwo(events, reading.event, ReadBlocks(Blocks(buffer).blocks, loads));
        events := events + [reading.event];
      }
      found := NextBlock(buffer);
    }
    ok := true;
    NoneLeft(buffer, loads);
    assert events + [] == events;
  }

  lemma ReadNext<J>(t: Text, loads: Text -> Loaded<J>)
    requires NextBlock(t).Found?
    ensures Blocks(t).rest == Blocks(NextBlock(t).rest).rest
    ensures ReadBlocks(Blocks(t).blocks, loads) ==
            var later := ReadBlocks(Blocks(NextBlock(t).rest).blocks, loads);
            match ReadBlock(NextBlock(t).block, loads)
            case Unreadable => Failed
            case Skipped => later
            case Read(e) => PrependEvents([e], later)
  {
    var later := Blocks(NextBlock(t).rest).blocks;
    assert ([NextBlock(t).block] + later)[1..] == later;
  }

  lemma NoneLeft<J>(t: Text, loads: Text -> Loaded<J>)
    requires NextBlock(t).NotFound?
    ensures Blocks(t).rest == t && ReadBlocks(Blocks(t).blocks, loads) == Events([])
  {
  }

  lemma PrependNothing<J>(r: Result<J>)
    ensures PrependEvents([], r) == r
  {
    if r.Events? { assert [] + r.events == r.events; }
  }

  lemma PrependTwo<J>(a: seq<Event<J>>, e: Event<J>, r: Result<J>)
    ensures PrependEvents(a, PrependEvents([e], r)) == PrependEvents(a + [e], r)
  {
    if r.Events? {
      assert a + ([e] + r.events) == (a + [e]) + r.events;
    }
  }

  /** What the reader knows after a prefix of the stream. */
  ghost predicate Caught<J>(bytes: seq<Byte>, loads: Text -> Loaded<J>, pending: seq<Byte>, buffer: Text,
                            events: seq<Event<J>>)
  {
    && Decode(bytes).Decoded? && Decode(bytes).pending == pending
    && Blocks(Decode(bytes).text).rest == buffer
    && ReadBlocks(Blocks(Decode(bytes).text).blocks, loads) == Events(events)
  }

  /** A prefix that already cannot be decoded, or holds an unreadable block, dooms the stream. */
  ghost predicate Doomed<J>(bytes: seq<Byte>, loads: Text -> Loaded<J>) {
    match Decode(bytes)
    case IllFormed => true
    case Decoded(text, _) => ReadBlocks(Blocks(text).blocks, loads).Failed?
  }

  /** One more chunk: the state after it, from the state before it. */
  lemma NextChunk<J>(bytes: seq<Byte>, chunk: seq<Byte>, loads: Text -> Loaded<J>,
                     pending: seq<Byte>, buffer: Text, events: seq<Event<J>>)
    requires Caught(bytes, loads, pending, buffer, events)
    ensures Decode(pending + chunk).IllFormed? ==> Doomed(bytes + chunk, loads)
    ensures Decode(pending + chunk).Decoded? ==>
              var d := Decode(pending + chunk); var cut := Blocks(buffer + d.text);
              match ReadBlocks(cut.blocks, loads)
              case Failed => Doomed(bytes + chunk, loads)
              case Events(more) => Caught(bytes + chunk, loads, d.pending, cut.rest, events + more)
  {
    DecodeSplit(bytes, chunk);
    var text := Decode(bytes).text;
    if Decode(pending + chunk).Decoded? {
      var d := Decode(pending + chunk);
      BlocksSplit(text, d.text);
      ReadBlocksSplit(Blocks(text).blocks, Blocks(buffer + d.text).blocks, loads);
    }
  }

  lemma DoomedStaysDoomed<J>(bytes: seq<Byte>, later: seq<Byte>, loads: Text -> Loaded<J>)
    requires Doomed(bytes, loads)
    ensures Parse(bytes + later, loads).Failed?
  {
    DecodeSplit(bytes, later);
    if Decode(bytes).Decoded? && Decode(bytes + later).Decoded? {
      var text, more := Decode(bytes).text, Decode(Decode(bytes).pending + later).text;
      BlocksSplit(text, more);
      ReadBlocksSplit(Blocks(text).blocks, Blocks(Blocks(text).rest + more).blocks, loads);
    }
  }

  /**
   The reader. Its result is a function of the concatenated bytes alone, so two ways of cutting
   the same stream either both end in an error or deliver the same events.
   */
  method SseEvents<J>(chunks: seq<seq<Byte>>, loads: Text -> Loaded<J>) returns (result: Result<J>)
    ensures result == Parse(Join(chunks), loads)
  {
    var pending: seq<Byte>, buffer: Text, events: seq<Event<J>> := [], [], [];
    for i := 0 to |chunks|
      invariant Caught(Join(chunks[..i]), loads, pending, buffer, events)
    {
      assert chunks[..i + 1][..i] == chunks[..i];
      ghost var later := JoinPrefix(chunks, i + 1);
      NextChunk(Join(chunks[..i]), chunks[i], loads, pending, buffer, events);
      var d := Decode(pending + chunks[i]);
      if d.IllFormed? {
        DoomedStaysDoomed(Join(chunks[..i + 1]), later, loads);
        return Failed;
      }
      var ok, more, rest := DrainBuffer(buffer + d.text, loads);
      if !ok {
        DoomedStaysDoomed(Join(chunks[..i + 1]), later, loads);
        return Failed;
      }
      pending, buffer, events := d.pending, rest, events + more;
    }
    assert chunks[..|chunks|] == chunks;
    if pending != [] || !IsBlank(buffer) {
      return Failed;
    }
    return Events(events);
  }
}

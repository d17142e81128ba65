/** The API's writer of server-sent events, and exactly which of its events the benchmark client reads back. */
module SseWriter {

  import opened LittleEndian
  import opened Utf8
  import opened SseStream
  import opened Whitespace
  import opened Wrappers

  /** `f"event: {name}\ndata: {body}\n\n"`, without the blank line that ends it. */
  function Block(name: Text, body: Text): Text {
    (EVENT + name) + ([LF] + (DATA + body))
  }

  function Written(name: Text, body: Text): Text {
    Block(name, body) + [LF, LF]
  }

  predicate NoBreaks(t: Text) {
    forall i | 0 <= i < |t| :: !IsBreak(t[i])
  }

  // ---------- lines ----------

  lemma {:induction false} LineLengthIs(t: Text, n: nat)
    requires n <= |t| && NoBreaks(t[..n]) && (n < |t| ==> IsBreak(t[n]))
    ensures LineLength(t) == n
  {
    if n > 0 {
      assert t[0] == t[..n][0];
      assert t[1..][..n - 1] == t[..n][1..];
      LineLengthIs(t[1..], n - 1);
    }
  }

  lemma SplitAtLf(x: Text, y: Text)
    requires NoBreaks(x)
    ensures SplitLines(x + ([LF] + y)) == [x] + SplitLines(y)
  {
    var t := x + ([LF] + y);
    assert t[..|x|] == x && t[|x| + 1..] == y;
    LineLengthIs(t, |x|);
  }

  lemma SingleLine(x: Text)
    requires NoBreaks(x) && x != []
    ensures SplitLines(x) == [x]
  {
    assert x[..|x|] == x;
    LineLengthIs(x, |x|);
  }

  function Total(lines: seq<Text>): nat {
    if lines == [] then 0 else |lines[0]| + Total(lines[1..])
  }

  lemma {:induction false} LinesHaveNoBreaks(t: Text)
    requires t != []
    ensures var lines := SplitLines(t);
            lines != [] && lines[0] <= t && forall i | 0 <= i < |lines| :: NoBreaks(lines[i])
    decreases |t|
  {
    if LineLength(t) < |t| && AfterLine(t) != [] {
      LinesHaveNoBreaks(AfterLine(t));
    }
  }

  /** At least one code point separates each line from the next. */
  lemma {:induction false} LinesAreShorter(t: Text)
    requires t != []
    ensures Total(SplitLines(t)) + |SplitLines(t)| - 1 <= |t|
    decreases |t|
  {
    if LineLength(t) < |t| && AfterLine(t) != [] {
      LinesAreShorter(AfterLine(t));
    }
  }

  // ---------- fields ----------

  function Weight(f: Fields): nat {
    (if f.event.Some? then |EVENT| + |f.event.value| else 0) + |DATA| * |f.data| + Total(f.data)
  }

  lemma {:induction false} TotalAppend(a: seq<Text>, line: Text)
    ensures Total(a + [line]) == Total(a) + |line|
  {
    if a != [] {
      assert (a + [line])[1..] == a[1..] + [line];
      TotalAppend(a[1..], line);
    } else {
      assert [] + [line] == [line];
    }
  }

  lemma {:induction false} CollectedIsLighter(lines: seq<Text>)
    ensures Weight(Collect(lines)) <= Total(lines)
  {
    if lines != [] {
      var before, last := lines[..|lines| - 1], lines[|lines| - 1];
      CollectedIsLighter(before);
      assert lines == before + [last];
      TotalAppend(before, last);
      if DATA <= last {
        TotalAppend(Collect(before).data, last[|DATA|..]);
      }
    }
  }

  // ---------- one event ----------

  lemma CollectPair(a: Text, b: Text)
    ensures Collect([a]) == AddLine(NO_FIELDS, a)
    ensures Collect([a, b]) == AddLine(AddLine(NO_FIELDS, a), b)
  {
    assert [a][..0] == [] && [a, b][..1] == [a];
  }

  lemma BlockLines(name: Text, body: Text)
    requires NoBreaks(name) && NoBreaks(body)
    ensures SplitLines(Block(name, body)) == [EVENT + name, DATA + body]
  {
    var first, second := EVENT + name, DATA + body;
    assert NoBreaks(first) && NoBreaks(second) && second != [];
    SplitAtLf(first, second);
    SingleLine(second);
    assert [first] + [second] == [first, second];
  }

  lemma WrittenIsRead(name: Text, body: Text)
    requires NoBreaks(name) && NoBreaks(body)
    ensures Collect(SplitLines(Block(name, body))) == Fields(Some(name), [body])
  {
    BlockLines(name, body);
    CollectPair(EVENT + name, DATA + body);
    PairIsCollected(name, body);
  }

  lemma PairIsCollected(name: Text, body: Text)
    ensures AddLine(AddLine(NO_FIELDS, EVENT + name), DATA + body) == Fields(Some(name), [body])
  {
    assert (EVENT + name)[|EVENT|..] == name && (DATA + body)[|DATA|..] == body;
    assert (DATA + body)[0] == DATA[0];
    assert [] + [body] == [body];
  }

  lemma PairHolds(first: Text, second: Text, name: Text, body: Text)
    requires AddLine(AddLine(NO_FIELDS, first), second) == Fields(Some(name), [body])
    requires !(DATA <= first)
    ensures first == EVENT + name && second == DATA + body
  {
    assert AddLine(NO_FIELDS, first).data == [];
    assert !(EVENT <= second) && DATA <= second && EVENT <= first;
    assert ([] + [second[|DATA|..]])[0] == body;
    assert first == EVENT + first[|EVENT|..] && second == DATA + second[|DATA|..];
  }

  /** A captured name and text are as long as the whole block only if nothing was cut out of it. */
  lemma ReadMeansTwoLines(name: Text, body: Text)
    requires Collect(SplitLines(Block(name, body))) == Fields(Some(name), [body])
    ensures SplitLines(Block(name, body)) == [EVENT + name, DATA + body]
  {
    var block := Block(name, body);
    var lines := SplitLines(block);
    LinesHaveNoBreaks(block);
    LinesAreShorter(block);
    CollectedIsLighter(lines);
    assert Total([body]) == |body| + Total([body][1..]);
    assert 1 <= |lines| <= 2;
    assert lines[0] == block[..|lines[0]|];
    assert |lines[0]| > 0 ==> lines[0][0] == EVENT[0];
    assert !(DATA <= lines[0]);
    var first := lines[0];
    CollectPair(first, lines[|lines| - 1]);
    assert lines == [first] || |lines| == 2;
    assert |lines| == 2;
    PairHolds(lines[0], lines[1], name, body);
    assert lines == [lines[0], lines[1]];
  }

  /** Line boundaries of what was written would have cut it. */
  lemma ReadMeansNoBreaks(name: Text, body: Text)
    requires Collect(SplitLines(Block(name, body))) == Fields(Some(name), [body])
    ensures NoBreaks(name) && NoBreaks(body)
  {
    hide Collect, SplitLines;
    ReadMeansTwoLines(name, body);
    LinesHaveNoBreaks(Block(name, body));
    var lines := SplitLines(Block(name, body));
    assert lines[0] == EVENT + name && lines[1] == DATA + body;
    PartHasNoBreaks(EVENT, name);
    PartHasNoBreaks(DATA, body);
  }

  lemma PartHasNoBreaks(front: Text, part: Text)
    requires NoBreaks(front + part)
    ensures NoBreaks(part)
  {
    assert forall i | 0 <= i < |part| :: part[i] == (front + part)[|front| + i];
  }

  /** One event is read back as written exactly when neither its name nor its text holds a line boundary. */
  lemma ReadExactlyWithoutBreaks(name: Text, body: Text)
    ensures Collect(SplitLines(Block(name, body))) == Fields(Some(name), [body]) <==> NoBreaks(name) && NoBreaks(body)
  {
    hide Collect, SplitLines, Block;
    if NoBreaks(name) && NoBreaks(body) {
      WrittenIsRead(name, body);
    }
    if Collect(SplitLines(Block(name, body))) == Fields(Some(name), [body]) {
      ReadMeansNoBreaks(name, body);
    }
  }

  // ---------- a whole stream ----------

  datatype Item<J> = Item(name: Text, body: Text, payload: J)

  function WriteAll<J>(items: seq<Item<J>>): Text {
    if items == [] then [] else Written(items[0].name, items[0].body) + WriteAll(items[1..])
  }

  ghost predicate IsWritable<J>(item: Item<J>, loads: Text -> Loaded<J>) {
    && NoBreaks(item.name) && NoBreaks(item.body)
    && AllScalars(item.name) && AllScalars(item.body)
    && loads(item.body) == Object(item.payload)
  }

  ghost predicate Writable<J>(items: seq<Item<J>>, loads: Text -> Loaded<J>) {
    forall i | 0 <= i < |items| :: IsWritable(items[i], loads)
  }

  function EventsOf<J>(items: seq<Item<J>>): seq<Event<J>> {
    if items == [] then [] else [Event(items[0].name, items[0].payload)] + EventsOf(items[1..])
  }

  lemma NoDelimiterInside(name: Text, body: Text, more: Text, i: nat)
    requires NoBreaks(name) && NoBreaks(body) && i < |Block(name, body)|
    ensures Delimiter(Written(name, body) + more, i) == 0
  {
    var t, n := Written(name, body) + more, |EVENT| + |name|;
    if i < n {
      assert t[i] == (EVENT + name)[i];
    } else if i > n {
      assert t[i] == (DATA + body)[i - n - 1];
    } else {
      assert t[n] == LF && t[n + 1] == DATA[0];
    }
  }

  lemma WrittenIsFound(name: Text, body: Text, more: Text)
    requires NoBreaks(name) && NoBreaks(body)
    ensures NextBlock(Written(name, body) + more) == Found(Block(name, body), more)
  {
    var t, n := Written(name, body) + more, |Block(name, body)|;
    assert t[n] == LF && t[n + 1] == LF;
    assert t[..n] == Block(name, body) && t[n + 2..] == more;
    forall i | 0 <= i < n ensures Delimiter(t, i) == 0 {
      NoDelimiterInside(name, body, more, i);
    }
    SearchFinds(t, n);
  }

  lemma WrittenIsReadWhole<J>(item: Item<J>, loads: Text -> Loaded<J>)
    requires IsWritable(item, loads)
    ensures ReadBlock(Block(item.name, item.body), loads) == Read(Event(item.name, item.payload))
  {
    WrittenIsRead(item.name, item.body);
    assert JoinLines([item.body]) == item.body;
  }

  lemma WrittenStep<J>(item: Item<J>, more: Text, loads: Text -> Loaded<J>)
    requires IsWritable(item, loads)
    ensures var t := Written(item.name, item.body) + more;
            && Blocks(t).rest == Blocks(more).rest
            && ReadBlocks(Blocks(t).blocks, loads)
               == PrependEvents([Event(item.name, item.payload)], ReadBlocks(Blocks(more).blocks, loads))
  {
    WrittenIsFound(item.name, item.body, more);
    ReadNext(Written(item.name, item.body) + more, loads);
    WrittenIsReadWhole(item, loads);
  }

  lemma {:induction false} WrittenBlocksAreRead<J>(items: seq<Item<J>>, loads: Text -> Loaded<J>)
    requires Writable(items, loads)
    ensures Blocks(WriteAll(items)).rest == []
    ensures ReadBlocks(Blocks(WriteAll(items)).blocks, loads) == Events(EventsOf(items))
  {
    if items != [] {
      var first, later := items[0], WriteAll(items[1..]);
      assert IsWritable(first, loads);
      WrittenBlocksAreRead(items[1..], loads);
      WrittenStep(first, later, loads);
    } else {
      assert Search([]).None?;
    }
  }

  lemma {:induction false} WrittenAreScalars<J>(items: seq<Item<J>>, loads: Text -> Loaded<J>)
    requires Writable(items, loads)
    ensures AllScalars(WriteAll(items))
  {
    if items != [] {
      WrittenAreScalars(items[1..], loads);
      assert AllScalars(Written(items[0].name, items[0].body));
    }
  }

  /** What the API writes, encoded as UTF-8 and cut into chunks in any way, is what the client reads. */
  lemma StreamRoundTrip<J>(items: seq<Item<J>>, loads: Text -> Loaded<J>)
    requires Writable(items, loads)
    ensures AllScalars(WriteAll(items)) && Parse(EncodeAll(WriteAll(items)), loads) == Events(EventsOf(items))
  {
    WrittenAreScalars(items, loads);
    DecodeEncoding(WriteAll(items));
    WrittenBlocksAreRead(items, loads);
  }

  // ---------- exactly which payloads the client reads ----------

  /** JSON escapes all control characters, so only these three of its characters are line boundaries. */
  lemma JsonIsReadExactly(name: Text, body: Text)
    requires forall i | 0 <= i < |name + body| :: (name + body)[i] >= 32
    ensures Collect(SplitLines(Block(name, body))) == Fields(Some(name), [body]) <==>
              forall i | 0 <= i < |name + body| :: (name + body)[i] !in {0x85, 0x2028, 0x2029}
  {
    hide Collect, SplitLines, Block;
    ReadExactlyWithoutBreaks(name, body);
    assert forall i | 0 <= i < |name| :: (name + body)[i] == name[i];
    assert forall i | 0 <= i < |body| :: (name + body)[|name| + i] == body[i];
  }

  // ---------- a stream that breaks off ----------

  /** What follows the last event must be blank, and nothing else fails. */
  lemma TailDecides<J>(items: seq<Item<J>>, tail: Text, loads: Text -> Loaded<J>)
    requires Writable(items, loads) && AllScalars(tail) && Search(tail).None?
    ensures AllScalars(WriteAll(items) + tail)
    ensures Parse(EncodeAll(WriteAll(items) + tail), loads)
         == if forall i | 0 <= i < |tail| :: IsSpace(tail[i]) then Events(EventsOf(items)) else Failed
  {
    hide Writable, WriteAll, Blocks, ReadBlocks, EventsOf, EncodeAll, Decode, IsSpace, Search;
    WrittenAreScalars(items, loads);
    DecodeEncoding(WriteAll(items) + tail);
    TailBlocks(items, tail, loads);
  }

  lemma TailBlocks<J>(items: seq<Item<J>>, tail: Text, loads: Text -> Loaded<J>)
    requires Writable(items, loads) && Search(tail).None?
    ensures var t := WriteAll(items) + tail;
            Blocks(t).rest == tail && ReadBlocks(Blocks(t).blocks, loads) == Events(EventsOf(items))
  {
    hide Writable, WriteAll, ReadBlocks, EventsOf, Search;
    WrittenBlocksAreRead(items, loads);
    BlocksSplit(WriteAll(items), tail);
    var blocks := Blocks(WriteAll(items)).blocks;
    assert [] + tail == tail && blocks + [] == blocks;
  }

  /** A beginning of the text is some events and a beginning of the next. */
  lemma {:induction false} CutText<J>(items: seq<Item<J>>, t: Text) returns (k: nat, part: Text)
    requires t <= WriteAll(items)
    ensures k <= |items| && t == WriteAll(items[..k]) + part
    ensures part != [] ==> k < |items| && part < Written(items[k].name, items[k].body)
  {
    hide Written;
    k, part := 0, t;
    if items != [] {
      var first, later := Written(items[0].name, items[0].body), WriteAll(items[1..]);
      if |t| < |first| {
        BeginsWith(t, first, later);
      } else {
        GoesOn(t, first, later);
        k, part := CutText(items[1..], t[|first|..]);
        assert items[..k + 1][1..] == items[1..][..k];
        assert t == (first + WriteAll(items[1..][..k])) + part;
        k := k + 1;
      }
    }
  }

  lemma BeginsWith(t: Text, first: Text, later: Text)
    requires t <= first + later && |t| < |first|
    ensures t < first
  {
    assert forall i | 0 <= i < |t| :: t[i] == (first + later)[i] == first[i];
  }

  lemma GoesOn(t: Text, first: Text, later: Text)
    requires t <= first + later && |t| >= |first|
    ensures t == first + t[|first|..] && t[|first|..] <= later
  {
    assert t == (first + later)[..|t|];
    assert t[|first|..] == later[..|t| - |first|];
  }

  lemma NoDelimiterInPart(name: Text, body: Text, part: Text)
    requires NoBreaks(name) && NoBreaks(body) && part < Written(name, body)
    ensures Search(part).None?
  {
    if Search(part).Some? {
      var s, rest := Search(part).value, Written(name, body)[|part|..];
      assert part + rest == Written(name, body) == Written(name, body) + [];
      DelimiterExtends(part, rest, s);
      if s < |Block(name, body)| {
        NoDelimiterInside(name, body, [], s);
      }
    }
  }

  /** These bytes are the first `k` events, as written. */
  ghost predicate IsWhole<J>(items: seq<Item<J>>, k: nat, bytes: seq<Byte>) {
    k <= |items| && AllScalars(WriteAll(items[..k])) && bytes == EncodeAll(WriteAll(items[..k]))
  }

  /**
   A stream that breaks off, at whatever byte, is read exactly if it does so between two events, and then the events
   before are read; inside of one, even if only the last line feed is missing, it fails.
   */
  lemma CutStream<J>(items: seq<Item<J>>, n: nat, loads: Text -> Loaded<J>)
    requires Writable(items, loads) && AllScalars(WriteAll(items)) && n <= |EncodeAll(WriteAll(items))|
    ensures var bytes := EncodeAll(WriteAll(items))[..n];
            match Parse(bytes, loads)
            case Events(events) => exists k: nat :: IsWhole(items, k, bytes) && events == EventsOf(items[..k])
            case Failed => !exists k: nat :: IsWhole(items, k, bytes)
  {
    hide EncodeAll, WriteAll, EventsOf;
    var all := EncodeAll(WriteAll(items));
    var bytes := all[..n];
    if Parse(bytes, loads).Failed? {
      forall k: nat ensures !IsWhole(items, k, bytes) {
        if IsWhole(items, k, bytes) { StreamRoundTrip(items[..k], loads); }
      }
    } else {
      var text := CutDecodes(WriteAll(items), n);
      var k, part := CutText(items, text);
      if part != [] {
        PartFails(items, k, part, loads);
      } else {
        assert text == WriteAll(items[..k]);
        assert IsWhole(items, k, bytes);
        StreamRoundTrip(items[..k], loads);
      }
    }
  }

  /** Bytes at the beginning of an encoding that decode completely encode a beginning of the text. */
  lemma CutDecodes(t: Text, n: nat) returns (text: Text)
    requires AllScalars(t) && n <= |EncodeAll(t)|
    ensures var bytes := EncodeAll(t)[..n];
            Decode(bytes).Decoded?
            && (Decode(bytes).pending == [] ==> text <= t && AllScalars(text) && bytes == EncodeAll(text))
  {
    var bytes, rest := EncodeAll(t)[..n], EncodeAll(t)[n..];
    assert bytes + rest == EncodeAll(t);
    DecodeEncoding(t);
    DecodeSplit(bytes, rest);
    text := Decode(bytes).text;
    if Decode(bytes).pending == [] { DecodedIsEncoding(bytes); }
  }

  lemma PartFails<J>(items: seq<Item<J>>, k: nat, part: Text, loads: Text -> Loaded<J>)
    requires Writable(items, loads) && k < |items| && part != [] && part < Written(items[k].name, items[k].body)
    ensures AllScalars(WriteAll(items[..k]) + part)
    ensures Parse(EncodeAll(WriteAll(items[..k]) + part), loads).Failed?
  {
    assert IsWritable(items[k], loads);
    assert AllScalars(Written(items[k].name, items[k].body));
    NoDelimiterInPart(items[k].name, items[k].body, part);
    assert part[0] == EVENT[0];
    TailDecides(items[..k], part, loads);
  }

  // ---------- other blocks ----------

  /** An event whose data is not a JSON object makes the stream fail, whatever comes after it. */
  lemma BadPayloadFails<J>(items: seq<Item<J>>, name: Text, body: Text, later: seq<Byte>, loads: Text -> Loaded<J>)
    requires Writable(items, loads) && NoBreaks(name) && NoBreaks(body) && AllScalars(name) && AllScalars(body)
    requires !loads(body).Object?
    ensures AllScalars(WriteAll(items) + Written(name, body))
    ensures Parse(EncodeAll(WriteAll(items) + Written(name, body)) + later, loads).Failed?
  {
    var t, bad := WriteAll(items), Written(name, body);
    WrittenAreScalars(items, loads);
    assert AllScalars(bad);
    DecodeEncoding(t + bad);
    WrittenBlocksAreRead(items, loads);
    BlocksSplit(t, bad);
    assert [] + bad == bad == bad + [];
    WrittenIsFound(name, body, []);
    ReadNext(bad, loads);
    WrittenIsRead(name, body);
    assert JoinLines([body]) == body;
    ReadBlocksSplit(Blocks(t).blocks, Blocks(bad).blocks, loads);
    DoomedStaysDoomed(EncodeAll(t + bad), later, loads);
  }

  lemma LineIsFound(line: Text, more: Text)
    requires NoBreaks(line)
    ensures NextBlock(line + [LF, LF] + more) == Found(line, more)
  {
    var t, n := line + [LF, LF] + more, |line|;
    assert t[n] == LF && t[n + 1] == LF;
    assert t[..n] == line && t[n + 2..] == more;
    forall i | 0 <= i < n ensures Delimiter(t, i) == 0 {
      assert t[i] == line[i] && !IsBreak(line[i]);
    }
    SearchFinds(t, n);
  }

  lemma LineStep<J>(line: Text, more: Text, loads: Text -> Loaded<J>)
    requires NoBreaks(line) && line != []
    ensures var t := line + [LF, LF] + more;
            && Blocks(t).rest == Blocks(more).rest
            && ReadBlocks(Blocks(t).blocks, loads) == ReadBlocks(Blocks(more).blocks, loads)
  {
    LineIsFound(line, more);
    ReadNext(line + [LF, LF] + more, loads);
    SingleLine(line);
    assert [line][..0] == [];
    assert Collect([line]).event.None? || Collect([line]).data == [];
  }

  /** A single line between two events, a comment or half an event, is skipped. */
  lemma LineIsSkipped<J>(items: seq<Item<J>>, line: Text, later: seq<Item<J>>, loads: Text -> Loaded<J>)
    requires Writable(items, loads) && Writable(later, loads)
    requires NoBreaks(line) && AllScalars(line) && line != []
    ensures var t := WriteAll(items) + (line + [LF, LF] + WriteAll(later));
            AllScalars(t) && Parse(EncodeAll(t), loads) == Events(EventsOf(items) + EventsOf(later))
  {
    hide Writable, WriteAll, Blocks, ReadBlocks, EventsOf, EncodeAll, Decode;
    WrittenAreScalars(items, loads);
    WrittenAreScalars(later, loads);
    DecodeEncoding(WriteAll(items) + (line + [LF, LF] + WriteAll(later)));
    LineBlocks(items, line, later, loads);
  }

  lemma LineBlocks<J>(items: seq<Item<J>>, line: Text, later: seq<Item<J>>, loads: Text -> Loaded<J>)
    requires Writable(items, loads) && Writable(later, loads)
    requires NoBreaks(line) && line != []
    ensures var t := WriteAll(items) + (line + [LF, LF] + WriteAll(later));
            && Blocks(t).rest == []
            && ReadBlocks(Blocks(t).blocks, loads) == Events(EventsOf(items) + EventsOf(later))
  {
    hide Writable, WriteAll, Blocks, ReadBlocks, EventsOf;
    var t, rest := WriteAll(items), line + [LF, LF] + WriteAll(later);
    WrittenBlocksAreRead(items, loads);
    WrittenBlocksAreRead(later, loads);
    BlocksSplit(t, rest);
    assert [] + rest == rest;
    LineStep(line, WriteAll(later), loads);
    ReadBlocksSplit(Blocks(t).blocks, Blocks(rest).blocks, loads);
  }
}

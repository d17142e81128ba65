/**
 A reader of text documents (section 7 of ISO 32000-1): from the end of the file over the trailer's root, the catalog
 and the page tree to every page, its content stream and the text shown there. It recovers what the writer was given.
 */
module PdfReader {

  import opened PdfLiteral
  import opened PdfFile
  import opened PdfDocument
  import opened Wrappers

  // ---------- numbers and references ----------

  /** A number read, and where reading goes on. */
  datatype Found = Found(number: nat, next: nat)

  function NumberAt(b: Bytes, p: nat): Option<Found> {
    if p > |b| || DigitsFrom(b, p) == 0 then None
    else Some(Found(ValueAt(b, p, DigitsFrom(b, p)), p + DigitsFrom(b, p)))
  }

  /** The number behind the text `s`. */
  function NumberAfter(b: Bytes, p: nat, s: Bytes): Option<Found> {
    if At(b, p, s) then NumberAt(b, p + |s|) else None
  }

  /** The reference behind the text `s`. */
  function RefAfter(b: Bytes, p: nat, s: Bytes): Option<Found> {
    match NumberAfter(b, p, s)
    case None => None
    case Some(Found(n, q)) => if At(b, q, REFERENCE) then Some(Found(n, q + |REFERENCE|)) else None
  }

  lemma DecimalIsRead(b: Bytes, p: nat, n: nat, next: Bytes)
    requires At(b, p, Decimal(n)) && At(b, p + |Decimal(n)|, next) && next != [] && !IsDigit(next[0])
    ensures NumberAt(b, p) == Some(Found(n, p + |Decimal(n)|))
  {
    NumberForward(b, p, Decimal(n), next);
    DecimalValue(n);
  }

  lemma NumberIsRead(b: Bytes, p: nat, s: Bytes, n: nat, next: Bytes)
    requires At(b, p, s + (Decimal(n) + next)) && next != [] && !IsDigit(next[0])
    ensures NumberAfter(b, p, s) == Some(Found(n, p + |s| + |Decimal(n)|))
    ensures At(b, p + |s| + |Decimal(n)|, next)
  {
    AtSplit3(b, p, s, Decimal(n), next);
    DecimalIsRead(b, p + |s|, n, next);
  }

  lemma RefIsRead(b: Bytes, p: nat, s: Bytes, n: nat, rest: Bytes)
    requires At(b, p, s + (Ref(n) + rest))
    ensures RefAfter(b, p, s) == Some(Found(n, p + |s| + |Ref(n)|)) && At(b, p + |s| + |Ref(n)|, rest)
  {
    AtSplit3(b, p, s, Ref(n), rest);
    AtSplit(b, p + |s|, Decimal(n), REFERENCE);
    DecimalIsRead(b, p + |s|, n, REFERENCE);
  }

  // ---------- objects ----------

  /** Where the content of an object begins, below its own number. */
  function Content(f: Format, b: Bytes, number: nat): Option<nat> {
    match f.ObjectOffset(b, number)
    case None => None
    case Some(p) =>
      match NumberAt(b, p)
      case None => None
      case Some(Found(n, q)) => if n == number && At(b, q, f.afterNumber) then Some(q + |f.afterNumber|) else None
  }

  /** What the reader relies on beyond the table: no digit follows an object's number, and object 1 is the root. */
  predicate Readable(f: Format) {
    f.Good() && f.afterNumber != [] && !IsDigit(f.afterNumber[0]) && f.root == ROOT + (Ref(1) + ROOT_END)
  }

  lemma FramedIsRead(f: Format, b: Bytes, p: nat, number: nat, content: Bytes)
    requires Readable(f) && f.ObjectOffset(b, number) == Some(p) && At(b, p, f.Framed(number, content))
    ensures Content(f, b, number) == Some(p + |Decimal(number)| + |f.afterNumber|)
    ensures At(b, p + |Decimal(number)| + |f.afterNumber|, content)
  {
    AtSplit3(b, p, Decimal(number), f.afterNumber, content + f.afterObject);
    AtSplit(b, p + |Decimal(number)| + |f.afterNumber|, content, f.afterObject);
    DecimalIsRead(b, p, number, f.afterNumber);
  }

  /** `b` is the file of the objects, and its offsets fit their ten digits. */
  predicate IsFile(f: Format, b: Bytes, objects: seq<Object>) {
    Readable(f) && b == f.File(RenderAll(objects)) && |f.Bodies(RenderAll(objects))| < Pow10(10)
  }

  lemma ObjectIsFound(f: Format, b: Bytes, objects: seq<Object>, number: nat, o: Object) returns (q: nat)
    requires IsFile(f, b, objects) && LeadsTo(objects, number, o)
    ensures Readable(f) && f.ObjectOffset(b, number) == Some(q) && At(b, q, f.Framed(number, Render(o)))
  {
    hide Render, At;
    f.EveryObjectIsFound(RenderAll(objects), number);
    q := f.ObjectOffset(b, number).value;
  }

  /** Every reference of a document leads the reader to the object meant. */
  lemma ContentIsFound(f: Format, b: Bytes, objects: seq<Object>, number: nat, o: Object) returns (p: nat)
    requires IsFile(f, b, objects) && LeadsTo(objects, number, o)
    ensures Content(f, b, number) == Some(p) && At(b, p, Render(o))
  {
    hide Render, At, Content, RenderAll, IsFile, Readable;
    var q := ObjectIsFound(f, b, objects, number, o);
    FramedIsRead(f, b, q, number, Render(o));
    p := q + |Decimal(number)| + |f.afterNumber|;
  }

  // ---------- the trailer ----------

  const ROOT: Bytes := " /Root "
  const ROOT_END: Bytes := " >>\n"

  /** The trailer follows the last entry of the table. */
  function TrailerAt(f: Format, b: Bytes): Option<nat> {
    match f.StartXref(b)
    case None => None
    case Some(xref) =>
      match f.TableAt(b, xref)
      case None => None
      case Some((first, count)) => Some(first + 20 * count)
  }

  function RootOf(f: Format, b: Bytes): Option<nat> {
    match TrailerAt(f, b)
    case None => None
    case Some(p) =>
      match NumberAfter(b, p, f.size)
      case None => None
      case Some(Found(_, q)) =>
        match RefAfter(b, q, ROOT)
        case None => None
        case Some(Found(root, _)) => Some(root)
  }

  lemma TrailerIsFound(f: Format, b: Bytes, objects: seq<Bytes>) returns (p: nat)
    requires f.Good() && b == f.File(objects) && |f.Bodies(objects)| < Pow10(10)
    ensures TrailerAt(f, b) == Some(p) && At(b, p, f.size + (Decimal(|objects| + 1) + f.root))
  {
    var count, xref := |objects| + 1, |f.Bodies(objects)|;
    var middle, front := f.Table(count, f.Entries(objects)), f.size + (Decimal(count) + f.root);
    var last := f.LastLines(xref);
    TrailerBehindTable(b, f.Bodies(objects), middle, front, last);
    f.EntriesLength(objects);
    p := TableEnds(f, b, xref, count, f.Entries(objects));
  }

  lemma TrailerBehindTable(b: Bytes, bodies: Bytes, middle: Bytes, front: Bytes, last: Bytes)
    requires b == bodies + (middle + (front + last))
    ensures At(b, |bodies|, middle) && At(b, |bodies| + |middle|, front)
    ensures |last| <= |b| && At(b, |b| - |last|, last)
  {
    hide At;
    FileParts(b, bodies, middle, front, last);
    AtBoth(b, bodies, middle + (front + last));
    AtSplit3(b, |bodies|, middle, front, last);
  }

  lemma TableEnds(f: Format, b: Bytes, xref: nat, count: nat, entries: Bytes) returns (p: nat)
    requires f.Good() && At(b, xref, f.Table(count, entries)) && |entries| + 20 == 20 * count
    requires var last := f.LastLines(xref); |last| <= |b| && At(b, |b| - |last|, last)
    ensures TrailerAt(f, b) == Some(p) && p == xref + |f.Table(count, entries)|
  {
    DecimalValue(xref);
    DecimalValue(count);
    f.FindsStart(b, |b| - |f.LastLines(xref)|, Decimal(xref));
    f.FindsTable(b, xref, Decimal(count), f.free + entries);
    p := xref + |f.table| + |Decimal(count)| + |f.afterCount| + 20 * count;
  }

  lemma RootIsFound(f: Format, b: Bytes, objects: seq<Object>)
    requires IsFile(f, b, objects)
    ensures RootOf(f, b) == Some(1)
  {
    hide At, TrailerAt, RenderAll, NumberAfter, RefAfter, Decimal;
    var count := |objects| + 1;
    var p := TrailerIsFound(f, b, RenderAll(objects));
    RootIsRead(f, b, p, count);
  }

  lemma RootIsRead(f: Format, b: Bytes, p: nat, count: nat)
    requires Readable(f) && TrailerAt(f, b) == Some(p) && At(b, p, f.size + (Decimal(count) + f.root))
    ensures RootOf(f, b) == Some(1)
  {
    hide At, TrailerAt, NumberAfter, RefAfter, Ref;
    NumberIsRead(b, p, f.size, count, f.root);
    RefIsRead(b, p + |f.size| + |Decimal(count)|, ROOT, 1, ROOT_END);
  }

  lemma PdfIsReadable()
    ensures Readable(PDF)
  {
    PdfIsGood();
    assert Decimal(1) == "1";
  }

  // ---------- the page tree ----------

  function ReadKids(b: Bytes, p: nat): Option<seq<nat>>
    decreases |b| - p
  {
    if At(b, p, COUNT) then Some([])
    else
      match RefAfter(b, p, [])
      case None => None
      case Some(Found(n, q)) =>
        if !At(b, q, " ") then None
        else
          match ReadKids(b, q + 1)
          case None => None
          case Some(rest) => Some([n] + rest)
  }

  lemma {:induction false} KidsAreRead(b: Bytes, p: nat, numbers: seq<nat>, rest: Bytes)
    requires At(b, p, Kids(numbers) + (COUNT + rest))
    ensures ReadKids(b, p) == Some(numbers)
    decreases |numbers|
  {
    hide At, RefAfter, Ref;
    AtSplit(b, p, Kids(numbers), COUNT + rest);
    if numbers == [] {
      AtSplit(b, p, COUNT, rest);
    } else {
      var first, others := Ref(numbers[0]), Kids(numbers[1..]);
      NotYetCount(b, p, numbers[0], " " + others);
      AtSplit3(b, p, first, " ", others);
      RefIsRead(b, p, [], numbers[0], " " + others);
      MoreKids(b, p + |first| + 1, others, COUNT + rest);
      KidsAreRead(b, p + |first| + 1, numbers[1..], rest);
      assert [numbers[0]] + numbers[1..] == numbers;
    }
  }

  lemma NotYetCount(b: Bytes, p: nat, n: nat, rest: Bytes)
    requires At(b, p, Ref(n) + rest)
    ensures !At(b, p, COUNT)
  {
    AtSplit(b, p, Ref(n), rest);
    AtSplit(b, p, Decimal(n), REFERENCE);
    assert Decimal(n)[0] == b[p + 0] && IsDigit(Decimal(n)[0]);
    assert COUNT[0] == ']';
  }

  lemma MoreKids(b: Bytes, p: nat, kids: Bytes, rest: Bytes)
    requires At(b, p, kids) && At(b, p + |kids|, rest)
    ensures At(b, p, kids + rest)
  {
  }

  // ---------- pages ----------

  /** The text a content stream shows. */
  function TextShown(data: Bytes): Option<Bytes> {
    if !At(data, 0, SHOW) then None
    else
      match Read(data[|SHOW|..], 0)
      case None => None
      case Some(l) => if l.rest == SHOWN then Some(l.text) else None
  }

  /** The stream at `p`: as many bytes as its length says, and its end behind them. */
  function StreamAt(b: Bytes, p: nat): Option<Bytes> {
    match NumberAfter(b, p, "<< " + LENGTH)
    case None => None
    case Some(Found(n, q)) =>
      var start := q + |STREAM|;
      if At(b, q, STREAM) && start + n <= |b| && At(b, start + n, END_STREAM) then Some(b[start..start + n]) else None
  }

  /** The number of the page's content stream, behind its parent and its font. */
  function ContentsOf(b: Bytes, p: nat): Option<nat> {
    match RefAfter(b, p, PARENT)
    case None => None
    case Some(Found(_, q)) =>
      match RefAfter(b, q, FONT)
      case None => None
      case Some(Found(_, r)) =>
        match RefAfter(b, r, CONTENTS)
        case None => None
        case Some(Found(contents, _)) => Some(contents)
  }

  function TextOf(f: Format, b: Bytes, page: nat): Option<Bytes> {
    match Content(f, b, page)
    case None => None
    case Some(p) =>
      match ContentsOf(b, p)
      case None => None
      case Some(contents) =>
        match Content(f, b, contents)
        case None => None
        case Some(q) =>
          match StreamAt(b, q)
          case None => None
          case Some(data) => TextShown(data)
  }

  function TextsOf(f: Format, b: Bytes, pages: seq<nat>): Option<seq<Bytes>> {
    if pages == [] then Some([])
    else
      match TextOf(f, b, pages[0])
      case None => None
      case Some(text) =>
        match TextsOf(f, b, pages[1..])
        case None => None
        case Some(rest) => Some([text] + rest)
  }

  /** The pages of a file, by their numbers. */
  function PageNumbers(f: Format, b: Bytes): Option<seq<nat>> {
    match RootOf(f, b)
    case None => None
    case Some(root) =>
      match Content(f, b, root)
      case None => None
      case Some(p) =>
        match RefAfter(b, p, PAGES)
        case None => None
        case Some(Found(tree, _)) =>
          match Content(f, b, tree)
          case None => None
          case Some(q) => if At(b, q, TREE) then ReadKids(b, q + |TREE|) else None
  }

  /** The texts of all pages, in order. */
  function ReadTexts(f: Format, b: Bytes): Option<seq<Bytes>> {
    match PageNumbers(f, b)
    case None => None
    case Some(pages) => TextsOf(f, b, pages)
  }

  // ---------- the reader recovers what was written ----------

  lemma ShownIsRead(text: Bytes)
    ensures TextShown(Shown(text)) == Some(NormalizeEol(text))
  {
    var rest := Escape(text) + ([CLOSE] + SHOWN);
    ReadsEscaped(text, SHOWN);
    AtBoth(SHOW + rest, SHOW, rest);
    assert Shown(text)[|SHOW|..] == rest;
  }

  lemma StreamIsRead(b: Bytes, p: nat, data: Bytes)
    requires At(b, p, Stream([], data))
    ensures StreamAt(b, p) == Some(data)
  {
    var head, tail := "<< " + LENGTH, STREAM + (data + END_STREAM);
    assert Stream([], data) == head + (Decimal(|data|) + tail);
    NumberIsRead(b, p, head, |data|, tail);
    var q := p + |head| + |Decimal(|data|)|;
    AtSplit3(b, q, STREAM, data, END_STREAM);
    assert b[q + |STREAM|..q + |STREAM| + |data|] == data;
  }

  lemma PageIsRead(b: Bytes, p: nat, parent: nat, font: nat, contents: nat)
    requires At(b, p, Render(TextPage(parent, font, contents)))
    ensures ContentsOf(b, p) == Some(contents)
  {
    hide At, RefAfter, Ref;
    var q := p + |PARENT| + |Ref(parent)|;
    var r := q + |FONT| + |Ref(font)|;
    RefIsRead(b, p, PARENT, parent, FONT + (Ref(font) + (CONTENTS + (Ref(contents) + END))));
    RefIsRead(b, q, FONT, font, CONTENTS + (Ref(contents) + END));
    RefIsRead(b, r, CONTENTS, contents, END);
  }

  lemma TextIsRead(f: Format, b: Bytes, objects: seq<Object>, page: nat, text: Bytes)
    requires IsFile(f, b, objects) && TextPageLinked(objects, page, text)
    ensures TextOf(f, b, page) == Some(NormalizeEol(text))
  {
    hide IsFile, Content, ContentsOf, StreamAt, TextShown, At, Stream, Shown, NormalizeEol;
    var o := objects[page - 1];
    var p := ContentIsFound(f, b, objects, page, o);
    PageIsRead(b, p, o.parent, o.font, o.contents);
    var q := ContentIsFound(f, b, objects, o.contents, Text(text));
    StreamIsRead(b, q, Shown(text));
    ShownIsRead(text);
  }

  function NormalizeAll(texts: seq<Bytes>): (r: seq<Bytes>)
    ensures |r| == |texts| && forall i | 0 <= i < |r| :: r[i] == NormalizeEol(texts[i])
  {
    seq(|texts|, i requires 0 <= i < |texts| => NormalizeEol(texts[i]))
  }

  lemma {:induction false} TextsAreRead(f: Format, b: Bytes, objects: seq<Object>, kids: seq<nat>, pages: seq<Bytes>)
    requires IsFile(f, b, objects) && |kids| == |pages|
    requires forall i | 0 <= i < |pages| :: TextPageLinked(objects, kids[i], pages[i])
    ensures TextsOf(f, b, kids) == Some(NormalizeAll(pages))
    decreases |kids|
  {
    hide IsFile, TextOf, TextPageLinked, NormalizeEol;
    if kids != [] {
      TextIsRead(f, b, objects, kids[0], pages[0]);
      TextsAreRead(f, b, objects, kids[1..], pages[1..]);
      assert NormalizeAll(pages) == [NormalizeEol(pages[0])] + NormalizeAll(pages[1..]);
    }
  }

  lemma TreeIsRead(b: Bytes, p: nat, kids: seq<nat>)
    requires At(b, p, Render(PageTree(kids)))
    ensures At(b, p, TREE) && ReadKids(b, p + |TREE|) == Some(kids)
  {
    var rest := Decimal(|kids|) + END;
    AtSplit(b, p, TREE, Kids(kids) + (COUNT + rest));
    KidsAreRead(b, p + |TREE|, kids, rest);
  }

  lemma CatalogIsRead(b: Bytes, p: nat, pages: nat)
    requires At(b, p, Render(Catalog(pages)))
    ensures RefAfter(b, p, PAGES).Some? && RefAfter(b, p, PAGES).value.number == pages
  {
    RefIsRead(b, p, PAGES, pages, END);
  }

  lemma PagesAreFound(f: Format, b: Bytes, objects: seq<Object>, kids: seq<nat>, pages: nat)
    requires IsFile(f, b, objects) && RootLinked(objects, kids, pages)
    ensures PageNumbers(f, b) == Some(kids)
  {
    hide IsFile, RootOf, Content, RefAfter, At, ReadKids, Render;
    RootIsFound(f, b, objects);
    var p := ContentIsFound(f, b, objects, 1, Catalog(2));
    CatalogIsRead(b, p, 2);
    var q := ContentIsFound(f, b, objects, 2, PageTree(kids));
    TreeIsRead(b, q, kids);
  }

  lemma {:induction false} NormalizedAreGiven(texts: seq<Bytes>)
    ensures NormalizeAll(texts) == texts <==> forall i | 0 <= i < |texts| :: CR !in texts[i]
  {
    forall i | 0 <= i < |texts| ensures NormalizeEol(texts[i]) == texts[i] <==> CR !in texts[i] {
      NormalizedHasNoCr(texts[i]);
      if CR !in texts[i] { NormalizeKeeps(texts[i]); }
    }
    if NormalizeAll(texts) == texts {
      assert forall i | 0 <= i < |texts| :: NormalizeAll(texts)[i] == texts[i];
    }
  }

  /**
   From the bytes of a text document alone a reader gets the texts of all its pages, in order, with line ends as a
   literal string has them; exactly as given if and only if none of them holds a carriage return.
   */
  lemma TextDocumentRoundTrip(f: Format, b: Bytes, objects: seq<Object>, kids: seq<nat>, pages: seq<Bytes>)
    requires IsFile(f, b, objects) && TextLinked(objects, kids, pages)
    ensures ReadTexts(f, b) == Some(NormalizeAll(pages))
    ensures ReadTexts(f, b) == Some(pages) <==> forall i | 0 <= i < |pages| :: CR !in pages[i]
  {
    hide IsFile, PageNumbers, TextsOf, NormalizeAll, TextPageLinked;
    PagesAreFound(f, b, objects, kids, |pages|);
    TextsAreRead(f, b, objects, kids, pages);
    NormalizedAreGiven(pages);
  }

  /** What the writer of text documents returns is read back, as long as ten digits can hold every offset in it. */
  lemma TextPdfIsReadBack(pdf: Bytes, objects: seq<Object>, kids: seq<nat>, pages: seq<Bytes>)
    requires pdf == PDF.File(RenderAll(objects)) && TextLinked(objects, kids, pages) && |pdf| < Pow10(10)
    ensures ReadTexts(PDF, pdf) == Some(NormalizeAll(pages))
    ensures ReadTexts(PDF, pdf) == Some(pages) <==> forall i | 0 <= i < |pages| :: CR !in pages[i]
  {
    hide Readable, IsFile, ReadTexts, NormalizeAll, TextLinked;
    PdfIsReadable();
    FileFits(PDF, pdf, objects);
    TextDocumentRoundTrip(PDF, pdf, objects, kids, pages);
  }

  lemma FileFits(f: Format, b: Bytes, objects: seq<Object>)
    requires Readable(f) && b == f.File(RenderAll(objects)) && |b| < Pow10(10)
    ensures IsFile(f, b, objects)
  {
  }
}

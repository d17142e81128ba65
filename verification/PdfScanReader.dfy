/**
 A reader of scanned documents: from the end of the file to every page, the image drawn on it, its size and its pixels.
 It recovers what the writer was given.
 */
module PdfScanReader {

  import opened PdfFile
  import opened PdfLiteral
  import opened PdfDocument
  import opened PdfReader
  import opened Wrappers

  /** What a page says: its size, and the numbers of its image and of its content stream. */
  datatype Page = Page(width: nat, height: nat, image: nat, contents: nat)

  function PageAt(b: Bytes, p: nat): Option<Page> {
    PageBetween(b, p, "<< /Type /Page /Parent ", " /MediaBox [0 0 ", " ", "] /Resources << /XObject << /Im1 ",
                " >> >> /Contents ")
  }

  function PageBetween(b: Bytes, p: nat, parent: Bytes, box: Bytes, space: Bytes, inner: Bytes, end: Bytes)
    : Option<Page>
  {
    match RefAfter(b, p, parent)
    case None => None
    case Some(Found(_, q)) =>
      match NumberAfter(b, q, box)
      case None => None
      case Some(Found(width, r)) =>
        match NumberAfter(b, r, space)
        case None => None
        case Some(Found(height, t)) =>
          match RefAfter(b, t, inner)
          case None => None
          case Some(Found(image, u)) =>
            match RefAfter(b, u, end)
            case None => None
            case Some(Found(contents, _)) => Some(Page(width, height, image, contents))
  }

  /** The image at `p`: its size, and as many bytes of pixels as its length says. */
  function ImageAt(b: Bytes, p: nat): Option<Scan> {
    ImageBetween(b, p, "<< /Type /XObject /Subtype /Image /Width ", " /Height ",
                 " /ColorSpace /DeviceRGB /BitsPerComponent 8 /Length ")
  }

  function ImageBetween(b: Bytes, p: nat, one: Bytes, two: Bytes, three: Bytes): Option<Scan> {
    match NumberAfter(b, p, one)
    case None => None
    case Some(Found(width, q)) =>
      match NumberAfter(b, q, two)
      case None => None
      case Some(Found(height, r)) =>
        match NumberAfter(b, r, three)
        case None => None
        case Some(Found(n, t)) =>
          var start := t + |STREAM|;
          if At(b, t, STREAM) && start + n <= |b| && At(b, start + n, END_STREAM)
          then Some(Scan(width, height, b[start..start + n]))
          else None
  }

  /** The size to which a content stream stretches the image. */
  function DrawnSize(data: Bytes): Option<(nat, nat)> {
    SizeBetween(data, "q ", " 0 0 ", " 0 0 cm /Im1 Do Q")
  }

  function SizeBetween(data: Bytes, one: Bytes, two: Bytes, last: Bytes): Option<(nat, nat)> {
    match NumberAfter(data, 0, one)
    case None => None
    case Some(Found(width, p)) =>
      match NumberAfter(data, p, two)
      case None => None
      case Some(Found(height, q)) => if q <= |data| && data[q..] == last then Some((width, height)) else None
  }

  /** The scan on a page, if its image covers the page exactly. */
  function ScanOf(f: Format, b: Bytes, number: nat): Option<Scan> {
    match Content(f, b, number)
    case None => None
    case Some(p) =>
      match PageAt(b, p)
      case None => None
      case Some(Page(width, height, image, contents)) =>
        match (Content(f, b, image), Content(f, b, contents))
        case (Some(q), Some(r)) =>
          (match (ImageAt(b, q), StreamAt(b, r))
           case (Some(scan), Some(data)) =>
             if DrawnSize(data) == Some((width, height)) && scan.width == width && scan.height == height then Some(scan)
             else None
           case (_, _) => None)
        case (_, _) => None
  }

  function ScansOf(f: Format, b: Bytes, pages: seq<nat>): Option<seq<Scan>> {
    if pages == [] then Some([])
    else
      match ScanOf(f, b, pages[0])
      case None => None
      case Some(scan) =>
        match ScansOf(f, b, pages[1..])
        case None => None
        case Some(rest) => Some([scan] + rest)
  }

  /** The scans of all pages, in order. */
  function ReadScans(f: Format, b: Bytes): Option<seq<Scan>> {
    match PageNumbers(f, b)
    case None => None
    case Some(pages) => ScansOf(f, b, pages)
  }

  // ---------- the reader recovers what was written ----------

  predicate StopsNumber(s: Bytes) {
    s != [] && !IsDigit(s[0])
  }

  lemma PageIsRead(b: Bytes, p: nat, parent: nat, scan: Scan, image: nat, contents: nat)
    requires At(b, p, Render(ScanPage(parent, scan, image, contents)))
    ensures PageAt(b, p) == Some(Page(scan.width, scan.height, image, contents))
  {
    hide At, PageBetween, Ref, Decimal;
    PageIsBetween(b, p, PARENT, MEDIA, " ", XOBJECT, CONTENTS, END, parent, scan, image, contents);
  }

  lemma PageIsBetween(b: Bytes, p: nat, one: Bytes, box: Bytes, space: Bytes, inner: Bytes, end: Bytes, last: Bytes,
                      parent: nat, scan: Scan, image: nat, contents: nat)
    requires StopsNumber(space) && StopsNumber(inner)
    requires At(b, p, one + (Ref(parent) + (box + (Decimal(scan.width) + (space + (Decimal(scan.height)
                      + (inner + (Ref(image) + (end + (Ref(contents) + last))))))))))
    ensures PageBetween(b, p, one, box, space, inner, end) == Some(Page(scan.width, scan.height, image, contents))
  {
    hide At, RefAfter, NumberAfter, Ref, Decimal;
    var four := inner + (Ref(image) + (end + (Ref(contents) + last)));
    var three := space + (Decimal(scan.height) + four);
    RefIsRead(b, p, one, parent, box + (Decimal(scan.width) + three));
    var q := p + |one| + |Ref(parent)|;
    NumberIsRead(b, q, box, scan.width, three);
    var r := q + |box| + |Decimal(scan.width)|;
    NumberIsRead(b, r, space, scan.height, four);
    var t := r + |space| + |Decimal(scan.height)|;
    RefIsRead(b, t, inner, image, end + (Ref(contents) + last));
    RefIsRead(b, t + |inner| + |Ref(image)|, end, contents, last);
  }

  lemma ImageIsRead(b: Bytes, p: nat, scan: Scan)
    requires At(b, p, Render(Image(scan)))
    ensures ImageAt(b, p) == Some(scan)
  {
    hide At, ImageBetween, Decimal, Render;
    ImageParts(scan);
    ImageText();
    ColorsText();
    assert HEIGHT[0] == ' ' && (COLORS + LENGTH)[0] == COLORS[0];
    ImageIsBetween(b, p, "<< " + IMAGE, HEIGHT, COLORS + LENGTH, scan);
  }

  lemma ImageIsBetween(b: Bytes, p: nat, one: Bytes, two: Bytes, three: Bytes, scan: Scan)
    requires StopsNumber(two) && StopsNumber(three)
    requires At(b, p, one + (Decimal(scan.width) + (two + (Decimal(scan.height)
                      + (three + (Decimal(|scan.pixels|) + (STREAM + (scan.pixels + END_STREAM))))))))
    ensures ImageBetween(b, p, one, two, three) == Some(scan)
  {
    hide At, NumberAfter, Decimal;
    var n := |scan.pixels|;
    var end := STREAM + (scan.pixels + END_STREAM);
    NumberIsRead(b, p, one, scan.width, two + (Decimal(scan.height) + (three + (Decimal(n) + end))));
    var q := p + |one| + |Decimal(scan.width)|;
    NumberIsRead(b, q, two, scan.height, three + (Decimal(n) + end));
    var r := q + |two| + |Decimal(scan.height)|;
    NumberIsRead(b, r, three, n, end);
    PixelsAreRead(b, r + |three| + |Decimal(n)|, scan.pixels);
  }

  lemma ImageText()
    ensures "<< " + IMAGE == "<< /Type /XObject /Subtype /Image /Width "
  {
  }

  lemma ColorsText()
    ensures COLORS + LENGTH == " /ColorSpace /DeviceRGB /BitsPerComponent 8 /Length "
  {
  }

  lemma PixelsAreRead(b: Bytes, t: nat, pixels: Bytes)
    requires At(b, t, STREAM + (pixels + END_STREAM))
    ensures var start, end := t + |STREAM|, t + |STREAM| + |pixels|;
            At(b, t, STREAM) && end <= |b| && At(b, end, END_STREAM) && b[start..end] == pixels
  {
    AtSplit3(b, t, STREAM, pixels, END_STREAM);
    IsSlice(b, t + |STREAM|, pixels);
  }

  lemma IsSlice(b: Bytes, p: nat, s: Bytes)
    requires At(b, p, s)
    ensures p + |s| <= |b| && b[p..p + |s|] == s
  {
  }

  lemma ImageParts(scan: Scan)
    ensures Render(Image(scan)) ==
            ("<< " + IMAGE) + (Decimal(scan.width) + (HEIGHT + (Decimal(scan.height)
            + ((COLORS + LENGTH) + (Decimal(|scan.pixels|) + (STREAM + (scan.pixels + END_STREAM)))))))
  {
    hide Decimal;
    var w, h, rest := Decimal(scan.width), Decimal(scan.height),
                      Decimal(|scan.pixels|) + (STREAM + (scan.pixels + END_STREAM));
    Regroup("<< ", IMAGE, w, HEIGHT, h, COLORS, LENGTH, rest);
  }

  lemma Regroup(a: Bytes, b: Bytes, c: Bytes, d: Bytes, e: Bytes, f: Bytes, g: Bytes, h: Bytes)
    ensures a + ((b + (c + (d + (e + f)))) + (g + h)) == (a + b) + (c + (d + (e + ((f + g) + h))))
  {
  }

  lemma DrawingIsRead(scan: Scan)
    ensures DrawnSize("q " + (Decimal(scan.width) + (" 0 0 " + (Decimal(scan.height) + " 0 0 cm /Im1 Do Q"))))
         == Some((scan.width, scan.height))
  {
    hide SizeBetween, Decimal, At;
    var w, h, last := Decimal(scan.width), Decimal(scan.height), " 0 0 cm /Im1 Do Q";
    var data := "q " + (w + (" 0 0 " + (h + last)));
    WholeIsThere(data);
    SizeIsRead(data, scan, "q ", " 0 0 ", last);
  }

  lemma SizeIsRead(data: Bytes, scan: Scan, one: Bytes, two: Bytes, last: Bytes)
    requires StopsNumber(two) && StopsNumber(last)
    requires At(data, 0, one + (Decimal(scan.width) + (two + (Decimal(scan.height) + last))))
    requires |data| == |one| + |Decimal(scan.width)| + |two| + |Decimal(scan.height)| + |last|
    ensures SizeBetween(data, one, two, last) == Some((scan.width, scan.height))
  {
    hide At, NumberAfter, Decimal;
    NumberIsRead(data, 0, one, scan.width, two + (Decimal(scan.height) + last));
    var p := |one| + |Decimal(scan.width)|;
    NumberIsRead(data, p, two, scan.height, last);
    IsSlice(data, p + |two| + |Decimal(scan.height)|, last);
  }

  lemma WholeIsThere(b: Bytes)
    ensures At(b, 0, b)
  {
  }

  lemma ScanIsRead(f: Format, b: Bytes, objects: seq<Object>, number: nat, scan: Scan)
    requires IsFile(f, b, objects) && ScanPageLinked(objects, number, scan)
    ensures ScanOf(f, b, number) == Some(scan)
  {
    hide IsFile, Content, PageAt, ImageAt, StreamAt, DrawnSize, At, Stream, Decimal;
    var o := objects[number - 1];
    var p := ContentIsFound(f, b, objects, number, o);
    PageIsRead(b, p, o.parent, scan, o.image, o.contents);
    var q := ContentIsFound(f, b, objects, o.image, Image(scan));
    ImageIsRead(b, q, scan);
    var r := ContentIsFound(f, b, objects, o.contents, Draw(scan));
    StreamIsRead(b, r, "q " + (Decimal(scan.width) + (" 0 0 " + (Decimal(scan.height) + " 0 0 cm /Im1 Do Q"))));
    DrawingIsRead(scan);
  }

  lemma {:induction false} ScansAreRead(f: Format, b: Bytes, objects: seq<Object>, kids: seq<nat>, pages: seq<Scan>)
    requires IsFile(f, b, objects) && |kids| == |pages|
    requires forall i | 0 <= i < |pages| :: ScanPageLinked(objects, kids[i], pages[i])
    ensures ScansOf(f, b, kids) == Some(pages)
    decreases |kids|
  {
    hide IsFile, ScanOf, ScanPageLinked;
    if kids != [] {
      ScanIsRead(f, b, objects, kids[0], pages[0]);
      ScansAreRead(f, b, objects, kids[1..], pages[1..]);
      assert pages == [pages[0]] + pages[1..];
    }
  }

  /** From the bytes of a scanned document alone a reader gets every page's size and pixels, in order. */
  lemma ScanPdfIsReadBack(pdf: Bytes, objects: seq<Object>, kids: seq<nat>, pages: seq<Scan>)
    requires pdf == PDF.File(RenderAll(objects)) && ScanLinked(objects, kids, pages) && |pdf| < Pow10(10)
    ensures ReadScans(PDF, pdf) == Some(pages)
  {
    hide Readable, IsFile, PageNumbers, ScansOf, ScanPageLinked;
    PdfIsReadable();
    FileFits(PDF, pdf, objects);
    PagesAreFound(PDF, pdf, objects, kids, |pages|);
    ScansAreRead(PDF, pdf, objects, kids, pages);
  }
}

/** The two kinds of fixture document: the numbering of their objects, and where each reference leads. */
module PdfDocument {

  import opened PdfLiteral
  import opened PdfFile
  import opened Wrappers

  /** What `_scan_pixels` makes of a page: the drawing itself is not part of this model. */
  datatype Scan = Scan(width: nat, height: nat, pixels: Bytes)

  /** The objects of a document; the numbers are the ones their `N 0 R` references carry. */
  datatype Object =
    | Catalog(pages: nat)
    | PageTree(kids: seq<nat>)
    | TextPage(parent: nat, font: nat, contents: nat)
    | ScanPage(parent: nat, scan: Scan, image: nat, contents: nat)
    | Text(text: Bytes)
    | Image(scan: Scan)
    | Draw(scan: Scan)
    | Font

  // The fixed texts of a document, between its numbers and contents.
  const PAGES: Bytes := "<< /Type /Catalog /Pages "
  const TREE: Bytes := "<< /Type /Pages /Kids ["
  const COUNT: Bytes := "] /Count "
  const PARENT: Bytes := "<< /Type /Page /Parent "
  const FONT: Bytes := " /MediaBox [0 0 612 792] /Resources << /Font << /F1 "
  const CONTENTS: Bytes := " >> >> /Contents "
  const END: Bytes := " >>"
  const LENGTH: Bytes := "/Length "
  const STREAM: Bytes := " >>\nstream\n"
  const END_STREAM: Bytes := "\nendstream"
  const SHOW: Bytes := "BT /F1 12 Tf 54 720 Td ("
  const SHOWN: Bytes := " Tj ET"
  const REFERENCE: Bytes := " 0 R"
  const MEDIA: Bytes := " /MediaBox [0 0 "
  const XOBJECT: Bytes := "] /Resources << /XObject << /Im1 "
  const IMAGE: Bytes := "/Type /XObject /Subtype /Image /Width "
  const HEIGHT: Bytes := " /Height "
  const COLORS: Bytes := " /ColorSpace /DeviceRGB /BitsPerComponent 8 "

  function Ref(number: nat): Bytes {
    Decimal(number) + REFERENCE
  }

  function Kids(numbers: seq<nat>): Bytes {
    if numbers == [] then [] else Ref(numbers[0]) + (" " + Kids(numbers[1..]))
  }

  function Stream(dictionary: Bytes, data: Bytes): Bytes {
    "<< " + (dictionary + (LENGTH + (Decimal(|data|) + (STREAM + (data + END_STREAM)))))
  }

  function Shown(text: Bytes): Bytes {
    SHOW + (Escape(text) + ([CLOSE] + SHOWN))
  }

  function Render(o: Object): Bytes {
    match o
    case Catalog(pages) => PAGES + (Ref(pages) + END)
    case PageTree(kids) => TREE + (Kids(kids) + (COUNT + (Decimal(|kids|) + END)))
    case TextPage(parent, font, contents) =>
      PARENT + (Ref(parent) + (FONT + (Ref(font) + (CONTENTS + (Ref(contents) + END)))))
    case ScanPage(parent, scan, image, contents) =>
      PARENT + (Ref(parent) + (MEDIA + (Decimal(scan.width) + (" " + (Decimal(scan.height)
      + (XOBJECT + (Ref(image) + (CONTENTS + (Ref(contents) + END)))))))))
    case Text(text) => Stream([], Shown(text))
    case Image(scan) =>
      Stream(IMAGE + (Decimal(scan.width) + (HEIGHT + (Decimal(scan.height) + COLORS))), scan.pixels)
    case Draw(scan) =>
      Stream([], "q " + (Decimal(scan.width) + (" 0 0 " + (Decimal(scan.height) + " 0 0 cm /Im1 Do Q"))))
    case Font => "<< /Type /Font /Subtype /Type1 /BaseFont /Helvetica /Encoding /WinAnsiEncoding >>"
  }

  function RenderAll(objects: seq<Object>): (r: seq<Bytes>)
    ensures |r| == |objects| && forall i | 0 <= i < |r| :: r[i] == Render(objects[i])
  {
    seq(|objects|, i requires 0 <= i < |objects| => Render(objects[i]))
  }

  /** The reference `number` leads to `o`. */
  predicate LeadsTo(objects: seq<Object>, number: nat, o: Object) {
    1 <= number <= |objects| && objects[number - 1] == o
  }

  predicate TextPageLinked(objects: seq<Object>, number: nat, text: Bytes) {
    && 1 <= number <= |objects| && objects[number - 1].TextPage?
    && var page := objects[number - 1];
       page.parent == 2 && LeadsTo(objects, page.font, Font) && LeadsTo(objects, page.contents, Text(text))
  }

  predicate ScanPageLinked(objects: seq<Object>, number: nat, scan: Scan) {
    && 1 <= number <= |objects| && objects[number - 1].ScanPage?
    && var page := objects[number - 1];
       && page.parent == 2 && page.scan == scan
       && LeadsTo(objects, page.image, Image(scan)) && LeadsTo(objects, page.contents, Draw(scan))
  }

  /** The catalog leads to the page tree, and the tree has one kid per page. */
  predicate RootLinked(objects: seq<Object>, kids: seq<nat>, pages: nat) {
    LeadsTo(objects, 1, Catalog(2)) && LeadsTo(objects, 2, PageTree(kids)) && |kids| == pages
  }

  /** A text document: every kid is the page of its own text, in order. */
  predicate TextLinked(objects: seq<Object>, kids: seq<nat>, pages: seq<Bytes>) {
    RootLinked(objects, kids, |pages|) && forall i | 0 <= i < |pages| :: TextPageLinked(objects, kids[i], pages[i])
  }

  predicate ScanLinked(objects: seq<Object>, kids: seq<nat>, pages: seq<Scan>) {
    RootLinked(objects, kids, |pages|) && forall i | 0 <= i < |pages| :: ScanPageLinked(objects, kids[i], pages[i])
  }

  function KidNumbers(pages: nat, step: nat): (kids: seq<nat>)
    ensures |kids| == pages && forall i | 0 <= i < pages :: kids[i] == 3 + i * step
  {
    seq(pages, i => 3 + i * step)
  }

  predicate TextPair(list: seq<Object>, k: nat, font: nat, text: Bytes) {
    4 + 2 * k <= |list| && list[2 + 2 * k] == TextPage(2, font, 4 + 2 * k) && list[3 + 2 * k] == Text(text)
  }

  predicate ScanTriple(list: seq<Object>, k: nat, scan: Scan) {
    && 5 + 3 * k <= |list| && list[2 + 3 * k] == ScanPage(2, scan, 4 + 3 * k, 5 + 3 * k)
    && list[3 + 3 * k] == Image(scan) && list[4 + 3 * k] == Draw(scan)
  }

  method TextObjects(pages: seq<Bytes>) returns (list: seq<Object>, kids: seq<nat>)
    ensures TextLinked(list, kids, pages)
  {
    kids := KidNumbers(|pages|, 2);
    var font := 3 + |pages| * 2;
    list := [Catalog(2), PageTree(kids)];
    for i := 0 to |pages|
      invariant |list| == 2 + 2 * i && list[0] == Catalog(2) && list[1] == PageTree(kids)
      invariant forall k | 0 <= k < i :: TextPair(list, k, font, pages[k])
    {
      var page := 3 + i * 2;
      list := list + [TextPage(2, font, page + 1), Text(pages[i])];
      assert TextPair(list, i, font, pages[i]);
    }
    list := list + [Font];
    forall k | 0 <= k < |pages| ensures TextPageLinked(list, kids[k], pages[k]) {
      assert TextPair(list, k, font, pages[k]);
    }
  }

  method TextPdf(pages: seq<Bytes>) returns (pdf: Bytes, objects: seq<Object>, kids: seq<nat>)
    ensures pdf == PDF.File(RenderAll(objects)) && TextLinked(objects, kids, pages)
  {
    var list, numbers := TextObjects(pages);
    objects, kids := list, numbers;
    pdf := PDF.Write(RenderAll(list));
  }

  method ScanObjects(pages: seq<Scan>) returns (list: seq<Object>, kids: seq<nat>)
    ensures ScanLinked(list, kids, pages)
  {
    kids := KidNumbers(|pages|, 3);
    list := [Catalog(2), PageTree(kids)];
    for i := 0 to |pages|
      invariant |list| == 2 + 3 * i && list[0] == Catalog(2) && list[1] == PageTree(kids)
      invariant forall k | 0 <= k < i :: ScanTriple(list, k, pages[k])
    {
      var page := 3 + i * 3;
      list := list + [ScanPage(2, pages[i], page + 1, page + 2), Image(pages[i]), Draw(pages[i])];
      assert ScanTriple(list, i, pages[i]);
    }
    forall k | 0 <= k < |pages| ensures ScanPageLinked(list, kids[k], pages[k]) {
      assert ScanTriple(list, k, pages[k]);
    }
  }

  method ScanPdf(pages: seq<Scan>) returns (pdf: Bytes, objects: seq<Object>, kids: seq<nat>)
    ensures pdf == PDF.File(RenderAll(objects)) && ScanLinked(objects, kids, pages)
  {
    var list, numbers := ScanObjects(pages);
    objects, kids := list, numbers;
    pdf := PDF.Write(RenderAll(list));
  }

  /** In the file itself, following a reference through the cross-reference table reaches the object meant. */
  lemma ReferenceResolves(objects: seq<Object>, number: nat, o: Object)
    requires LeadsTo(objects, number, o) && |PDF.Bodies(RenderAll(objects))| < Pow10(10)
    ensures var pdf := PDF.File(RenderAll(objects));
            && PDF.ObjectOffset(pdf, number).Some?
            && At(pdf, PDF.ObjectOffset(pdf, number).value, PDF.Framed(number, Render(o)))
  {
    PdfIsGood();
    PDF.EveryObjectIsFound(RenderAll(objects), number);
  }
}

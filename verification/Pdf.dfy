/**
 The PDF writer of the report (src/report.rs). Output is a string of bytes: each character stands for the byte
 with its code.
 */
module Pdf {
  import opened Wrappers
  import opened Texts
  import opened RowIds

  type U16 = x: int | 0 <= x < 0x1_0000
  type U8 = x: int | 0 <= x < 0x100
  type PositiveU8 = x: int | 0 < x < 0x100 witness 1

  /** A line height of zero would divide by zero in `lines_per_page`. */
  datatype Settings = Settings(
    pageWidth: U16, pageHeight: U16, leftMargin: U16, topBaseline: U16, bottomMargin: U16,
    fontResource: string, baseFont: string, fontSize: U8, lineHeight: PositiveU8)

  const DEFAULT := Settings(612, 792, 72, 760, 72, "F1", "Helvetica", 10, 14)

  const FIXED_OBJECT_COUNT: nat := 3
  const OBJECTS_PER_PAGE: nat := 2
  const FIRST_PAGE_OBJECT: nat := 4
  const CONTENT_OBJECT_OFFSET: nat := 1

  // ----- UTF-8

  function ByteChar(n: int): char
    requires 0 <= n < 0x100
  {
    n as char
  }

  function Encoded(c: char): (r: string)
    ensures |r| == Width(c) && forall i :: 0 <= i < |r| ==> r[i] as int < 0x100
    ensures c as int >= 0x80 ==> forall i :: 0 <= i < |r| ==> r[i] as int >= 0x80
  {
    var n := c as int;
    if n < 0x80 then [c]
    else if n < 0x800 then [ByteChar(0xc0 + n / 0x40), ByteChar(0x80 + n % 0x40)]
    else if n < 0x1_0000 then
      [ByteChar(0xe0 + n / 0x1000), ByteChar(0x80 + n / 0x40 % 0x40), ByteChar(0x80 + n % 0x40)]
    else
      [ByteChar(0xf0 + n / 0x4_0000), ByteChar(0x80 + n / 0x1000 % 0x40), ByteChar(0x80 + n / 0x40 % 0x40),
       ByteChar(0x80 + n % 0x40)]
  }

  function Utf8(s: string): string {
    if |s| == 0 then "" else Encoded(s[0]) + Utf8(s[1..])
  }

  // ----- the content of a page

  /** `char::is_control` */
  predicate IsControl(c: char) {
    c as int < 0x20 || 0x7f <= c as int < 0xa0
  }

  function EscapedChar(c: char): string {
    if c == '(' || c == ')' || c == '\\' then "\\" + [c]
    else if c == '\n' then "\\n"
    else if c == '\r' then "\\r"
    else if c == '\t' then "\\t"
    else if c == '\U{08}' then "\\b"
    else if c == '\U{0c}' then "\\f"
    else if IsControl(c) then " "
    else Encoded(c)
  }

  function Escaped(s: string): string {
    if |s| == 0 then "" else Escaped(s[..|s| - 1]) + EscapedChar(s[|s| - 1])
  }

  function EscapedCharLen(c: char): (n: nat)
    ensures n == |EscapedChar(c)|
  {
    if c in ['(', ')', '\\', '\n', '\r', '\t', '\U{08}', '\U{0c}'] then 2
    else if IsControl(c) then 1
    else Width(c)
  }

  function ContentStart(s: Settings): string {
    "BT\n/" + (Utf8(s.fontResource) + (" " + (Digits(s.fontSize) + (" Tf\n"
    + (Digits(s.leftMargin) + (" " + (Digits(s.topBaseline) + " Td\n")))))))
  }

  function AfterLine(s: Settings): string {
    ") Tj\n0 -" + (Digits(s.lineHeight) + " Td\n")
  }

  function LineTexts(lines: seq<string>, s: Settings): string {
    if |lines| == 0 then ""
    else LineTexts(lines[..|lines| - 1], s) + ("(" + (Escaped(lines[|lines| - 1]) + AfterLine(s)))
  }

  function PageContent(lines: seq<string>, s: Settings): string {
    ContentStart(s) + (LineTexts(lines, s) + "ET\n")
  }

  method EscapedPdfTextLen(raw: string) returns (n: nat)
    ensures n == |Escaped(raw)|
  {
    n := 0;
    for i := 0 to |raw|
      invariant n == |Escaped(raw[..i])|
    {
      assert raw[..i + 1][..i] == raw[..i];
      n := n + EscapedCharLen(raw[i]);
    }
    assert raw[..|raw|] == raw;
  }

  /** The length of a page's content, computed without writing it. */
  method PageContentLen(lines: seq<string>, s: Settings) returns (length: nat)
    ensures length == |PageContent(lines, s)|
  {
    length := |ContentStart(s)|;
    for i := 0 to |lines|
      invariant length == |ContentStart(s)| + |LineTexts(lines[..i], s)|
    {
      assert lines[..i + 1][..i] == lines[..i];
      length := length + 1;
      var text := EscapedPdfTextLen(lines[i]);
      length := length + text;
      length := length + |AfterLine(s)|;
    }
    assert lines[..|lines|] == lines;
    length := length + |"ET\n"|;
  }

  // ----- pagination

  function LinesPerPage(s: Settings): nat {
    var usable := if s.topBaseline < s.bottomMargin then 0 else s.topBaseline - s.bottomMargin;
    usable / s.lineHeight + 1
  }

  function Chunks(lines: seq<string>, n: nat): seq<seq<string>>
    requires n > 0
  {
    if |lines| <= n then [lines] else [lines[..n]] + Chunks(lines[n..], n)
  }

  /** At least one page, even without lines. */
  function PaginateLines(lines: seq<string>, s: Settings): seq<seq<string>> {
    Chunks(lines, LinesPerPage(s))
  }

  // ----- object numbers

  function CheckedAdd(a: nat, b: nat): Option<nat> {
    if a + b <= USIZE_MAX then Some(a + b) else None
  }

  function CheckedMul(a: nat, b: nat): Option<nat> {
    if a * b <= USIZE_MAX then Some(a * b) else None
  }

  function PdfObjectCount(pageCount: nat): Option<nat> {
    match CheckedMul(pageCount, OBJECTS_PER_PAGE)
    case None => None
    case Some(objects) => CheckedAdd(FIXED_OBJECT_COUNT, objects)
  }

  function PageObjectNumber(index: nat): Option<nat> {
    match CheckedMul(index, OBJECTS_PER_PAGE)
    case None => None
    case Some(offset) => CheckedAdd(FIRST_PAGE_OBJECT, offset)
  }

  function ContentObjectNumber(index: nat): Option<nat> {
    match PageObjectNumber(index)
    case None => None
    case Some(page) => CheckedAdd(page, CONTENT_OBJECT_OFFSET)
  }

  /** The number of the page object of a page, where it fits a `usize`. */
  function PageObject(index: nat): nat {
    FIRST_PAGE_OBJECT + OBJECTS_PER_PAGE * index
  }

  lemma NumbersFit(pageCount: nat, index: nat)
    requires index < pageCount && PdfObjectCount(pageCount).Some?
    ensures PageObjectNumber(index) == Some(PageObject(index))
    ensures ContentObjectNumber(index) == Some(PageObject(index) + 1)
  {
  }

  // ----- the file

  const HEADER := "%PDF-1.4\n"
  const CATALOG := "<< /Type /Catalog /Pages 2 0 R >>\n"

  function Reference(index: nat): string {
    Digits(PageObject(index)) + " 0 R"
  }

  function Kids(pageCount: nat): string {
    if pageCount == 0 then ""
    else Kids(pageCount - 1) + ((if pageCount > 1 then " " else "") + Reference(pageCount - 1))
  }

  function PageTree(pageCount: nat): string {
    "<< /Type /Pages /Kids [" + (Kids(pageCount) + ("] /Count " + (Digits(pageCount) + " >>\n")))
  }

  function Font(s: Settings): string {
    "<< /Type /Font /Subtype /Type1 /BaseFont /" + (Utf8(s.baseFont) + " >>\n")
  }

  function PageDictionary(contentObject: nat, s: Settings): string {
    ("<< /Type /Page /Parent 2 0 R /MediaBox [0 0 " + (Digits(s.pageWidth) + (" " + (Digits(s.pageHeight)
    + ("] /Resources << /Font << /" + (Utf8(s.fontResource) + (" 3 0 R >> >> /Contents "
    + (Digits(contentObject) + " 0 R >>")))))))) + "\n"
  }

  function StreamStart(length: nat): string {
    "<< /Length " + (Digits(length) + " >>\nstream\n")
  }

  function Content(lines: seq<string>, s: Settings): string {
    StreamStart(|PageContent(lines, s)|) + (PageContent(lines, s) + "endstream\n")
  }

  /** The bodies of the page and content objects, two for each page. */
  function PageBodies(pages: seq<seq<string>>, s: Settings): (r: seq<string>)
    ensures |r| == 2 * |pages|
  {
    if |pages| == 0 then []
    else
      var n := |pages| - 1;
      PageBodies(pages[..n], s) + [PageDictionary(PageObject(n) + 1, s), Content(pages[n], s)]
  }

  /** The bodies of all objects; object `k` has body `k - 1`. */
  function Bodies(pages: seq<seq<string>>, s: Settings): seq<string> {
    [CATALOG, PageTree(|pages|), Font(s)] + PageBodies(pages, s)
  }

  function ObjectHead(number: nat): string {
    Digits(number) + " 0 obj\n"
  }

  function ObjectText(number: nat, body: string): string {
    ObjectHead(number) + (body + "endobj\n")
  }

  function Objects(bodies: seq<string>): string {
    if |bodies| == 0 then ""
    else Objects(bodies[..|bodies| - 1]) + ObjectText(|bodies|, bodies[|bodies| - 1])
  }

  /** Where objects begin: object `k` at entry `k`; entry 0 is for no object. */
  function Offsets(bodies: seq<string>): (r: seq<nat>)
    ensures |r| == |bodies| + 1
  {
    [0] + seq(|bodies|, k requires 0 <= k < |bodies| => |HEADER| + |Objects(bodies[..k])|)
  }

  /** `{:010}` */
  function Padded(n: nat): string {
    var d := Digits(n);
    (if |d| < 10 then seq(10 - |d|, _ => '0') else "") + d
  }

  function Entry(offset: nat): string {
    Padded(offset) + " 00000 n \n"
  }

  function Entries(offsets: seq<nat>): string {
    if |offsets| == 0 then "" else Entries(offsets[..|offsets| - 1]) + Entry(offsets[|offsets| - 1])
  }

  const FREE_ENTRY := "0000000000 65535 f \n"

  function XrefHead(count: nat): string {
    "xref\n0 " + (Digits(count) + "\n")
  }

  function Trailer(count: nat, xrefOffset: nat): string {
    "trailer\n<< /Size " + (Digits(count) + (" /Root 1 0 R >>\nstartxref\n" + (Digits(xrefOffset) + "\n%%EOF\n")))
  }

  function PdfText(bodies: seq<string>): string {
    var objects, offsets := HEADER + Objects(bodies), Offsets(bodies);
    objects + (XrefHead(|offsets|) + (FREE_ENTRY + (Entries(offsets[1..]) + Trailer(|offsets|, |objects|))))
  }

  // ----- the writer

  /** Counts the bytes that went to its sink. */
  class CountingWriter {
    var sink: string
    var offset: nat

    ghost predicate Valid()
      reads this
    {
      offset == |sink|
    }

    constructor ()
      ensures Valid() && sink == ""
    {
      sink, offset := "", 0;
    }

    method WriteBytes(value: string)
      requires Valid()
      modifies this
      ensures Valid() && sink == old(sink) + value
    {
      sink := sink + value;
      offset := offset + |value|;
    }

    method WriteChar(c: char)
      requires Valid()
      modifies this
      ensures Valid() && sink == old(sink) + Encoded(c)
    {
      WriteBytes(Encoded(c));
    }

    method WriteEscapedChar(c: char)
      requires Valid()
      modifies this
      ensures Valid() && sink == old(sink) + EscapedChar(c)
    {
      if c == '(' || c == ')' || c == '\\' {
        WriteBytes("\\");
        WriteChar(c);
        Assoc(old(sink), "\\", [c]);
      } else if c == '\n' {
        WriteBytes("\\n");
      } else if c == '\r' {
        WriteBytes("\\r");
      } else if c == '\t' {
        WriteBytes("\\t");
      } else if c == '\U{08}' {
        WriteBytes("\\b");
      } else if c == '\U{0c}' {
        WriteBytes("\\f");
      } else if IsControl(c) {
        WriteBytes(" ");
      } else {
        WriteChar(c);
      }
    }

    method WriteEscapedPdfText(raw: string)
      requires Valid()
      modifies this
      ensures Valid() && sink == old(sink) + Escaped(raw)
    {
      hide EscapedChar;
      for i := 0 to |raw|
        invariant Valid() && sink == old(sink) + Escaped(raw[..i])
      {
        assert raw[..i + 1][..i] == raw[..i];
        WriteEscapedChar(raw[i]);
        Assoc(old(sink), Escaped(raw[..i]), EscapedChar(raw[i]));
      }
      assert raw[..|raw|] == raw;
    }

    method WritePageContent(lines: seq<string>, s: Settings)
      requires Valid()
      modifies this
      ensures Valid() && sink == old(sink) + PageContent(lines, s)
    {
      hide ContentStart, AfterLine, Escaped;
      WriteBytes(ContentStart(s));
      for i := 0 to |lines|
        invariant Valid() && sink == old(sink) + (ContentStart(s) + LineTexts(lines[..i], s))
      {
        assert lines[..i + 1][..i] == lines[..i];
        ghost var before := sink;
        WriteBytes("(");
        WriteEscapedPdfText(lines[i]);
        WriteBytes(AfterLine(s));
        assert sink == before + ("(" + (Escaped(lines[i]) + AfterLine(s)));
        assert sink == old(sink) + (ContentStart(s) + LineTexts(lines[..i + 1], s));
      }
      assert lines[..|lines|] == lines;
      WriteBytes("ET\n");
      assert sink == old(sink) + PageContent(lines, s);
    }

    /** What goes before an object's body: its offset is recorded, its head written. */
    method BeginObject(offsets: seq<nat>, number: nat) returns (after: seq<nat>)
      requires Valid()
      modifies this
      ensures Valid() && sink == old(sink) + ObjectHead(number)
      ensures after == offsets + [|old(sink)|]
    {
      after := offsets + [offset];
      WriteBytes(ObjectHead(number));
    }

    method EndObject()
      requires Valid()
      modifies this
      ensures Valid() && sink == old(sink) + "endobj\n"
    {
      WriteBytes("endobj\n");
    }
  }

  // ----- writing the file

  lemma ObjectsStep(bodies: seq<string>, body: string)
    ensures Objects(bodies + [body]) == Objects(bodies) + ObjectText(|bodies| + 1, body)
  {
    hide ObjectText;
    assert (bodies + [body])[..|bodies|] == bodies;
  }

  lemma OffsetsStep(bodies: seq<string>, body: string)
    ensures Offsets(bodies + [body]) == Offsets(bodies) + [|HEADER + Objects(bodies)|]
  {
    hide Objects;
    var more := bodies + [body];
    assert more[..|bodies|] == bodies;
    forall k | 0 <= k < |bodies| ensures more[..k] == bodies[..k] { }
  }

  lemma ObjectAppended(bodies: seq<string>, body: string, sink: string)
    requires sink == HEADER + Objects(bodies)
    ensures sink + ObjectHead(|bodies| + 1) + body + "endobj\n" == HEADER + Objects(bodies + [body])
    ensures Offsets(bodies) + [|sink|] == Offsets(bodies + [body])
  {
    hide ObjectHead, Objects, Offsets;
    var head := ObjectHead(|bodies| + 1);
    ObjectsStep(bodies, body);
    OffsetsStep(bodies, body);
    Assoc(sink + head, body, "endobj\n");
    Assoc(sink, head, body + "endobj\n");
    Assoc(HEADER, Objects(bodies), ObjectText(|bodies| + 1, body));
  }

  lemma NoObjects()
    ensures HEADER + Objects([]) == HEADER && Offsets([]) == [0]
  {
  }

  lemma KidsStep(index: nat)
    ensures Kids(index + 1)
         == Kids(index) + ((if index > 0 then " " else "") + Reference(index))
  {
  }

  method WriteKids(writer: CountingWriter, pageCount: nat) returns (ok: bool)
    requires writer.Valid() && PdfObjectCount(pageCount).Some?
    modifies writer
    ensures ok && writer.Valid() && writer.sink == old(writer.sink) + Kids(pageCount)
  {
    hide Kids, Digits;
    assert Kids(0) == "" by { NoKids(); }
    for index := 0 to pageCount
      invariant writer.Valid() && writer.sink == old(writer.sink) + Kids(index)
    {
      KidsStep(index);
      NumbersFit(pageCount, index);
      ghost var before := writer.sink;
      if index > 0 {
        writer.WriteBytes(" ");
      }
      var number := PageObjectNumber(index);
      if number == None {
        return false;
      }
      writer.WriteBytes(Digits(number.value) + " 0 R");
      assert writer.sink == before + ((if index > 0 then " " else "") + Reference(index));
    }
    return true;
  }

  lemma NoKids()
    ensures Kids(0) == ""
  {
  }

  /** An object whose body is one text. */
  method WriteObject(writer: CountingWriter, offsets: seq<nat>, ghost bodies: seq<string>, number: nat, body: string)
    returns (after: seq<nat>)
    requires writer.Valid() && writer.sink == HEADER + Objects(bodies) && offsets == Offsets(bodies)
    requires number == |bodies| + 1
    modifies writer
    ensures writer.Valid()
    ensures writer.sink == HEADER + Objects(bodies + [body]) && after == Offsets(bodies + [body])
  {
    hide Objects, Offsets, ObjectHead;
    ObjectAppended(bodies, body, writer.sink);
    after := writer.BeginObject(offsets, number);
    writer.WriteBytes(body);
    writer.EndObject();
  }

  method WritePageTree(writer: CountingWriter, offsets: seq<nat>, ghost bodies: seq<string>, pageCount: nat)
    returns (ok: bool, after: seq<nat>)
    requires writer.Valid() && writer.sink == HEADER + Objects(bodies) && offsets == Offsets(bodies)
    requires |bodies| == 1 && PdfObjectCount(pageCount).Some?
    modifies writer
    ensures ok && writer.Valid()
    ensures writer.sink == HEADER + Objects(bodies + [PageTree(pageCount)])
    ensures after == Offsets(bodies + [PageTree(pageCount)])
  {
    hide Objects, Offsets, ObjectHead, Kids, Digits;
    ObjectAppended(bodies, PageTree(pageCount), writer.sink);
    after := writer.BeginObject(offsets, 2);
    ghost var before := writer.sink;
    writer.WriteBytes("<< /Type /Pages /Kids [");
    ok := WriteKids(writer, pageCount);
    writer.WriteBytes("] /Count " + (Digits(pageCount) + " >>\n"));
    assert writer.sink == before + PageTree(pageCount);
    writer.EndObject();
  }

  /** The fixed objects: catalogue, page tree and font. */
  method WriteFixedObjects(writer: CountingWriter, pageCount: nat, s: Settings) returns (ok: bool, offsets: seq<nat>)
    requires writer.Valid() && writer.sink == HEADER && PdfObjectCount(pageCount).Some?
    modifies writer
    ensures ok && writer.Valid()
    ensures writer.sink == HEADER + Objects([CATALOG, PageTree(pageCount), Font(s)])
    ensures offsets == Offsets([CATALOG, PageTree(pageCount), Font(s)])
  {
    hide Objects, Offsets, PageTree, Font;
    NoObjects();
    offsets := [0];
    offsets := WriteObject(writer, offsets, [], 1, CATALOG);
    assert [] + [CATALOG] == [CATALOG];
    ok, offsets := WritePageTree(writer, offsets, [CATALOG], pageCount);
    assert [CATALOG] + [PageTree(pageCount)] == [CATALOG, PageTree(pageCount)];
    offsets := WriteObject(writer, offsets, [CATALOG, PageTree(pageCount)], 3, Font(s));
    assert [CATALOG, PageTree(pageCount)] + [Font(s)] == [CATALOG, PageTree(pageCount), Font(s)];
  }

  /** The two objects of one page. */
  method WritePage(writer: CountingWriter, offsets: seq<nat>, ghost bodies: seq<string>, lines: seq<string>,
                   pageObject: nat, contentObject: nat, s: Settings) returns (after: seq<nat>)
    requires writer.Valid() && writer.sink == HEADER + Objects(bodies) && offsets == Offsets(bodies)
    requires pageObject == |bodies| + 1 && contentObject == |bodies| + 2
    modifies writer
    ensures writer.Valid()
    ensures writer.sink == HEADER + Objects(bodies + [PageDictionary(contentObject, s), Content(lines, s)])
    ensures after == Offsets(bodies + [PageDictionary(contentObject, s), Content(lines, s)])
  {
    hide Objects, Offsets, ObjectHead, PageContent, PageDictionary, StreamStart;
    var page := PageDictionary(contentObject, s);
    after := WriteObject(writer, offsets, bodies, pageObject, page);

    ObjectAppended(bodies + [page], Content(lines, s), writer.sink);
    after := writer.BeginObject(after, contentObject);
    ghost var before := writer.sink;
    var length := PageContentLen(lines, s);
    writer.WriteBytes(StreamStart(length));
    writer.WritePageContent(lines, s);
    writer.WriteBytes("endstream\n");
    assert writer.sink == before + Content(lines, s);
    writer.EndObject();
    assert bodies + [page] + [Content(lines, s)] == bodies + [page, Content(lines, s)];
  }

  /** Cross-reference table and trailer. */
  method WriteXref(writer: CountingWriter, offsets: seq<nat>)
    requires writer.Valid() && |offsets| > 0
    modifies writer
    ensures writer.Valid()
    ensures writer.sink
         == old(writer.sink) + (XrefHead(|offsets|) + (FREE_ENTRY
            + (Entries(offsets[1..]) + Trailer(|offsets|, |old(writer.sink)|))))
  {
    hide Entry, Trailer, XrefHead;
    var xrefOffset := writer.offset;
    writer.WriteBytes(XrefHead(|offsets|));
    writer.WriteBytes(FREE_ENTRY);
    var table := offsets[1..];
    ghost var start := writer.sink;
    for i := 0 to |table|
      invariant writer.Valid() && writer.sink == start + Entries(table[..i])
    {
      assert table[..i + 1][..i] == table[..i];
      writer.WriteBytes(Entry(table[i]));
    }
    assert table[..|table|] == table;
    writer.WriteBytes(Trailer(|offsets|, xrefOffset));
  }

  lemma PageBodiesStep(pages: seq<seq<string>>, i: nat, s: Settings)
    requires i < |pages|
    ensures PageBodies(pages[..i + 1], s)
         == PageBodies(pages[..i], s) + [PageDictionary(PageObject(i) + 1, s), Content(pages[i], s)]
  {
    assert pages[..i + 1][..i] == pages[..i];
  }

  /** Writes the report, unless its object numbers do not fit a `usize`. */
  method WritePdf(writer: CountingWriter, lines: seq<string>, s: Settings) returns (ok: bool)
    requires writer.Valid() && writer.sink == ""
    modifies writer
    ensures ok <==> PdfObjectCount(|PaginateLines(lines, s)|).Some?
    ensures writer.sink == if ok then PdfText(Bodies(PaginateLines(lines, s), s)) else ""
  {
    hide Objects, Offsets, PageBodies, PageDictionary, Content, PageTree, Font, Entries, XrefHead, Trailer, Chunks;
    var pages := PaginateLines(lines, s);
    if PdfObjectCount(|pages|) == None {
      return false;
    }
    writer.WriteBytes(HEADER);
    var fixed, offsets := WriteFixedObjects(writer, |pages|, s);
    ghost var first := [CATALOG, PageTree(|pages|), Font(s)];
    assert first + PageBodies(pages[..0], s) == first;
    for i := 0 to |pages|
      invariant writer.Valid()
      invariant writer.sink == HEADER + Objects(first + PageBodies(pages[..i], s))
      invariant offsets == Offsets(first + PageBodies(pages[..i], s))
    {
      NumbersFit(|pages|, i);
      PageBodiesStep(pages, i, s);
      var pageObject, contentObject := PageObjectNumber(i), ContentObjectNumber(i);
      if pageObject == None || contentObject == None {
        return false;
      }
      ghost var bodies := first + PageBodies(pages[..i], s);
      assert |bodies| + 1 == pageObject.value;
      offsets := WritePage(writer, offsets, bodies, pages[i], pageObject.value, contentObject.value, s);
      assert bodies + [PageDictionary(PageObject(i) + 1, s), Content(pages[i], s)]
          == first + PageBodies(pages[..i + 1], s);
    }
    assert pages[..|pages|] == pages;
    WriteXref(writer, offsets);
    return true;
  }
}

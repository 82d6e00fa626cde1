/**
 The report read back from its bytes: from `startxref` through the cross-reference table and the trailer to the
 catalogue, the page tree (section 7.7 of ISO 32000-1), the pages and their content streams.
 */
module PdfReader {
  import opened Wrappers
  import opened Texts
  import opened Pdf
  import opened PdfStreams
  import opened PdfObjects
  import opened PdfFile

  // ----- the reader

  /** The value of a key of a dictionary. */
  function Lookup(entries: seq<Entry>, key: string): Option<PdfObject> {
    if |entries| == 0 then None
    else if entries[0].0 == key then Some(entries[0].1)
    else Lookup(entries[1..], key)
  }

  /** The dictionary at the start of a text, and what follows it. */
  function DictionaryAt(s: string): Option<(seq<Entry>, string)> {
    match ParseObject(s)
    case Some((Dictionary(entries), rest)) => Some((entries, rest))
    case _ => None
  }

  /** What stands behind `k 0 obj`, at the position the cross-reference table gives for object `k`. */
  function ObjectAt(pdf: string, r: PdfObject): Option<string> {
    if !r.Indirect? || r.generation != 0 then None
    else match XrefOffset(pdf, r.number)
      case None => None
      case Some(o) =>
        var head := ObjectHead(r.number);
        if At(pdf, o, head) then Some(pdf[o + |head|..]) else None
  }

  function DictionaryOf(pdf: string, r: PdfObject): Option<seq<Entry>> {
    match ObjectAt(pdf, r)
    case None => None
    case Some(text) =>
      match DictionaryAt(text)
      case None => None
      case Some((entries, rest)) => Some(entries)
  }

  /** The dictionary an entry of a dictionary refers to, if it has the type asked for. */
  function Follow(pdf: string, entries: seq<Entry>, key: string, kind: string): Option<seq<Entry>> {
    match Lookup(entries, key)
    case None => None
    case Some(r) =>
      match DictionaryOf(pdf, r)
      case None => None
      case Some(target) => if Lookup(target, "Type") == Some(Named(kind)) then Some(target) else None
  }

  /** The trailer dictionary behind the cross-reference table; it repeats the number of entries. */
  function TrailerOf(pdf: string): Option<seq<Entry>> {
    match XrefTable(pdf)
    case None => None
    case Some((start, count)) =>
      var t := start + 20 * count;
      if !At(pdf, t, "trailer\n") then None
      else match DictionaryAt(pdf[t + 8..])
        case None => None
        case Some((entries, rest)) => if Lookup(entries, "Size") == Some(Integer(count)) then Some(entries) else None
  }

  const STREAM := "\nstream\n"

  /** A stream: as many bytes as its dictionary's `/Length` says, with `endstream` behind them. */
  function StreamOf(pdf: string, r: PdfObject): Option<string> {
    match ObjectAt(pdf, r)
    case None => None
    case Some(text) =>
      match DictionaryAt(text)
      case None => None
      case Some((entries, rest)) =>
        match Lookup(entries, "Length")
        case Some(Integer(n)) =>
          if At(rest, 0, STREAM) && At(rest, |STREAM| + n, "endstream\n") then Some(rest[|STREAM|..|STREAM| + n])
          else None
        case _ => None
  }

  /** The texts a page shows. */
  function PageTexts(pdf: string, page: PdfObject): Option<seq<string>> {
    match DictionaryOf(pdf, page)
    case None => None
    case Some(entries) =>
      if Lookup(entries, "Type") != Some(Named("Page")) then None
      else match Lookup(entries, "Contents")
        case None => None
        case Some(r) =>
          match StreamOf(pdf, r)
          case None => None
          case Some(stream) => Some(TextsShown(ShownBy(stream, [], START)))
  }

  function TextsOf(pdf: string, pages: seq<PdfObject>): Option<seq<string>> {
    if |pages| == 0 then Some([])
    else match PageTexts(pdf, pages[0])
      case None => None
      case Some(texts) =>
        match TextsOf(pdf, pages[1..])
        case None => None
        case Some(more) => Some(texts + more)
  }

  /** The pages of a file: the `/Kids` of the page tree, whose `/Count` is their number. */
  function PagesOf(pdf: string): Option<seq<PdfObject>> {
    match TrailerOf(pdf)
    case None => None
    case Some(trailer) =>
      match Follow(pdf, trailer, "Root", "Catalog")
      case None => None
      case Some(catalog) =>
        match Follow(pdf, catalog, "Pages", "Pages")
        case None => None
        case Some(tree) =>
          match Lookup(tree, "Kids")
          case Some(List(kids)) => if Lookup(tree, "Count") == Some(Integer(|kids|)) then Some(kids) else None
          case _ => None
  }

  /** Every text the pages of a file show, in order. */
  function ReadReport(pdf: string): Option<seq<string>> {
    match PagesOf(pdf)
    case None => None
    case Some(pages) => TextsOf(pdf, pages)
  }

  // ----- the dictionaries the writer writes

  function CatalogEntries(): seq<Entry> {
    [("Type", Named("Catalog")), ("Pages", Indirect(2, 0))]
  }

  function Kid(index: nat): PdfObject {
    Indirect(PageObject(index), 0)
  }

  function KidsOf(first: nat, count: nat): (r: seq<PdfObject>)
    ensures |r| == count
    decreases count
  {
    if count == 0 then [] else [Kid(first)] + KidsOf(first + 1, count - 1)
  }

  function TreeEntries(count: nat): seq<Entry> {
    [("Type", Named("Pages")), ("Kids", List(KidsOf(0, count))), ("Count", Integer(count))]
  }

  function MediaBox(s: Settings): PdfObject {
    List([Integer(0), Integer(0), Integer(s.pageWidth), Integer(s.pageHeight)])
  }

  function Resources(s: Settings): PdfObject {
    Dictionary([("Font", Dictionary([(Utf8(s.fontResource), Indirect(3, 0))]))])
  }

  function PageEntries(contents: nat, s: Settings): seq<Entry> {
    [("Type", Named("Page")), ("Parent", Indirect(2, 0)), ("MediaBox", MediaBox(s)), ("Resources", Resources(s)),
     ("Contents", Indirect(contents, 0))]
  }

  function StreamEntries(length: nat): seq<Entry> {
    [("Length", Integer(length))]
  }

  function TrailerEntries(count: nat): seq<Entry> {
    [("Size", Integer(count)), ("Root", Indirect(1, 0))]
  }

  // ----- their texts

  lemma ZeroGeneration(n: nat)
    ensures Written(Indirect(n, 0)) == Digits(n) + " 0 R"
  {
    assert Digits(0) == "0";
    assert " " + ("0" + " R") == " 0 R";
  }

  lemma OneEntry(a: Entry)
    ensures Written(Dictionary([a])) == "<< " + (WrittenEntry(a) + " >>")
  {
    hide WrittenEntry;
    LastEntry(a);
    Assoc("<<", " ", WrittenEntry(a) + " >>");
  }

  lemma LastEntry(a: Entry)
    ensures WrittenEntries([a]) == " " + (WrittenEntry(a) + " >>")
  {
    hide WrittenEntry;
    assert [a][1..] == [];
  }

  lemma TwoEntries(a: Entry, b: Entry)
    ensures WrittenEntries([a, b]) == " " + (WrittenEntry(a) + (" " + (WrittenEntry(b) + " >>")))
    ensures Written(Dictionary([a, b])) == "<< " + (WrittenEntry(a) + (" " + (WrittenEntry(b) + " >>")))
  {
    hide WrittenEntry;
    LastEntry(b);
    assert [a, b][1..] == [b];
    Assoc("<<", " ", WrittenEntry(a) + (" " + (WrittenEntry(b) + " >>")));
  }

  lemma ThreeEntries(a: Entry, b: Entry, c: Entry)
    ensures WrittenEntries([a, b, c])
         == " " + (WrittenEntry(a) + (" " + (WrittenEntry(b) + (" " + (WrittenEntry(c) + " >>")))))
    ensures Written(Dictionary([a, b, c]))
         == "<< " + (WrittenEntry(a) + (" " + (WrittenEntry(b) + (" " + (WrittenEntry(c) + " >>")))))
  {
    hide WrittenEntry;
    TwoEntries(b, c);
    assert [a, b, c][1..] == [b, c];
    Assoc("<<", " ", WrittenEntry(a) + (" " + (WrittenEntry(b) + (" " + (WrittenEntry(c) + " >>")))));
  }

  lemma CatalogIsWritten()
    ensures CATALOG == Written(Dictionary(CatalogEntries())) + "\n"
  {
    hide WrittenEntry, WrittenEntries, Written;
    TwoEntries(("Type", Named("Catalog")), ("Pages", Indirect(2, 0)));
    CatalogTexts();
  }

  lemma CatalogTexts()
    ensures WrittenEntry(("Type", Named("Catalog"))) == "/Type /Catalog"
    ensures WrittenEntry(("Pages", Indirect(2, 0))) == "/Pages 2 0 R"
  {
    ZeroGeneration(2);
    OneDigit();
  }

  lemma TrailerIsWritten(count: nat, x: nat)
    ensures Trailer(count, x)
         == "trailer\n" + (Written(Dictionary(TrailerEntries(count)))
                           + ("\nstartxref\n" + (Digits(x) + "\n%%EOF\n")))
  {
    hide Digits, WrittenEntry, WrittenEntries, Written;
    var a, b: Entry := ("Size", Integer(count)), ("Root", Indirect(1, 0));
    TwoEntries(a, b);
    TrailerTexts(count);
    TrailerText(Digits(count), "\nstartxref\n" + (Digits(x) + "\n%%EOF\n"));
    Assoc(" /Root 1 0 R >>", "\nstartxref\n", Digits(x) + "\n%%EOF\n");
  }

  lemma TrailerTexts(count: nat)
    ensures " " + (WrittenEntry(("Root", Indirect(1, 0))) + " >>") == " /Root 1 0 R >>"
    ensures WrittenEntry(("Size", Integer(count))) == "/Size " + Digits(count)
  {
    hide Digits;
    ZeroGeneration(1);
    OneDigit();
    assert WrittenEntry(("Root", Indirect(1, 0))) == "/Root 1 0 R";
    EntryText("Size", "", Digits(count));
    assert "" + Digits(count) == Digits(count);
  }

  lemma OneDigit()
    ensures Digits(1) == "1" && Digits(2) == "2" && Digits(3) == "3" && Digits(0) == "0"
  {
  }

  lemma TrailerText(d: string, end: string)
    ensures "trailer\n<< /Size " + (d + (" /Root 1 0 R >>" + end))
         == "trailer\n" + (("<< " + (("/Size " + d) + " /Root 1 0 R >>")) + end)
  {
    var last := " /Root 1 0 R >>";
    Assoc("/Size ", d, last);
    Assoc("<< ", "/Size ", d + last);
    Assoc("<< /Size ", d + last, end);
    Assoc(d, last, end);
    Assoc("trailer\n", "<< /Size ", d + (last + end));
  }

  lemma StreamStartIsWritten(length: nat)
    ensures StreamStart(length) == Written(Dictionary(StreamEntries(length))) + STREAM
  {
    hide Digits;
    var a: Entry := ("Length", Integer(length));
    var d := Digits(length);
    OneEntry(a);
    assert WrittenEntry(a) == "/Length " + d;
    Assoc("/Length ", d, " >>");
    Assoc("<< ", "/Length ", d + " >>");
    Assoc("<< /Length ", d + " >>", STREAM);
    Assoc(d, " >>", STREAM);
  }

  lemma {:induction false} KidsAreWritten(first: nat, count: nat, lead: string)
    ensures WrittenItems(KidsOf(first, count), lead)
         == (if count == 0 then "" else lead + KidsFrom(first, count)) + "]"
    decreases count
  {
    hide Digits, Written, Reference;
    if count > 0 {
      var r, more := Reference(first), KidsFrom(first + 1, count - 1);
      KidsAreWritten(first + 1, count - 1, " ");
      KidIsWritten(first);
      assert KidsOf(first, count)[1..] == KidsOf(first + 1, count - 1);
      var gap := if count > 1 then " " + more else "";
      assert Gap(count) + more == gap;
      Assoc(r, gap, "]");
      Assoc(lead, r + gap, "]");
    }
  }

  lemma KidIsWritten(index: nat)
    ensures Written(Kid(index)) == Reference(index)
  {
    ZeroGeneration(PageObject(index));
  }

  lemma TreeIsWritten(count: nat)
    requires count > 0
    ensures PageTree(count) == Written(Dictionary(TreeEntries(count))) + "\n"
  {
    hide Digits, Kids, KidsOf, WrittenItems, WrittenEntry, WrittenEntries, Written;
    var a, b, c: Entry := ("Type", Named("Pages")), ("Kids", List(KidsOf(0, count))), ("Count", Integer(count));
    ThreeEntries(a, b, c);
    TreeTexts(count);
    TreeText(Kids(count), Digits(count));
  }

  lemma TreeTexts(count: nat)
    requires count > 0
    ensures WrittenEntry(("Type", Named("Pages"))) == "/Type /Pages"
    ensures WrittenEntry(("Kids", List(KidsOf(0, count)))) == "/Kids [" + (Kids(count) + "]")
    ensures WrittenEntry(("Count", Integer(count))) == "/Count " + Digits(count)
  {
    hide Digits, Kids, KidsOf;
    KidsText(count);
    EntryText("Count", "", Digits(count));
    assert "" + Digits(count) == Digits(count);
  }

  lemma KidsText(count: nat)
    requires count > 0
    ensures WrittenEntry(("Kids", List(KidsOf(0, count)))) == "/Kids [" + (Kids(count) + "]")
  {
    hide Kids, KidsOf, WrittenItems, KidsFrom;
    KidsAreWritten(0, count, "");
    KidsAreFrom(count);
    assert "" + Kids(count) == Kids(count);
    EntryText("Kids", "[", Kids(count) + "]");
  }

  lemma TreeText(k: string, d: string)
    ensures "<< /Type /Pages /Kids [" + (k + ("] /Count " + (d + " >>\n")))
         == ("<< " + ("/Type /Pages" + (" " + (("/Kids [" + (k + "]")) + (" " + (("/Count " + d) + " >>")))))) + "\n"
  {
    var end := " " + (("/Count " + d) + " >>");
    CountText(d);
    KidsInTree(k, end);
    Assoc("<< /Type /Pages /Kids [", k + ("]" + end), "\n");
    Assoc(k, "]" + end, "\n");
  }

  lemma CountText(d: string)
    ensures ("]" + (" " + (("/Count " + d) + " >>"))) + "\n" == "] /Count " + (d + " >>\n")
  {
    Assoc("/Count ", d, " >>");
    Assoc(" ", "/Count ", d + " >>");
    Assoc("]", " /Count ", d + " >>");
    Assoc("] /Count ", d + " >>", "\n");
    Assoc(d, " >>", "\n");
  }

  lemma KidsInTree(k: string, end: string)
    ensures "<< " + ("/Type /Pages" + (" " + (("/Kids [" + (k + "]")) + end)))
         == "<< /Type /Pages /Kids [" + (k + ("]" + end))
  {
    Assoc("/Kids [", k + "]", end);
    Assoc(k, "]", end);
    Assoc(" ", "/Kids [", k + ("]" + end));
    Assoc("/Type /Pages", " /Kids [", k + ("]" + end));
    Assoc("<< ", "/Type /Pages /Kids [", k + ("]" + end));
  }

  lemma MediaBoxIsWritten(s: Settings)
    ensures Written(MediaBox(s)) == "[0 0 " + (Digits(s.pageWidth) + (" " + (Digits(s.pageHeight) + "]")))
  {
    hide Digits;
    OneDigit();
    var w, h: PdfObject := Integer(s.pageWidth), Integer(s.pageHeight);
    assert [h][1..] == [] && [w, h][1..] == [h];
    assert WrittenItems([h], " ") == " " + (Digits(s.pageHeight) + "]");
    var tail := " " + (Digits(s.pageHeight) + "]");
    assert WrittenItems([w, h], " ") == " " + (Digits(s.pageWidth) + tail);
    var zero: PdfObject := Integer(0);
    assert [zero, w, h][1..] == [w, h] && [zero, zero, w, h][1..] == [zero, w, h];
    var rest := Digits(s.pageWidth) + tail;
    assert WrittenItems([zero, w, h], " ") == " " + ("0" + (" " + rest));
    assert WrittenItems([zero, zero, w, h], "") == "" + ("0" + (" " + ("0" + (" " + rest))));
    assert "[" + ("" + ("0" + (" " + ("0" + (" " + rest))))) == "[0 0 " + rest;
  }

  lemma ResourcesAreWritten(s: Settings)
    ensures Written(Resources(s)) == "<< /Font << /" + (Utf8(s.fontResource) + " 3 0 R >> >>")
  {
    hide Digits, Utf8;
    OneDigit();
    ZeroGeneration(3);
    var f := Utf8(s.fontResource);
    var a: Entry := (f, Indirect(3, 0));
    var b: Entry := ("Font", Dictionary([a]));
    OneEntry(a);
    OneEntry(b);
    assert WrittenEntry(a) == "/" + (f + " 3 0 R") by { assert " " + "3 0 R" == " 3 0 R"; }
    FontText(f);
  }

  lemma FontText(f: string)
    ensures "<< " + (("/" + ("Font" + (" " + ("<< " + (("/" + (f + " 3 0 R")) + " >>"))))) + " >>")
         == "<< /Font << /" + (f + " 3 0 R >> >>")
  {
    assert ("/" + (f + " 3 0 R")) + " >>" == "/" + (f + " 3 0 R >>");
    assert "/" + ("Font" + (" " + ("<< " + ("/" + (f + " 3 0 R >>"))))) == "/Font << /" + (f + " 3 0 R >>");
    Assoc("/Font << /", f + " 3 0 R >>", " >>");
    Assoc(f, " 3 0 R >>", " >>");
    Assoc("<< ", "/Font << /", f + " 3 0 R >> >>");
  }

  lemma FiveEntries(a: Entry, b: Entry, c: Entry, d: Entry, e: Entry)
    ensures Written(Dictionary([a, b, c, d, e]))
         == "<< " + (WrittenEntry(a) + (" " + (WrittenEntry(b) + (" " + (WrittenEntry(c) + (" " + (WrittenEntry(d)
            + (" " + (WrittenEntry(e) + " >>")))))))))
  {
    hide WrittenEntry;
    ThreeEntries(c, d, e);
    assert [b, c, d, e][1..] == [c, d, e] && [a, b, c, d, e][1..] == [b, c, d, e];
    assert WrittenEntries([b, c, d, e]) == " " + (WrittenEntry(b) + WrittenEntries([c, d, e]));
    Assoc("<<", " ", WrittenEntry(a) + WrittenEntries([b, c, d, e]));
  }

  lemma PageIsWritten(contents: nat, s: Settings)
    ensures PageDictionary(contents, s) == Written(Dictionary(PageEntries(contents, s))) + "\n"
  {
    hide Digits, Utf8, MediaBox, Resources, Written, WrittenEntry, WrittenEntries;
    var entries := PageEntries(contents, s);
    FiveEntries(entries[0], entries[1], entries[2], entries[3], entries[4]);
    assert entries == [entries[0], entries[1], entries[2], entries[3], entries[4]];
    PageHead();
    BoxEntry(s);
    ResourcesEntry(s);
    ContentsEntry(contents);
    PageText(Digits(s.pageWidth), Digits(s.pageHeight), Utf8(s.fontResource), Digits(contents));
  }

  lemma PageHead()
    ensures WrittenEntry(("Type", Named("Page"))) == "/Type /Page"
    ensures WrittenEntry(("Parent", Indirect(2, 0))) == "/Parent 2 0 R"
  {
    OneDigit();
    ZeroGeneration(2);
  }

  lemma BoxEntry(s: Settings)
    ensures WrittenEntry(("MediaBox", MediaBox(s)))
         == "/MediaBox [0 0 " + (Digits(s.pageWidth) + (" " + (Digits(s.pageHeight) + "]")))
  {
    hide Digits, MediaBox;
    MediaBoxIsWritten(s);
    EntryText("MediaBox", "[0 0 ", Digits(s.pageWidth) + (" " + (Digits(s.pageHeight) + "]")));
  }

  lemma ResourcesEntry(s: Settings)
    ensures WrittenEntry(("Resources", Resources(s)))
         == "/Resources << /Font << /" + (Utf8(s.fontResource) + " 3 0 R >> >>")
  {
    hide Utf8, Resources;
    ResourcesAreWritten(s);
    EntryText("Resources", "<< /Font << /", Utf8(s.fontResource) + " 3 0 R >> >>");
  }

  lemma ContentsEntry(contents: nat)
    ensures WrittenEntry(("Contents", Indirect(contents, 0))) == "/Contents " + (Digits(contents) + " 0 R")
  {
    hide Digits;
    ZeroGeneration(contents);
    EntryText("Contents", "", Digits(contents) + " 0 R");
    assert "" + (Digits(contents) + " 0 R") == Digits(contents) + " 0 R";
  }

  lemma EntryText(key: string, start: string, rest: string)
    ensures "/" + (key + (" " + (start + rest))) == ("/" + key + " " + start) + rest
  {
  }

  lemma PageText(w: string, h: string, f: string, c: string)
    ensures "<< /Type /Page /Parent 2 0 R /MediaBox [0 0 " + (w + (" " + (h + ("] /Resources << /Font << /" + (f
            + (" 3 0 R >> >> /Contents " + (c + " 0 R >>")))))))
         == "<< " + ("/Type /Page" + (" " + ("/Parent 2 0 R" + (" " + (("/MediaBox [0 0 " + (w + (" " + (h + "]"))))
            + (" " + (("/Resources << /Font << /" + (f + " 3 0 R >> >>"))
            + (" " + (("/Contents " + (c + " 0 R")) + " >>")))))))))
  {
    var contents := " " + (("/Contents " + (c + " 0 R")) + " >>");
    var resources := " " + (("/Resources << /Font << /" + (f + " 3 0 R >> >>")) + contents);
    var box := " " + (("/MediaBox [0 0 " + (w + (" " + (h + "]")))) + resources);
    ContentsText(c);
    ResourcesText(f, contents);
    BoxText(w, h, resources);
    HeadText(box);
    JoinedTexts(c + " 0 R >>", f + (" 3 0 R >> >>" + contents), w + (" " + (h + ("]" + resources))));
  }

  lemma JoinedTexts(a: string, b: string, c: string)
    ensures " 3 0 R >> >>" + (" /Contents " + a) == " 3 0 R >> >> /Contents " + a
    ensures "]" + (" /Resources << /Font << /" + b) == "] /Resources << /Font << /" + b
    ensures "<< /Type /Page /Parent 2 0 R" + (" /MediaBox [0 0 " + c)
         == "<< /Type /Page /Parent 2 0 R /MediaBox [0 0 " + c
  {
    Assoc(" 3 0 R >> >>", " /Contents ", a);
    Assoc("]", " /Resources << /Font << /", b);
    Assoc("<< /Type /Page /Parent 2 0 R", " /MediaBox [0 0 ", c);
  }

  lemma ContentsText(c: string)
    ensures " " + (("/Contents " + (c + " 0 R")) + " >>") == " /Contents " + (c + " 0 R >>")
  {
    Assoc("/Contents ", c + " 0 R", " >>");
    Assoc(c, " 0 R", " >>");
    Assoc(" ", "/Contents ", c + " 0 R >>");
  }

  lemma ResourcesText(f: string, tail: string)
    ensures " " + (("/Resources << /Font << /" + (f + " 3 0 R >> >>")) + tail)
         == " /Resources << /Font << /" + (f + (" 3 0 R >> >>" + tail))
  {
    Assoc("/Resources << /Font << /", f + " 3 0 R >> >>", tail);
    Assoc(f, " 3 0 R >> >>", tail);
    Assoc(" ", "/Resources << /Font << /", f + (" 3 0 R >> >>" + tail));
  }

  lemma BoxText(w: string, h: string, tail: string)
    ensures " " + (("/MediaBox [0 0 " + (w + (" " + (h + "]")))) + tail)
         == " /MediaBox [0 0 " + (w + (" " + (h + ("]" + tail))))
  {
    Assoc("/MediaBox [0 0 ", w + (" " + (h + "]")), tail);
    Assoc(w, " " + (h + "]"), tail);
    Assoc(" ", h + "]", tail);
    Assoc(h, "]", tail);
    Assoc(" ", "/MediaBox [0 0 ", w + (" " + (h + ("]" + tail))));
  }

  lemma HeadText(tail: string)
    ensures "<< " + ("/Type /Page" + (" " + ("/Parent 2 0 R" + tail))) == "<< /Type /Page /Parent 2 0 R" + tail
  {
    Assoc(" ", "/Parent 2 0 R", tail);
    Assoc("/Type /Page", " /Parent 2 0 R", tail);
    Assoc("<< ", "/Type /Page /Parent 2 0 R", tail);
  }

  // ----- names are regular

  lemma OneRegular(a: Entry)
    requires EntryHasRegularNames(a)
    ensures EntriesHaveRegularNames([a])
  {
    hide EntryHasRegularNames;
    assert [a][1..] == [];
  }

  lemma MoreRegular(a: Entry, rest: seq<Entry>)
    requires EntryHasRegularNames(a) && EntriesHaveRegularNames(rest)
    ensures EntriesHaveRegularNames([a] + rest)
  {
    hide EntryHasRegularNames;
    assert ([a] + rest)[1..] == rest;
  }

  lemma {:induction false} KidsAreRegular(first: nat, count: nat)
    ensures ItemsHaveRegularNames(KidsOf(first, count))
    decreases count
  {
    if count > 0 {
      KidsAreRegular(first + 1, count - 1);
      assert KidsOf(first, count)[1..] == KidsOf(first + 1, count - 1);
    }
  }

  lemma CatalogIsRegular()
    ensures EntriesHaveRegularNames(CatalogEntries())
  {
    var a, b: Entry := ("Type", Named("Catalog")), ("Pages", Indirect(2, 0));
    OneRegular(b);
    MoreRegular(a, [b]);
    assert CatalogEntries() == [a] + [b];
  }

  lemma TrailerIsRegular(count: nat)
    ensures EntriesHaveRegularNames(TrailerEntries(count))
  {
    var a, b: Entry := ("Size", Integer(count)), ("Root", Indirect(1, 0));
    OneRegular(b);
    MoreRegular(a, [b]);
    assert TrailerEntries(count) == [a] + [b];
  }

  lemma TreeIsRegular(count: nat)
    ensures EntriesHaveRegularNames(TreeEntries(count))
  {
    hide KidsOf;
    var a, b, c: Entry := ("Type", Named("Pages")), ("Kids", List(KidsOf(0, count))), ("Count", Integer(count));
    KidsAreRegular(0, count);
    OneRegular(c);
    MoreRegular(b, [c]);
    MoreRegular(a, [b] + [c]);
    assert TreeEntries(count) == [a] + ([b] + [c]);
  }

  lemma StreamIsRegular(length: nat)
    ensures EntriesHaveRegularNames(StreamEntries(length))
  {
    OneRegular(("Length", Integer(length)));
  }

  lemma ResourcesAreRegular(s: Settings)
    requires RegularName(s.fontResource)
    ensures HasRegularNames(Resources(s))
  {
    hide Utf8;
    RegularBytes(s.fontResource);
    var a: Entry := (Utf8(s.fontResource), Indirect(3, 0));
    OneRegular(a);
    OneRegular(("Font", Dictionary([a])));
  }

  lemma MediaBoxIsRegular(s: Settings)
    ensures HasRegularNames(MediaBox(s))
  {
    IntegersAreRegular(MediaBox(s).items);
  }

  lemma {:induction false} IntegersAreRegular(items: seq<PdfObject>)
    requires forall i :: 0 <= i < |items| ==> items[i].Integer?
    ensures ItemsHaveRegularNames(items)
    decreases |items|
  {
    if |items| > 0 { IntegersAreRegular(items[1..]); }
  }

  lemma PageIsRegular(contents: nat, s: Settings)
    requires RegularName(s.fontResource)
    ensures EntriesHaveRegularNames(PageEntries(contents, s))
  {
    hide MediaBox, Resources;
    var entries := PageEntries(contents, s);
    MediaBoxIsRegular(s);
    ResourcesAreRegular(s);
    OneRegular(entries[4]);
    MoreRegular(entries[3], [entries[4]]);
    MoreRegular(entries[2], [entries[3]] + [entries[4]]);
    MoreRegular(entries[1], [entries[2]] + ([entries[3]] + [entries[4]]));
    MoreRegular(entries[0], [entries[1]] + ([entries[2]] + ([entries[3]] + [entries[4]])));
    assert entries == [entries[0]] + ([entries[1]] + ([entries[2]] + ([entries[3]] + [entries[4]])));
  }

  // ----- objects of a written file

  lemma TextFrom(pdf: string, i: nat, part: string)
    requires At(pdf, i, part)
    ensures i + |part| <= |pdf| && pdf[i..] == part + pdf[i + |part|..]
  {
    assert pdf[i..] == pdf[i..i + |part|] + pdf[i + |part|..];
  }

  /** The object of a number is the body written for it. */
  lemma ReadsObjectText(bodies: seq<string>, k: nat) returns (rest: string)
    requires |HEADER + Objects(bodies)| < TEN_DIGITS && 1 <= k <= |bodies|
    ensures ObjectAt(PdfText(bodies), Indirect(k, 0)) == Some(bodies[k - 1] + rest)
  {
    hide Objects, Offsets, PdfText, XrefOffset, ObjectHead, At;
    var pdf, o := PdfText(bodies), Offsets(bodies)[k];
    XrefLeadsToObjects(bodies, k);
    AtConcat(pdf, o, ObjectHead(k), bodies[k - 1] + "endobj\n");
    AtConcat(pdf, o + |ObjectHead(k)|, bodies[k - 1], "endobj\n");
    TextFrom(pdf, o + |ObjectHead(k)|, bodies[k - 1]);
    rest := pdf[o + |ObjectHead(k)| + |bodies[k - 1]|..];
  }

  /** A body that is a dictionary and more is read as that dictionary. */
  lemma ReadsBody(bodies: seq<string>, k: nat, entries: seq<Entry>, more: string) returns (rest: string)
    requires |HEADER + Objects(bodies)| < TEN_DIGITS && 1 <= k <= |bodies|
    requires bodies[k - 1] == Written(Dictionary(entries)) + more && EntriesHaveRegularNames(entries)
    ensures ObjectAt(PdfText(bodies), Indirect(k, 0)).Some?
    ensures DictionaryAt(ObjectAt(PdfText(bodies), Indirect(k, 0)).value) == Some((entries, more + rest))
    ensures DictionaryOf(PdfText(bodies), Indirect(k, 0)) == Some(entries)
  {
    hide Objects, PdfText, ObjectAt, Written, ParseObject, EntriesHaveRegularNames;
    rest := ReadsObjectText(bodies, k);
    Assoc(Written(Dictionary(entries)), more, rest);
    DictionaryIsRegular(entries);
    ReadsDictionary(entries, more + rest);
  }

  lemma DictionaryIsRegular(entries: seq<Entry>)
    requires EntriesHaveRegularNames(entries)
    ensures HasRegularNames(Dictionary(entries))
  {
  }

  /** The trailer stands behind the table. */
  lemma TrailerStands(bodies: seq<string>)
    requires |HEADER + Objects(bodies)| < TEN_DIGITS
    ensures var x, count := |HEADER + Objects(bodies)|, |bodies| + 1;
            var t := x + |XrefHead(count)| + 20 * count;
            t <= |PdfText(bodies)| && PdfText(bodies)[t..] == Trailer(count, x)
  {
    hide Objects, Offsets, XrefHead, Entries, Trailer;
    var objects, count, table := HEADER + Objects(bodies), |bodies| + 1, Offsets(bodies)[1..];
    OffsetsBelow(bodies);
    if |table| > 0 { EntriesStand(table, 0); } else { NoEntries(table); }
    var before := objects + (XrefHead(count) + (FREE_ENTRY + Entries(table)));
    var trailer := Trailer(count, |objects|);
    Assoc(FREE_ENTRY, Entries(table), trailer);
    Assoc(XrefHead(count), FREE_ENTRY + Entries(table), trailer);
    Assoc(objects, XrefHead(count) + (FREE_ENTRY + Entries(table)), trailer);
    assert |FREE_ENTRY| == 20 && |before| == |objects| + |XrefHead(count)| + 20 * count;
    assert PdfText(bodies) == before + trailer;
    assert (before + trailer)[|before|..] == trailer;
  }

  lemma NoEntries(table: seq<nat>)
    requires |table| == 0
    ensures Entries(table) == ""
  {
  }

  lemma ReadsTrailer(bodies: seq<string>)
    requires |HEADER + Objects(bodies)| < TEN_DIGITS
    ensures TrailerOf(PdfText(bodies)) == Some(TrailerEntries(|bodies| + 1))
  {
    hide Objects, PdfText, XrefTable, XrefHead, Trailer, Written, ParseObject, Digits, EntriesHaveRegularNames;
    var pdf, x, count := PdfText(bodies), |HEADER + Objects(bodies)|, |bodies| + 1;
    var t := x + |XrefHead(count)| + 20 * count;
    var end := "\nstartxref\n" + (Digits(x) + "\n%%EOF\n");
    ReadsXrefTable(bodies);
    TrailerStands(bodies);
    TrailerIsWritten(count, x);
    TrailerIsRegular(count);
    DictionaryIsRegular(TrailerEntries(count));
    ReadsDictionary(TrailerEntries(count), end);
    BehindWord(pdf, t, Written(Dictionary(TrailerEntries(count))) + end);
    SizeIsCount(count);
  }

  lemma BehindWord(pdf: string, t: nat, rest: string)
    requires t <= |pdf| && pdf[t..] == "trailer\n" + rest
    ensures At(pdf, t, "trailer\n") && pdf[t + 8..] == rest
  {
    assert pdf[t..t + 8] == pdf[t..][..8] && pdf[t + 8..] == pdf[t..][8..];
  }

  lemma SizeIsCount(count: nat)
    ensures Lookup(TrailerEntries(count), "Size") == Some(Integer(count))
    ensures Lookup(TrailerEntries(count), "Root") == Some(Indirect(1, 0))
  {
    LookupSkips(TrailerEntries(count), "Root");
  }

  lemma CatalogLookups()
    ensures Lookup(CatalogEntries(), "Type") == Some(Named("Catalog"))
    ensures Lookup(CatalogEntries(), "Pages") == Some(Indirect(2, 0))
  {
    LookupSkips(CatalogEntries(), "Pages");
  }

  lemma TreeLookups(count: nat)
    ensures Lookup(TreeEntries(count), "Type") == Some(Named("Pages"))
    ensures Lookup(TreeEntries(count), "Kids") == Some(List(KidsOf(0, count)))
    ensures Lookup(TreeEntries(count), "Count") == Some(Integer(count))
  {
    hide KidsOf;
    var entries := TreeEntries(count);
    assert entries[1..] == [entries[1], entries[2]] && entries[1..][1..] == [entries[2]];
    LookupSkips(entries, "Kids");
    LookupSkips(entries, "Count");
    LookupSkips(entries[1..], "Count");
  }

  lemma PageLookups(contents: nat, s: Settings)
    ensures Lookup(PageEntries(contents, s), "Type") == Some(Named("Page"))
    ensures Lookup(PageEntries(contents, s), "Contents") == Some(Indirect(contents, 0))
  {
    hide MediaBox, Resources;
    var e := PageEntries(contents, s);
    assert e[1..] == [e[1], e[2], e[3], e[4]] && e[1..][1..] == [e[2], e[3], e[4]];
    assert e[1..][1..][1..] == [e[3], e[4]] && e[1..][1..][1..][1..] == [e[4]];
    LookupSkips(e[1..][1..][1..], "Contents");
    LookupSkips(e[1..][1..], "Contents");
    LookupSkips(e[1..], "Contents");
    LookupSkips(e, "Contents");
  }

  lemma LookupSkips(entries: seq<Entry>, key: string)
    requires |entries| > 0 && entries[0].0 != key
    ensures Lookup(entries, key) == Lookup(entries[1..], key)
  {
  }

  // ----- the report comes back

  /** From the trailer a reader gets to the page tree and its pages. */
  lemma ReadsPages(pages: seq<seq<string>>, s: Settings)
    requires |pages| > 0 && |HEADER + Objects(Bodies(pages, s))| < TEN_DIGITS
    ensures PagesOf(PdfText(Bodies(pages, s))) == Some(KidsOf(0, |pages|))
  {
    hide Objects, PdfText, TrailerOf, DictionaryOf, CatalogEntries, TreeEntries, TrailerEntries, Lookup, KidsOf,
         PageBodies, PageTree, Font, Written, EntriesHaveRegularNames, DictionaryAt;
    var bodies := Bodies(pages, s);
    ReadsTrailer(bodies);
    SizeIsCount(|bodies| + 1);
    CatalogIsWritten();
    CatalogIsRegular();
    var a := ReadsBody(bodies, 1, CatalogEntries(), "\n");
    CatalogLookups();
    TreeIsWritten(|pages|);
    TreeIsRegular(|pages|);
    var b := ReadsBody(bodies, 2, TreeEntries(|pages|), "\n");
    TreeLookups(|pages|);
  }

  /** A content object gives back its stream: the declared length is the written one. */
  lemma StreamReads(bodies: seq<string>, k: nat, lines: seq<string>, s: Settings)
    requires |HEADER + Objects(bodies)| < TEN_DIGITS && 1 <= k <= |bodies| && bodies[k - 1] == Content(lines, s)
    ensures StreamOf(PdfText(bodies), Indirect(k, 0)) == Some(PageContent(lines, s))
  {
    hide Objects, PdfText, PageContent, StreamStart, Written, StreamEntries, EntriesHaveRegularNames, DictionaryAt,
         ObjectAt, Lookup, At, DictionaryOf;
    var content := PageContent(lines, s);
    var more := STREAM + (content + "endstream\n");
    StreamStartIsWritten(|content|);
    StreamIsRegular(|content|);
    Assoc(Written(Dictionary(StreamEntries(|content|))), STREAM, content + "endstream\n");
    var rest := ReadsBody(bodies, k, StreamEntries(|content|), more);
    LengthIs(|content|);
    StreamBytes(content, rest);
  }

  lemma LengthIs(n: nat)
    ensures Lookup(StreamEntries(n), "Length") == Some(Integer(n))
  {
  }

  lemma StreamBytes(content: string, rest: string)
    ensures var text := (STREAM + (content + "endstream\n")) + rest;
            && At(text, 0, STREAM) && At(text, |STREAM| + |content|, "endstream\n")
            && |STREAM| + |content| <= |text| && text[|STREAM|..|STREAM| + |content|] == content
  {
    var text := (STREAM + (content + "endstream\n")) + rest;
    Assoc(STREAM, content + "endstream\n", rest);
    Assoc(content, "endstream\n", rest);
    var tail := "endstream\n" + rest;
    assert text == STREAM + (content + tail);
    assert text[..|STREAM|] == STREAM;
    AtAfter(STREAM, content, tail);
    Assoc(STREAM, content, tail);
    AtAfter(STREAM + content, "endstream\n", rest);
  }

  /** A page the page tree names shows the lines of that page. */
  lemma ReadsPage(pages: seq<seq<string>>, s: Settings, i: nat)
    requires RegularName(s.fontResource)
    requires i < |pages| && |HEADER + Objects(Bodies(pages, s))| < TEN_DIGITS
    ensures PageTexts(PdfText(Bodies(pages, s)), Kid(i))
         == Some(TextsShown(ShownBy(PageContent(pages[i], s), [], START)))
  {
    hide Objects, PdfText, PageDictionary, Content, PageContent, PageBodies, PageTree, Font, DictionaryOf, StreamOf,
         ShownBy, PageEntries, Written, EntriesHaveRegularNames, Lookup, DictionaryAt, ObjectAt;
    var bodies, page := Bodies(pages, s), PageObject(i);
    PageBodiesAt(pages, s, i);
    assert bodies[page - 1] == PageBodies(pages, s)[2 * i] && bodies[page] == PageBodies(pages, s)[2 * i + 1];
    PageIsWritten(page + 1, s);
    PageIsRegular(page + 1, s);
    var rest := ReadsBody(bodies, page, PageEntries(page + 1, s), "\n");
    PageLookups(page + 1, s);
    StreamReads(bodies, page + 1, pages[i], s);
  }

  lemma {:induction false} ReadsAllPages(pages: seq<seq<string>>, s: Settings, i: nat, k: nat)
    requires RegularName(s.fontResource)
    requires i + k == |pages| && |HEADER + Objects(Bodies(pages, s))| < TEN_DIGITS
    ensures TextsOf(PdfText(Bodies(pages, s)), KidsOf(i, k)) == Some(ShownOnPages(pages[i..], s))
    decreases k
  {
    hide Objects, Bodies, PdfText, PageContent, ShownBy, PageTexts;
    if k > 0 {
      ReadsPage(pages, s, i);
      ReadsAllPages(pages, s, i + 1, k - 1);
      assert KidsOf(i, k)[1..] == KidsOf(i + 1, k - 1) && KidsOf(i, k)[0] == Kid(i);
      assert pages[i..][0] == pages[i] && pages[i..][1..] == pages[i + 1..];
    }
  }

  /**
   Reading back undoes writing: from the bytes of the file alone, a reader gets every line of the report, in order
   and nothing else, in every file whose objects stay below ten thousand million bytes.
   */
  lemma ReportReadsBack(lines: seq<string>, s: Settings)
    requires RegularName(s.fontResource)
    requires |HEADER + Objects(Bodies(PaginateLines(lines, s), s))| < TEN_DIGITS
    ensures ReadReport(PdfText(Bodies(PaginateLines(lines, s), s))) == Some(CleanedTexts(lines))
  {
    hide Objects, Bodies, PdfText, Chunks, ShownOnPages, CleanedTexts, TextsOf, PagesOf;
    var pages := PaginateLines(lines, s);
    ChunksExist(lines, LinesPerPage(s));
    ReadsPages(pages, s);
    ReadsAllPages(pages, s, 0, |pages|);
    assert pages[0..] == pages;
    PagesShowLines(lines, s);
  }

  lemma ChunksExist(lines: seq<string>, n: nat)
    requires n > 0
    ensures |Chunks(lines, n)| > 0
  {
  }
}

/** What a reader learns of each page besides its lines: its size, its parent and the font its texts are set in. */
module PdfPages {
  import opened Wrappers
  import opened Texts
  import opened Pdf
  import opened PdfStreams
  import opened PdfObjects
  import opened PdfFile
  import opened PdfReader

  // ----- the reader

  /** The dictionary under a key of a dictionary. */
  function Nested(entries: seq<Entry>, key: string): Option<seq<Entry>> {
    match Lookup(entries, key)
    case Some(Dictionary(inner)) => Some(inner)
    case _ => None
  }

  /** The font that a page's resources give for a name. */
  function FontOf(pdf: string, page: seq<Entry>, name: string): Option<seq<Entry>> {
    match Nested(page, "Resources")
    case None => None
    case Some(resources) =>
      match Nested(resources, "Font")
      case None => None
      case Some(fonts) => Follow(pdf, fonts, name, "Font")
  }

  // ----- the font dictionary the writer writes

  function FontEntries(s: Settings): seq<Entry> {
    [("Type", Named("Font")), ("Subtype", Named("Type1")), ("BaseFont", Named(Utf8(s.baseFont)))]
  }

  lemma FontIsWritten(s: Settings)
    ensures Font(s) == Written(Dictionary(FontEntries(s))) + "\n"
  {
    hide Utf8, WrittenEntries, Written, WrittenEntry;
    var f := Utf8(s.baseFont);
    var a, b, c: Entry := ("Type", Named("Font")), ("Subtype", Named("Type1")), ("BaseFont", Named(f));
    ThreeEntries(a, b, c);
    FontTexts(f);
    FontIsText(f);
  }

  lemma FontTexts(f: string)
    ensures WrittenEntry(("Type", Named("Font"))) == "/Type /Font"
    ensures WrittenEntry(("Subtype", Named("Type1"))) == "/Subtype /Type1"
    ensures WrittenEntry(("BaseFont", Named(f))) == "/BaseFont /" + f
  {
    EntryText("BaseFont", "/", f);
  }

  lemma FontIsText(f: string)
    ensures "<< /Type /Font /Subtype /Type1 /BaseFont /" + (f + " >>\n")
         == ("<< " + ("/Type /Font" + (" " + ("/Subtype /Type1" + (" " + (("/BaseFont /" + f) + " >>")))))) + "\n"
  {
    var head := "<< /Type /Font /Subtype /Type1 ";
    Assoc("/BaseFont /", f, " >>");
    assert "<< " + ("/Type /Font" + (" " + ("/Subtype /Type1" + (" " + ("/BaseFont /" + (f + " >>"))))))
           == head + ("/BaseFont /" + (f + " >>"));
    Assoc(head, "/BaseFont /", f + " >>");
    assert head + "/BaseFont /" == "<< /Type /Font /Subtype /Type1 /BaseFont /";
    Assoc(head + "/BaseFont /", f + " >>", "\n");
    Assoc(f, " >>", "\n");
  }

  lemma FontIsRegular(s: Settings)
    requires RegularName(s.baseFont)
    ensures EntriesHaveRegularNames(FontEntries(s))
  {
    hide Utf8;
    RegularBytes(s.baseFont);
    var e := FontEntries(s);
    OneRegular(e[2]);
    MoreRegular(e[1], [e[2]]);
    MoreRegular(e[0], [e[1]] + [e[2]]);
    assert e == [e[0]] + ([e[1]] + [e[2]]);
  }

  lemma FontLookups(s: Settings)
    ensures Lookup(FontEntries(s), "Type") == Some(Named("Font"))
    ensures Lookup(FontEntries(s), "Subtype") == Some(Named("Type1"))
    ensures Lookup(FontEntries(s), "BaseFont") == Some(Named(Utf8(s.baseFont)))
  {
    hide Utf8;
    var e := FontEntries(s);
    assert e[1..] == [e[1], e[2]] && e[1..][1..] == [e[2]];
    LookupSkips(e, "Subtype");
    LookupSkips(e, "BaseFont");
    LookupSkips(e[1..], "BaseFont");
  }

  lemma PageParts(contents: nat, s: Settings)
    ensures var page := PageEntries(contents, s);
            && Lookup(page, "Parent") == Some(Indirect(2, 0)) && Lookup(page, "MediaBox") == Some(MediaBox(s))
            && Lookup(page, "Resources") == Some(Resources(s))
  {
    hide MediaBox, Resources;
    var e := PageEntries(contents, s);
    assert e[1..] == [e[1], e[2], e[3], e[4]] && e[1..][1..] == [e[2], e[3], e[4]];
    assert e[1..][1..][1..] == [e[3], e[4]];
    LookupSkips(e, "Parent");
    LookupSkips(e, "MediaBox");
    LookupSkips(e, "Resources");
    LookupSkips(e[1..], "MediaBox");
    LookupSkips(e[1..], "Resources");
    LookupSkips(e[1..][1..], "Resources");
  }

  // ----- every page

  /**
   Every page the page tree names has the page size as its media box and the tree as its parent, and its resources
   give, for the name that its texts select, the Type 1 font of the settings.
   */
  lemma PageHasSizeAndFont(pages: seq<seq<string>>, s: Settings, i: nat)
    requires RegularName(s.fontResource) && RegularName(s.baseFont)
    requires i < |pages| && |HEADER + Objects(Bodies(pages, s))| < TEN_DIGITS
    ensures var pdf := PdfText(Bodies(pages, s));
            match DictionaryOf(pdf, Kid(i))
            case None => false
            case Some(page) =>
              && Lookup(page, "MediaBox")
                 == Some(List([Integer(0), Integer(0), Integer(s.pageWidth), Integer(s.pageHeight)]))
              && Lookup(page, "Parent") == Some(Indirect(2, 0))
              && match FontOf(pdf, page, Top(s).font)
                 case None => false
                 case Some(font) =>
                   && Lookup(font, "Subtype") == Some(Named("Type1"))
                   && Lookup(font, "BaseFont") == Some(Named(Utf8(s.baseFont)))
  {
    hide Objects, PdfText, PageDictionary, PageBodies, PageTree, Font, DictionaryOf, PageEntries, FontEntries, Written,
         EntriesHaveRegularNames, Lookup, DictionaryAt, ObjectAt, Utf8;
    var bodies, page := Bodies(pages, s), PageObject(i);
    PageBodiesAt(pages, s, i);
    assert bodies[page - 1] == PageBodies(pages, s)[2 * i] && bodies[2] == Font(s);
    PageIsWritten(page + 1, s);
    PageIsRegular(page + 1, s);
    var a := ReadsBody(bodies, page, PageEntries(page + 1, s), "\n");
    PageParts(page + 1, s);
    FontIsWritten(s);
    FontIsRegular(s);
    var b := ReadsBody(bodies, 3, FontEntries(s), "\n");
    FontLookups(s);
    ResourceLookups(s);
  }

  lemma ResourceLookups(s: Settings)
    ensures match Resources(s)
            case Dictionary(entries) =>
              (match Lookup(entries, "Font")
               case Some(Dictionary(fonts)) => Lookup(fonts, Utf8(s.fontResource)) == Some(Indirect(3, 0))
               case _ => false)
            case _ => false
  {
    hide Utf8;
  }
}

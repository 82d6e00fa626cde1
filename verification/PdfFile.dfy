/**
 The file structure of the report: the cross-reference table (section 7.5.4 of ISO 32000-1) points at the objects,
 and the page tree names the pages.
 */
module PdfFile {
  import opened Wrappers
  import opened Texts
  import opened Pdf
  import opened PdfStreams

  // ----- how a reader finds objects

  predicate EndsWith(s: string, suffix: string) {
    |suffix| <= |s| && s[|s| - |suffix|..] == suffix
  }

  /** The digits at the end of a text. */
  function DigitsAtEnd(s: string): (d: string)
    ensures |d| <= |s| && AllDigits(d)
  {
    if |s| > 0 && IsDigit(s[|s| - 1]) then DigitsAtEnd(s[..|s| - 1]) + [s[|s| - 1]] else ""
  }

  /** The digits at the start of a text. */
  function DigitsAtStart(s: string): (d: string)
    ensures |d| <= |s| && AllDigits(d)
  {
    if |s| > 0 && IsDigit(s[0]) then [s[0]] + DigitsAtStart(s[1..]) else ""
  }

  /** The position after `startxref` in the last lines of a file. */
  function StartXref(pdf: string): Option<nat> {
    if !EndsWith(pdf, "\n%%EOF\n") then None
    else
      var body := pdf[..|pdf| - 7];
      var d := DigitsAtEnd(body);
      if |d| > 0 && EndsWith(body[..|body| - |d|], "startxref\n") then Some(NatValue(d)) else None
  }

  /** Where the cross-reference table's entries begin, and how many there are. */
  function XrefTable(pdf: string): Option<(nat, nat)> {
    match StartXref(pdf)
    case None => None
    case Some(x) =>
      if !At(pdf, x, "xref\n0 ") then None
      else
        var d := DigitsAtStart(pdf[x + 7..]);
        if |d| > 0 && At(pdf, x + 7 + |d|, "\n") then Some((x + 7 + |d| + 1, NatValue(d))) else None
  }

  /** The offset that the 20-byte entry of an object holds. */
  function XrefOffset(pdf: string, k: nat): Option<nat> {
    match XrefTable(pdf)
    case None => None
    case Some((start, count)) =>
      var e := start + 20 * k;
      if k < count && e + 20 <= |pdf| && AllDigits(pdf[e..e + 10]) && At(pdf, e + 10, " 00000 n \n")
      then Some(NatValue(pdf[e..e + 10]))
      else None
  }

  // ----- where objects stand

  lemma AtPrefix(a: string, i: nat, part: string, b: string)
    requires At(a, i, part)
    ensures At(a + b, i, part)
  {
    assert (a + b)[i..i + |part|] == a[i..i + |part|];
  }

  lemma AtAfter(a: string, b: string, c: string)
    ensures At(a + (b + c), |a|, b)
  {
    assert (a + (b + c))[|a|..|a| + |b|] == b;
  }

  lemma OffsetIs(bodies: seq<string>, k: nat)
    requires 1 <= k <= |bodies|
    ensures Offsets(bodies)[k] == |HEADER| + |Objects(bodies[..k - 1])|
  {
    hide Objects;
  }

  lemma {:induction false} ObjectStands(bodies: seq<string>, k: nat)
    requires 1 <= k <= |bodies|
    ensures At(HEADER + Objects(bodies), Offsets(bodies)[k], ObjectText(k, bodies[k - 1]))
  {
    hide ObjectText, Offsets, Objects;
    var n := |bodies| - 1;
    var init := bodies[..n];
    assert bodies == init + [bodies[n]];
    ObjectsStep(init, bodies[n]);
    OffsetIs(bodies, k);
    var before, last := HEADER + Objects(init), ObjectText(n + 1, bodies[n]);
    assert HEADER + Objects(bodies) == before + last;
    if k == n + 1 {
      assert last + "" == last;
      AtAfter(before, last, "");
    } else {
      ObjectStands(init, k);
      OffsetIs(init, k);
      assert init[..k - 1] == bodies[..k - 1];
      AtPrefix(before, Offsets(init)[k], ObjectText(k, bodies[k - 1]), last);
    }
  }

  // ----- the trailer

  lemma {:induction false} DigitsEnd(a: string, d: string)
    requires AllDigits(d) && (|a| == 0 || !IsDigit(a[|a| - 1]))
    ensures DigitsAtEnd(a + d) == d
  {
    var s := a + d;
    if |d| == 0 {
      assert s == a;
    } else {
      assert s[..|s| - 1] == a + d[..|d| - 1] && s[|s| - 1] == d[|d| - 1];
      DigitsEnd(a, d[..|d| - 1]);
      assert d == d[..|d| - 1] + [d[|d| - 1]];
    }
  }

  lemma {:induction false} DigitsStart(d: string, b: string)
    requires AllDigits(d) && (|b| == 0 || !IsDigit(b[0]))
    ensures DigitsAtStart(d + b) == d
    decreases d
  {
    var s := d + b;
    if |d| == 0 {
      assert s == b;
    } else {
      assert s[1..] == d[1..] + b && s[0] == d[0];
      DigitsStart(d[1..], b);
      assert d == [d[0]] + d[1..];
    }
  }

  /** A file that ends in this way has its cross-reference table where its last lines say. */
  lemma ReadsStartXref(before: string, x: nat)
    ensures StartXref(before + ("startxref\n" + (Digits(x) + "\n%%EOF\n"))) == Some(x)
  {
    hide Digits, NatValue, DigitsAtEnd;
    var d, start := Digits(x), before + "startxref\n";
    var pdf := before + ("startxref\n" + (d + "\n%%EOF\n"));
    assert pdf == start + d + "\n%%EOF\n";
    assert pdf[|pdf| - 7..] == "\n%%EOF\n" && pdf[..|pdf| - 7] == start + d;
    assert start[|start| - 1] == '\n';
    DigitsEnd(start, d);
    assert (start + d)[..|start|] == start;
    assert start[|start| - 10..] == "startxref\n";
    DigitsValue(x);
  }

  /** Everything of a file before its last three lines. */
  function BeforeStartXref(bodies: seq<string>): string {
    var objects, offsets := HEADER + Objects(bodies), Offsets(bodies);
    objects + (XrefHead(|offsets|) + (FREE_ENTRY + (Entries(offsets[1..])
      + ("trailer\n<< /Size " + (Digits(|offsets|) + " /Root 1 0 R >>\n")))))
  }

  lemma EndOfFile(bodies: seq<string>)
    ensures PdfText(bodies)
         == BeforeStartXref(bodies) + ("startxref\n" + (Digits(|HEADER + Objects(bodies)|) + "\n%%EOF\n"))
  {
    hide Objects, Offsets, Entries, XrefHead, Digits;
    var objects, offsets := HEADER + Objects(bodies), Offsets(bodies);
    var count, x := Digits(|offsets|), Digits(|objects|);
    var tail := "startxref\n" + (x + "\n%%EOF\n");
    assert " /Root 1 0 R >>\nstartxref\n" + (x + "\n%%EOF\n") == " /Root 1 0 R >>\n" + tail;
    var mid := "trailer\n<< /Size " + (count + " /Root 1 0 R >>\n");
    assert Trailer(|offsets|, |objects|) == mid + tail by {
      Assoc("trailer\n<< /Size ", count + " /Root 1 0 R >>\n", tail);
      Assoc(count, " /Root 1 0 R >>\n", tail);
    }
    Assoc(Entries(offsets[1..]), mid, tail);
    Assoc(FREE_ENTRY, Entries(offsets[1..]) + mid, tail);
    Assoc(XrefHead(|offsets|), FREE_ENTRY + (Entries(offsets[1..]) + mid), tail);
    Assoc(objects, XrefHead(|offsets|) + (FREE_ENTRY + (Entries(offsets[1..]) + mid)), tail);
  }

  // ----- the table

  function PowerOfTen(k: nat): nat {
    if k == 0 then 1 else 10 * PowerOfTen(k - 1)
  }

  const TEN_DIGITS: nat := 10_000_000_000

  lemma {:induction false} DigitCount(n: nat, k: nat)
    requires n < PowerOfTen(k) && k > 0
    ensures |Digits(n)| <= k
    decreases k
  {
    if n >= 10 { DigitCount(n / 10, k - 1); }
  }

  lemma TenDigits()
    ensures PowerOfTen(10) == TEN_DIGITS
  {
    assert PowerOfTen(5) == 100_000;
    assert PowerOfTen(10) == 100_000 * PowerOfTen(5);
  }

  lemma {:induction false} LeadingZeros(zeros: string, d: string)
    requires AllDigits(d) && forall i :: 0 <= i < |zeros| ==> zeros[i] == '0'
    ensures AllDigits(zeros + d) && NatValue(zeros + d) == NatValue(d)
  {
    var s := zeros + d;
    if |d| > 0 {
      assert s[..|s| - 1] == zeros + d[..|d| - 1];
      LeadingZeros(zeros, d[..|d| - 1]);
    } else if |zeros| > 0 {
      assert s[..|s| - 1] == zeros[..|zeros| - 1] + d && s[|s| - 1] == '0';
      LeadingZeros(zeros[..|zeros| - 1], d);
    }
  }

  /** An entry for an offset below ten thousand million has 20 bytes, and its first ten are the offset. */
  lemma EntryReads(n: nat)
    requires n < TEN_DIGITS
    ensures |Padded(n)| == 10 && |Entry(n)| == 20 && AllDigits(Padded(n)) && NatValue(Padded(n)) == n
  {
    hide Digits, NatValue;
    TenDigits();
    DigitCount(n, 10);
    DigitsValue(n);
    var d := Digits(n);
    if |d| < 10 {
      LeadingZeros(seq(10 - |d|, _ => '0'), d);
    } else {
      assert "" + d == d;
    }
  }

  lemma {:induction false} EntriesStand(offsets: seq<nat>, i: nat)
    requires i < |offsets| && forall j :: 0 <= j < |offsets| ==> offsets[j] < TEN_DIGITS
    ensures |Entries(offsets)| == 20 * |offsets| && At(Entries(offsets), 20 * i, Entry(offsets[i]))
  {
    hide Entry;
    var n := |offsets| - 1;
    EntryReads(offsets[n]);
    var init, last := Entries(offsets[..n]), Entry(offsets[n]);
    if n > 0 {
      EntriesStand(offsets[..n], if i < n then i else 0);
      if i < n { AtPrefix(init, 20 * i, Entry(offsets[i]), last); }
    }
    if i == n {
      assert last + "" == last;
      AtAfter(init, last, "");
    }
  }

  lemma AtShift(a: string, b: string, i: nat, part: string)
    requires At(b, i, part)
    ensures At(a + b, |a| + i, part)
  {
    assert (a + b)[|a| + i..|a| + i + |part|] == b[i..i + |part|];
  }

  lemma OffsetsBelow(bodies: seq<string>)
    requires |HEADER + Objects(bodies)| < TEN_DIGITS
    ensures forall j :: 0 <= j < |bodies| ==> Offsets(bodies)[1..][j] < TEN_DIGITS
  {
    hide Objects, ObjectText;
    forall j | 0 <= j < |bodies| ensures Offsets(bodies)[1..][j] < TEN_DIGITS {
      ObjectStands(bodies, j + 1);
    }
  }

  lemma HeadStands(objects: string, count: nat, rest: string)
    ensures var pdf, x, d := objects + (XrefHead(count) + rest), |objects|, Digits(count);
            At(pdf, x, "xref\n0 ") && pdf[x + 7..] == d + ("\n" + rest) && At(pdf, x + 7 + |d|, "\n")
  {
    hide Digits, At;
    var d, tail := Digits(count), "\n" + rest;
    var pdf := objects + (XrefHead(count) + rest);
    Assoc("xref\n0 ", d + "\n", rest);
    Assoc(d, "\n", rest);
    AtAfter(objects, "xref\n0 ", d + tail);
    Assoc(objects, "xref\n0 ", d + tail);
    var before := objects + "xref\n0 ";
    assert (before + (d + tail))[|before|..] == d + tail;
    Assoc(before, d, tail);
    AtAfter(before + d, "\n", rest);
  }

  lemma ReadsHead(objects: string, count: nat, rest: string)
    requires StartXref(objects + (XrefHead(count) + rest)) == Some(|objects|)
    ensures XrefTable(objects + (XrefHead(count) + rest)) == Some((|objects| + |XrefHead(count)|, count))
  {
    hide Digits, NatValue, DigitsAtStart, StartXref, At;
    HeadStands(objects, count, rest);
    DigitsStart(Digits(count), "\n" + rest);
    DigitsValue(count);
  }

  lemma ReadsXrefTable(bodies: seq<string>)
    ensures var x, count := |HEADER + Objects(bodies)|, |bodies| + 1;
            StartXref(PdfText(bodies)) == Some(x)
            && XrefTable(PdfText(bodies)) == Some((x + |XrefHead(count)|, count))
  {
    hide Objects, Entries, Trailer, Offsets, StartXref, BeforeStartXref, XrefTable, XrefHead;
    var objects, count := HEADER + Objects(bodies), |bodies| + 1;
    EndOfFile(bodies);
    ReadsStartXref(BeforeStartXref(bodies), |objects|);
    ReadsHead(objects, count, FREE_ENTRY + (Entries(Offsets(bodies)[1..]) + Trailer(count, |objects|)));
  }

  /**
   Every cross-reference entry leads to its object: entry `k` is 20 bytes and holds the position where `k 0 obj`
   starts, in every file whose objects stay below ten thousand million bytes.
   */
  lemma XrefLeadsToObjects(bodies: seq<string>, k: nat)
    requires |HEADER + Objects(bodies)| < TEN_DIGITS && 1 <= k <= |bodies|
    ensures XrefOffset(PdfText(bodies), k) == Some(Offsets(bodies)[k])
    ensures At(PdfText(bodies), Offsets(bodies)[k], Digits(k) + " 0 obj\n")
    ensures At(PdfText(bodies), Offsets(bodies)[k], ObjectText(k, bodies[k - 1]))
  {
    hide Objects, Offsets, Digits, XrefHead, Entries, Trailer, Padded, NatValue, XrefTable, At;
    var objects, offsets, count := HEADER + Objects(bodies), Offsets(bodies), |bodies| + 1;
    var table := offsets[1..];
    var pdf := PdfText(bodies);
    var rest := XrefHead(count) + (FREE_ENTRY + (Entries(table) + Trailer(count, |objects|)));
    assert pdf == objects + rest;
    ObjectStands(bodies, k);
    AtPrefix(objects, offsets[k], ObjectText(k, bodies[k - 1]), rest);
    AtConcat(pdf, offsets[k], ObjectHead(k), bodies[k - 1] + "endobj\n");
    ReadsXrefTable(bodies);
    OffsetsBelow(bodies);
    EntriesStand(table, k - 1);
    EntryReads(table[k - 1]);
    EntryStands(objects + XrefHead(count), table, k - 1, Trailer(count, |objects|));
    Assoc(objects, XrefHead(count), FREE_ENTRY + (Entries(table) + Trailer(count, |objects|)));
    var e := |objects + XrefHead(count)| + 20 * k;
    AtConcat(pdf, e, Padded(offsets[k]), " 00000 n \n");
    AtGives(pdf, e, Padded(offsets[k]));
    AtGives(pdf, e + 10, " 00000 n \n");
  }

  lemma AtGives(pdf: string, i: nat, part: string)
    requires At(pdf, i, part)
    ensures i + |part| <= |pdf| && pdf[i..i + |part|] == part
  {
  }

  lemma EntryStands(before: string, table: seq<nat>, i: nat, after: string)
    requires i < |table| && At(Entries(table), 20 * i, Entry(table[i]))
    ensures At(before + (FREE_ENTRY + (Entries(table) + after)), |before| + 20 * (i + 1), Entry(table[i]))
  {
    hide Entries, Entry, At;
    var entry, rest := Entry(table[i]), Entries(table) + after;
    AtPrefix(Entries(table), 20 * i, entry, after);
    AtShift(FREE_ENTRY, rest, 20 * i, entry);
    assert |FREE_ENTRY| == 20;
    AtShift(before, FREE_ENTRY + rest, 20 + 20 * i, entry);
    assert |before| + (20 + 20 * i) == |before| + 20 * (i + 1);
  }

  // ----- pages

  lemma {:induction false} PageBodiesAt(pages: seq<seq<string>>, s: Settings, i: nat)
    requires i < |pages|
    ensures PageBodies(pages, s)[2 * i] == PageDictionary(PageObject(i) + 1, s)
    ensures PageBodies(pages, s)[2 * i + 1] == Content(pages[i], s)
  {
    hide PageDictionary, Content;
    var n := |pages| - 1;
    if i < n { PageBodiesAt(pages[..n], s, i); }
  }

  function PageNumbers(first: nat, count: nat): (r: seq<nat>)
    ensures |r| == count && forall i :: 0 <= i < count ==> r[i] == PageObject(first + i)
  {
    seq<nat>(count, i requires 0 <= i < count => PageObject(first + i))
  }

  function Gap(count: nat): string {
    if count > 1 then " " else ""
  }

  /** References to the pages from `first` on, as the page tree lists them. */
  function KidsFrom(first: nat, count: nat): string
    decreases count
  {
    if count == 0 then "" else Reference(first) + (Gap(count) + KidsFrom(first + 1, count - 1))
  }

  lemma {:induction false} KidsGrow(first: nat, count: nat)
    requires count > 0
    ensures KidsFrom(first, count) == KidsFrom(first, count - 1) + (Gap(count) + Reference(first + count - 1))
    decreases count
  {
    hide Reference, KidsFrom, Gap;
    if count == 1 {
      OneKid(first);
    } else {
      KidsGrow(first + 1, count - 1);
      FirstKid(first, count);
      FirstKid(first, count - 1);
      GapsMove(Reference(first), KidsFrom(first + 1, count - 2), Gap(count - 1), Reference(first + count - 1), count);
    }
  }

  lemma FirstKid(first: nat, count: nat)
    requires count > 0
    ensures KidsFrom(first, count) == Reference(first) + (Gap(count) + KidsFrom(first + 1, count - 1))
    ensures count > 1 ==> Gap(count) == " "
    ensures KidsFrom(first + 1, 0) == ""
  {
    hide Reference;
  }

  lemma OneKid(first: nat)
    ensures KidsFrom(first, 1) == Reference(first) && KidsFrom(first, 0) == ""
    ensures "" + (Gap(1) + Reference(first)) == Reference(first)
  {
    hide Reference;
    assert KidsFrom(first, 1) == Reference(first) + ("" + "");
  }

  lemma GapsMove(r: string, mid: string, gap: string, last: string, count: nat)
    requires count > 1 && gap == Gap(count - 1) && (count == 2 ==> mid == "")
    ensures r + (" " + (mid + (gap + last))) == (r + (gap + mid)) + (" " + last)
  {
    if count == 2 {
      assert mid + (gap + last) == last && gap + mid == "" && r + "" == r;
    } else {
      Assoc(" " + mid, " ", last);
      Assoc(" ", mid, " " + last);
      Assoc(r, " " + mid, " " + last);
    }
  }

  lemma {:induction false} KidsAreFrom(count: nat)
    ensures Kids(count) == KidsFrom(0, count)
  {
    hide Digits;
    if count > 0 {
      KidsAreFrom(count - 1);
      KidsGrow(0, count);
    }
  }

  /** The dictionary of an object says it is a page. */
  predicate IsPage(body: string) {
    At(body, 0, "<< /Type /Page ")
  }

  /** The page tree names exactly the objects that are pages. */
  lemma PageNumbersArePages(pages: seq<seq<string>>, s: Settings, k: nat)
    requires 1 <= k <= |Bodies(pages, s)|
    ensures IsPage(Bodies(pages, s)[k - 1]) <==> k in PageNumbers(0, |pages|)
  {
    hide Kids, Digits, PageContent, PageBodies, Utf8;
    if k <= 3 {
      FixedAreNotPages(|pages|, s);
    } else {
      var i := (k - 4) / 2;
      PageBodiesAt(pages, s, i);
      PageOrContent(PageObject(i) + 1, pages[i], s);
      if k % 2 == 0 {
        assert k == PageObject(i) == PageNumbers(0, |pages|)[i];
        assert Bodies(pages, s)[k - 1] == PageBodies(pages, s)[2 * i];
      } else {
        assert Bodies(pages, s)[k - 1] == PageBodies(pages, s)[2 * i + 1];
      }
    }
  }

  lemma FixedAreNotPages(count: nat, s: Settings)
    ensures !IsPage(CATALOG) && !IsPage(PageTree(count)) && !IsPage(Font(s))
  {
    hide Kids, Digits, Utf8;
    assert CATALOG[10] == 'C' && PageTree(count)[14] == 's' && Font(s)[10] == 'F';
    if IsPage(CATALOG) { AtChar(CATALOG, 0, "<< /Type /Page ", 10); }
    if IsPage(PageTree(count)) { AtChar(PageTree(count), 0, "<< /Type /Page ", 14); }
    if IsPage(Font(s)) { AtChar(Font(s), 0, "<< /Type /Page ", 10); }
  }

  lemma PageOrContent(contentObject: nat, lines: seq<string>, s: Settings)
    ensures IsPage(PageDictionary(contentObject, s)) && !IsPage(Content(lines, s))
  {
    hide Digits, PageContent, Utf8;
    var page := PageDictionary(contentObject, s);
    assert page[..15] == "<< /Type /Page ";
    assert Content(lines, s)[4] == 'L';
    if IsPage(Content(lines, s)) { AtChar(Content(lines, s), 0, "<< /Type /Page ", 4); }
  }
}

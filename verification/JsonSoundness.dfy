/** Everything the parser accepts is derivable, so the parser and the grammar of RFC 8259 agree exactly. */
module JsonSoundness {
  import opened Wrappers
  import opened Texts
  import opened JsonValues
  import opened JsonReader
  import opened JsonGrammar
  import opened JsonCompleteness

  lemma {:induction false} SpaceSkipped(chars: string, pos: nat) returns (s: string)
    requires pos <= |chars|
    ensures Space(s) && At(chars, pos, s) && SkipSpace(chars, pos) == pos + |s|
    decreases |chars| - pos
  {
    if pos < |chars| && IsSpace(chars[pos]) {
      var rest := SpaceSkipped(chars, pos + 1);
      s := [chars[pos]] + rest;
      AtConcat(chars, pos, [chars[pos]], rest);
    } else {
      s := "";
    }
  }

  lemma {:induction false} DigitsSkipped(chars: string, pos: nat) returns (s: string)
    requires pos <= |chars|
    ensures (forall i :: 0 <= i < |s| ==> IsDigit(s[i])) && At(chars, pos, s)
    ensures SkipDigits(chars, pos) == pos + |s|
    decreases |chars| - pos
  {
    if DigitAt(chars, pos) {
      var rest := DigitsSkipped(chars, pos + 1);
      s := [chars[pos]] + rest;
      AtConcat(chars, pos, [chars[pos]], rest);
    } else {
      s := "";
    }
  }

  lemma IntegerAccepted(chars: string, pos: nat) returns (s: string)
    requires pos <= |chars| && IntegerEnd(chars, pos).Some?
    ensures AllDigits(s) && (s[0] == '0' ==> |s| == 1) && At(chars, pos, s)
    ensures IntegerEnd(chars, pos) == Some(pos + |s|)
  {
    if CharAt(chars, pos, '0') {
      s := "0";
    } else {
      s := DigitsSkipped(chars, pos);
      AtChar(chars, pos, s, 0);
    }
  }

  lemma FractionAccepted(chars: string, pos: nat) returns (f: Option<string>)
    requires pos <= |chars| && FractionEnd(chars, pos).Some?
    ensures (f.Some? ==> AllDigits(f.value)) && At(chars, pos, FractionText(f))
    ensures FractionEnd(chars, pos) == Some(pos + |FractionText(f)|)
  {
    hide SkipDigits, At, AllDigits;
    if CharAt(chars, pos, '.') {
      var s := DigitsSkipped(chars, pos + 1);
      SomeDigits(chars, pos + 1, s);
      f := Some(s);
      OneChar(chars, pos);
      AtConcat(chars, pos, ".", s);
    } else {
      f := None;
      NoChars(chars, pos);
    }
  }

  lemma ExponentAccepted(chars: string, pos: nat) returns (e: Option<Exponent>)
    requires pos <= |chars| && ExponentEnd(chars, pos).Some?
    ensures At(chars, pos, ExponentText(e)) && ExponentEnd(chars, pos) == Some(pos + |ExponentText(e)|)
    ensures e.Some? ==> IsExponent(e.value)
  {
    hide SkipDigits, SkipSign, At, AllDigits;
    if CharAt(chars, pos, 'e') || CharAt(chars, pos, 'E') {
      var sign := SignAccepted(chars, pos + 1);
      var q := pos + 1 + |sign|;
      var s := DigitsSkipped(chars, q);
      SomeDigits(chars, q, s);
      ExponentStands(chars, pos, sign, s);
      e := Some(Exponent(chars[pos], sign, s));
    } else {
      e := None;
      NoChars(chars, pos);
    }
  }

  lemma ExponentStands(chars: string, pos: nat, sign: string, s: string)
    requires pos < |chars| && At(chars, pos + 1, sign) && At(chars, pos + 1 + |sign|, s)
    ensures At(chars, pos, [chars[pos]] + (sign + s))
  {
    hide At;
    OneChar(chars, pos);
    AtConcat(chars, pos + 1, sign, s);
    AtConcat(chars, pos, [chars[pos]], sign + s);
  }

  lemma SignAccepted(chars: string, pos: nat) returns (sign: string)
    requires pos <= |chars|
    ensures (sign == "" || sign == "+" || sign == "-") && At(chars, pos, sign)
    ensures SkipSign(chars, pos) == pos + |sign|
  {
    sign := if CharAt(chars, pos, '+') then "+" else if CharAt(chars, pos, '-') then "-" else "";
  }

  lemma SomeDigits(chars: string, q: nat, s: string)
    requires DigitAt(chars, q) && SkipDigits(chars, q) == q + |s|
    requires forall i :: 0 <= i < |s| ==> IsDigit(s[i])
    ensures AllDigits(s)
  {
    assert SkipDigits(chars, q) == SkipDigits(chars, q + 1);
  }

  lemma OneChar(chars: string, pos: nat)
    requires pos < |chars|
    ensures At(chars, pos, [chars[pos]])
  {
  }

  lemma NoChars(chars: string, pos: nat)
    requires pos <= |chars|
    ensures At(chars, pos, "")
  {
  }

  lemma NumberAccepted(chars: string, pos: nat) returns (n: Number)
    requires pos <= |chars| && NumberEnd(chars, pos).Some?
    ensures IsNumber(n) && At(chars, pos, NumberText(n)) && NumberEnd(chars, pos) == Some(pos + |NumberText(n)|)
  {
    hide IntegerEnd, FractionEnd, ExponentEnd, FractionText, ExponentText, AllDigits, At;
    var minus := CharAt(chars, pos, '-');
    var sign := if minus then "-" else "";
    if minus { OneChar(chars, pos); } else { NoChars(chars, pos); }
    var i := IntegerAccepted(chars, pos + |sign|);
    var f := FractionAccepted(chars, pos + |sign| + |i|);
    var e := ExponentAccepted(chars, pos + |sign| + |i| + |FractionText(f)|);
    n := Number(minus, i, f, e);
    AtConcat(chars, pos + |sign| + |i|, FractionText(f), ExponentText(e));
    AtConcat(chars, pos + |sign|, i, FractionText(f) + ExponentText(e));
    AtConcat(chars, pos, sign, i + (FractionText(f) + ExponentText(e)));
  }

  lemma {:induction false} HexAccepted(chars: string, pos: nat, n: nat, code: nat) returns (d: string)
    requires HexCode(chars, pos, n, code).Some?
    ensures n == 0 || At(chars, pos, d)
    ensures |d| == n && forall i :: 0 <= i < n ==> HexDigitOf(d[i]).Some?
    ensures HexNumber(d, code) == HexCode(chars, pos, n, code)
    decreases n
  {
    if n == 0 {
      d := "";
    } else {
      var rest := HexAccepted(chars, pos + 1, n - 1, code * 16 + HexValue(chars[pos]).value);
      d := [chars[pos]] + rest;
      assert d[1..] == rest;
      if n > 1 { AtConcat(chars, pos, [chars[pos]], rest); }
    }
  }

  lemma EscapeAccepted(chars: string, pos: nat) returns (c: Chr)
    requires CharAt(chars, pos, '\\') && EscapeAt(chars, pos + 1).Some?
    ensures IsChr(c) && At(chars, pos, ChrText(c))
    ensures EscapeAt(chars, pos + 1) == Read(ChrMeaning(c), pos + |ChrText(c)|)
  {
    if chars[pos + 1] == 'u' {
      var d := HexAccepted(chars, pos + 2, 4, 0);
      c := Unicode(d);
      assert At(chars, pos, "\\u");
      AtConcat(chars, pos, "\\u", d);
    } else {
      c := Short(chars[pos + 1]);
    }
  }

  lemma CharAccepted(chars: string, pos: nat) returns (c: Chr)
    requires StringRest(chars, pos).Some? && chars[pos] != '"'
    ensures IsChr(c) && At(chars, pos, ChrText(c)) && ChrMeaning(c).Some? && |ChrText(c)| > 0
    ensures StringRest(chars, pos) == ConsItem(ChrMeaning(c).value, StringRest(chars, pos + |ChrText(c)|))
  {
    hide HexCode, EscapeAt;
    if chars[pos] == '\\' {
      c := EscapeAccepted(chars, pos);
    } else {
      c := Verbatim(chars[pos]);
    }
  }

  lemma {:induction false} CharsAccepted(chars: string, pos: nat) returns (s: seq<Chr>)
    requires StringRest(chars, pos).Some?
    ensures IsString(s) && At(chars, pos, ChrsText(s) + "\"")
    ensures StringRest(chars, pos) == Read(StringMeaning(s), pos + |ChrsText(s)| + 1)
    decreases |chars| - pos
  {
    hide EscapeAt, ChrText, IsChr, ChrMeaning;
    if chars[pos] == '"' {
      s := [];
    } else {
      var c := CharAccepted(chars, pos);
      var rest := CharsAccepted(chars, pos + |ChrText(c)|);
      s := [c] + rest;
      assert s[1..] == rest;
      Assoc(ChrText(c), ChrsText(rest), "\"");
      AtConcat(chars, pos, ChrText(c), ChrsText(rest) + "\"");
    }
  }

  lemma StringAccepted(chars: string, pos: nat) returns (s: seq<Chr>)
    requires StringToken(chars, pos).Some?
    ensures IsString(s) && At(chars, pos, StringText(s))
    ensures StringToken(chars, pos) == Read(StringMeaning(s), pos + |StringText(s)|)
  {
    s := CharsAccepted(chars, pos + 1);
    AtConcat(chars, pos, "\"", ChrsText(s) + "\"");
  }

  /** A tree whose text stands at `pos` and means what the parser read there. */
  ghost predicate Derives(chars: string, pos: nat, t: Tree, v: JsonValue, end: nat) {
    IsTree(t) && At(chars, pos, TreeText(t)) && Meaning(t) == Some(v) && end == pos + |TreeText(t)|
  }

  lemma {:induction false} ValueAccepted(chars: string, pos: nat) returns (t: Tree)
    requires pos <= |chars| && SkipSpace(chars, pos) == pos && ValueAt(chars, pos).Some?
    ensures Derives(chars, pos, t, ValueAt(chars, pos).value.0, ValueAt(chars, pos).value.1)
    decreases |chars| - pos, 2
  {
    hide StringToken, NumberEnd, ArrayAt, ObjectAt, StringMeaning, StringText, NumberText, IsNumber, IsString;
    var c := chars[pos];
    if c == '{' {
      t := ObjectAccepted(chars, pos);
    } else if c == '[' {
      t := ArrayAccepted(chars, pos);
    } else if c == '"' {
      var s := StringAccepted(chars, pos);
      t := TString(s);
    } else if c == 't' {
      t := TBool(true);
    } else if c == 'f' {
      t := TBool(false);
    } else if c == 'n' {
      t := TNull;
    } else {
      var n := NumberAccepted(chars, pos);
      t := TNumber(n);
    }
  }

  lemma ArrayTree(space: string, items: seq<Item>)
    requires Space(space) && IsItems(items)
    ensures var t := TArray(space, items);
            && IsTree(t)
            && TreeText(t) == "[" + (if |items| == 0 then space + "]" else ItemsText(items))
            && Meaning(t) == match ItemsMeaning(items) case None => None case Some(vs) => Some(Array(vs))
  {
  }

  lemma {:induction false} ArrayAccepted(chars: string, pos: nat) returns (t: Tree)
    requires CharAt(chars, pos, '[') && ArrayAt(chars, pos).Some?
    ensures Derives(chars, pos, t, ArrayAt(chars, pos).value.0, ArrayAt(chars, pos).value.1)
    decreases |chars| - pos, 1
  {
    hide ItemsAt, ItemsText, ItemsMeaning, IsItems, IsTree, TreeText, Meaning, SkipSpace, At;
    OneChar(chars, pos);
    var space := SpaceSkipped(chars, pos + 1);
    var p := pos + 1 + |space|;
    if CharAt(chars, p, ']') {
      t := TArray(space, []);
      NoItems();
      ArrayTree(space, []);
      OneChar(chars, p);
      AtConcat(chars, pos + 1, space, "]");
      AtConcat(chars, pos, "[", space + "]");
    } else {
      ItemsAfterSpace(chars, pos + 1);
      var items := ItemsAccepted(chars, pos + 1);
      t := TArray("", items);
      ArrayTree("", items);
      AtConcat(chars, pos, "[", ItemsText(items));
    }
  }

  lemma NoItems()
    ensures IsItems([]) && ItemsMeaning([]) == Some([])
    ensures IsEntries([]) && EntriesMeaning([]) == Some([])
  {
  }

  lemma ItemsCons(item: Item, rest: seq<Item>)
    requires IsItem(item) && IsItems(rest)
    ensures var items := [item] + rest;
            && IsItems(items)
            && ItemsText(items) == ItemText(item) + (if |rest| == 0 then "]" else "," + ItemsText(rest))
            && ItemsMeaning(items)
               == match ItemMeaning(item)
                  case None => None
                  case Some(v) =>
                    match ItemsMeaning(rest)
                    case None => None
                    case Some(vs) => Some([v] + vs)
  {
    hide IsItem, ItemText, ItemMeaning;
    assert ([item] + rest)[1..] == rest;
  }

  lemma {:induction false} ItemsAccepted(chars: string, pos: nat) returns (items: seq<Item>)
    requires pos <= |chars| && ItemsAt(chars, pos).Some?
    ensures |items| > 0 && IsItems(items) && At(chars, pos, ItemsText(items))
    ensures ItemsAt(chars, pos) == Read(ItemsMeaning(items), pos + |ItemsText(items)|)
    decreases |chars| - pos, 3
  {
    hide ValueAt, SkipSpace, TreeText, Meaning, IsTree, IsItems, ItemsText, ItemsMeaning, At, Space;
    var before := SpaceSkipped(chars, pos);
    var p := pos + |before|;
    SkipSpaceTwice(chars, pos);
    var t := ValueAccepted(chars, p);
    var q := p + |TreeText(t)|;
    var after := SpaceSkipped(chars, q);
    var item := Item(before, t, after);
    ItemStands(chars, pos, item);
    var end := q + |after|;
    OneChar(chars, end);
    if CharAt(chars, end, ',') {
      var rest := ItemsAccepted(chars, end + 1);
      items := [item] + rest;
      ItemsCons(item, rest);
      AtConcat(chars, end, ",", ItemsText(rest));
      AtConcat(chars, pos, ItemText(item), "," + ItemsText(rest));
    } else {
      items := [item] + [];
      NoItems();
      ItemsCons(item, []);
      AtConcat(chars, pos, ItemText(item), "]");
      AppendNothing(ValueAt(chars, p).value.0);
    }
  }

  lemma AppendNothing<T>(v: T)
    ensures [v] + [] == [v]
  {
  }

  lemma ItemStands(chars: string, pos: nat, item: Item)
    requires At(chars, pos, item.before) && At(chars, pos + |item.before|, TreeText(item.value))
    requires At(chars, pos + |item.before| + |TreeText(item.value)|, item.after)
    ensures At(chars, pos, ItemText(item))
  {
    AtConcat(chars, pos + |item.before|, TreeText(item.value), item.after);
    AtConcat(chars, pos, item.before, TreeText(item.value) + item.after);
  }

  lemma ObjectTree(space: string, entries: seq<Entry>)
    requires Space(space) && IsEntries(entries)
    ensures var t := TObject(space, entries);
            && IsTree(t)
            && TreeText(t) == "{" + (if |entries| == 0 then space + "}" else EntriesText(entries))
            && Meaning(t) == match EntriesMeaning(entries) case None => None case Some(vs) => Some(Object(vs))
  {
  }

  lemma {:induction false} ObjectAccepted(chars: string, pos: nat) returns (t: Tree)
    requires CharAt(chars, pos, '{') && ObjectAt(chars, pos).Some?
    ensures Derives(chars, pos, t, ObjectAt(chars, pos).value.0, ObjectAt(chars, pos).value.1)
    decreases |chars| - pos, 1
  {
    hide EntriesAt, EntriesText, EntriesMeaning, IsEntries, IsTree, TreeText, Meaning, SkipSpace, At;
    OneChar(chars, pos);
    var space := SpaceSkipped(chars, pos + 1);
    var p := pos + 1 + |space|;
    if CharAt(chars, p, '}') {
      t := TObject(space, []);
      NoItems();
      ObjectTree(space, []);
      OneChar(chars, p);
      AtConcat(chars, pos + 1, space, "}");
      AtConcat(chars, pos, "{", space + "}");
    } else {
      EntriesAfterSpace(chars, pos + 1);
      var entries := EntriesAccepted(chars, pos + 1);
      t := TObject("", entries);
      ObjectTree("", entries);
      AtConcat(chars, pos, "{", EntriesText(entries));
    }
  }

  lemma EntriesCons(e: Entry, rest: seq<Entry>)
    requires IsEntry(e) && IsEntries(rest)
    ensures var entries := [e] + rest;
            && IsEntries(entries)
            && EntriesText(entries) == EntryText(e) + (if |rest| == 0 then "}" else "," + EntriesText(rest))
            && EntriesMeaning(entries)
               == match EntryMeaning(e)
                  case None => None
                  case Some(v) =>
                    match EntriesMeaning(rest)
                    case None => None
                    case Some(vs) => Some([v] + vs)
  {
    hide IsEntry, EntryText, EntryMeaning;
    assert ([e] + rest)[1..] == rest;
  }

  /** An entry without the white space after its value. */
  lemma {:induction false} EntryAccepted(chars: string, pos: nat) returns (e: Entry)
    requires pos <= |chars| && EntryAt(chars, pos).Some?
    ensures IsEntry(e) && e.after == "" && At(chars, pos, EntryText(e))
    ensures EntryAt(chars, pos) == Read(EntryMeaning(e), pos + |EntryText(e)|)
    decreases |chars| - pos, 3
  {
    hide ValueAt, StringToken, TreeText, StringText, Meaning, StringMeaning, IsTree, IsString, SkipSpace;
    var before := SpaceSkipped(chars, pos);
    var n := pos + |before|;
    var name := StringAccepted(chars, n);
    var a := n + |StringText(name)|;
    var afterName := SpaceSkipped(chars, a);
    var c := a + |afterName|;
    var beforeValue := SpaceSkipped(chars, c + 1);
    var v := c + 1 + |beforeValue|;
    ValueAfterSpace(chars, c + 1, v);
    SkipSpaceTwice(chars, c + 1);
    var t := ValueAccepted(chars, v);
    e := Entry(before, name, afterName, beforeValue, t, "");
    EntryStands(chars, pos, e);
  }

  lemma EntryStands(chars: string, pos: nat, e: Entry)
    requires var n := pos + |e.before|;
             var a := n + |StringText(e.name)|;
             var c := a + |e.afterName|;
             var v := c + 1 + |e.beforeValue|;
             && At(chars, pos, e.before) && At(chars, n, StringText(e.name)) && At(chars, a, e.afterName)
             && CharAt(chars, c, ':') && At(chars, c + 1, e.beforeValue) && At(chars, v, TreeText(e.value))
             && At(chars, v + |TreeText(e.value)|, e.after)
    ensures At(chars, pos, EntryText(e))
  {
    hide StringText, TreeText;
    var value := TreeText(e.value) + e.after;
    var tail := e.beforeValue + value;
    var n := pos + |e.before|;
    var a := n + |StringText(e.name)|;
    var c := a + |e.afterName|;
    AtConcat(chars, c + 1 + |e.beforeValue|, TreeText(e.value), e.after);
    AtConcat(chars, c + 1, e.beforeValue, value);
    AtConcat(chars, c, ":", tail);
    AtConcat(chars, a, e.afterName, ":" + tail);
    AtConcat(chars, n, StringText(e.name), e.afterName + (":" + tail));
    AtConcat(chars, pos, e.before, StringText(e.name) + (e.afterName + (":" + tail)));
  }

  /** White space after an entry belongs to it. */
  lemma EntryWithAfter(chars: string, pos: nat, e: Entry, after: string)
    requires e.after == "" && At(chars, pos, EntryText(e)) && At(chars, pos + |EntryText(e)|, after)
    ensures At(chars, pos, EntryText(e.(after := after)))
    ensures |EntryText(e.(after := after))| == |EntryText(e)| + |after|
  {
    hide At, StringText, TreeText;
    EntryParts(chars, pos, e);
    EntryLength(e);
    EntryLength(e.(after := after));
    EntryStands(chars, pos, e.(after := after));
  }

  lemma EntryLength(e: Entry)
    ensures |EntryText(e)| == |e.before| + |StringText(e.name)| + |e.afterName| + 1 + |e.beforeValue|
                              + |TreeText(e.value)| + |e.after|
  {
    hide StringText, TreeText;
  }

  lemma {:induction false} EntriesAccepted(chars: string, pos: nat) returns (entries: seq<Entry>)
    requires pos <= |chars| && EntriesAt(chars, pos).Some?
    ensures |entries| > 0 && IsEntries(entries) && At(chars, pos, EntriesText(entries))
    ensures EntriesAt(chars, pos) == Read(EntriesMeaning(entries), pos + |EntriesText(entries)|)
    decreases |chars| - pos, 4
  {
    hide EntryAt, SkipSpace, EntryText, StringMeaning, Meaning, IsTree, IsString, IsEntries, EntriesText;
    hide EntriesMeaning, At, Space;
    var bare := EntryAccepted(chars, pos);
    var after := SpaceSkipped(chars, pos + |EntryText(bare)|);
    var e := bare.(after := after);
    EntryWithAfter(chars, pos, bare, after);
    var end := pos + |EntryText(e)|;
    OneChar(chars, end);
    if CharAt(chars, end, ',') {
      var rest := EntriesAccepted(chars, end + 1);
      entries := [e] + rest;
      EntriesCons(e, rest);
      AtConcat(chars, end, ",", EntriesText(rest));
      AtConcat(chars, pos, EntryText(e), "," + EntriesText(rest));
    } else {
      entries := [e] + [];
      NoItems();
      EntriesCons(e, []);
      AtConcat(chars, pos, EntryText(e), "}");
      AppendNothing(EntryAt(chars, pos).value.0);
    }
  }

  // ----- whole documents

  /** A JSON text: one value with white space around it. */
  predicate IsDocument(doc: Item) {
    IsItem(doc)
  }

  ghost predicate Denotes(input: string, v: JsonValue) {
    exists doc: Item :: IsDocument(doc) && ItemText(doc) == input && ItemMeaning(doc) == Some(v)
  }

  /** On the text of any document the parser returns its meaning, and fails if it has none. */
  lemma ParsesDocument(doc: Item)
    requires IsDocument(doc)
    ensures ParseText(ItemText(doc)) == ItemMeaning(doc)
  {
    hide ValueAt, TreeText, IsTree, Meaning, SkipSpace;
    var input, text := ItemText(doc), TreeText(doc.value);
    var p := |doc.before|;
    assert At(input, 0, input);
    AtConcat(input, 0, doc.before, text + doc.after);
    AtConcat(input, p, text, doc.after);
    TreeStarts(doc.value);
    AtChar(input, p, text, 0);
    SkipsSpace(input, 0, doc.before);
    SkipsSpace(input, p + |text|, doc.after);
    if |doc.after| > 0 { AtChar(input, p + |text|, doc.after, 0); }
    ReadsValue(input, p, doc.value);
  }

  lemma AcceptedIsDocument(input: string) returns (doc: Item)
    requires ParseText(input).Some?
    ensures IsDocument(doc) && ItemText(doc) == input && ItemMeaning(doc) == ParseText(input)
  {
    hide ValueAt, SkipSpace, TreeText, Meaning, IsTree;
    var before := SpaceSkipped(input, 0);
    SkipSpaceTwice(input, 0);
    var t := ValueAccepted(input, |before|);
    var after := SpaceSkipped(input, |before| + |TreeText(t)|);
    doc := Item(before, t, after);
    ItemStands(input, 0, doc);
    assert |ItemText(doc)| == |input|;
    assert input[0..|input|] == input;
  }

  /**
   The parser accepts exactly the JSON texts of RFC 8259 whose `\u` escapes name no surrogate, and reads
   exactly what they denote: a text parses to `v` if and only if some derivation of the text denotes `v`.
   */
  lemma ParserIsGrammar(input: string, v: JsonValue)
    ensures ParseText(input) == Some(v) <==> Denotes(input, v)
  {
    if ParseText(input) == Some(v) {
      var doc := AcceptedIsDocument(input);
    }
    if Denotes(input, v) {
      var doc: Item :| IsDocument(doc) && ItemText(doc) == input && ItemMeaning(doc) == Some(v);
      ParsesDocument(doc);
    }
  }

  /** The grammar is unambiguous in meaning: derivations of one text denote the same value or all denote none. */
  lemma MeaningIsUnique(a: Item, b: Item)
    requires IsDocument(a) && IsDocument(b) && ItemText(a) == ItemText(b)
    ensures ItemMeaning(a) == ItemMeaning(b)
  {
    ParsesDocument(a);
    ParsesDocument(b);
  }

  // ----- which derivations denote nothing

  predicate NamesSurrogate(c: Chr) {
    c.Unicode? && HexNumber(c.digits, 0).Some? && IsSurrogate(HexNumber(c.digits, 0).value)
  }

  /** Some string or name in the tree has a `\u` escape that names a surrogate. */
  predicate HasSurrogate(t: Tree)
    decreases t, 0
  {
    match t
    case TString(s) => exists i :: 0 <= i < |s| && NamesSurrogate(s[i])
    case TArray(_, items) => exists i :: 0 <= i < |items| && ItemHasSurrogate(items[i])
    case TObject(_, entries) => exists i :: 0 <= i < |entries| && EntryHasSurrogate(entries[i])
    case _ => false
  }

  predicate ItemHasSurrogate(item: Item)
    decreases item, 1
  {
    HasSurrogate(item.value)
  }

  predicate EntryHasSurrogate(e: Entry)
    decreases e, 1
  {
    (exists i :: 0 <= i < |e.name| && NamesSurrogate(e.name[i])) || HasSurrogate(e.value)
  }

  function Power16(n: nat): nat {
    if n == 0 then 1 else 16 * Power16(n - 1)
  }

  lemma OneMoreDigit(code: nat, digit: nat, rest: nat)
    requires digit < 16
    ensures (code * 16 + digit + 1) * rest <= (code + 1) * (16 * rest)
  {
    assert (code + 1) * (16 * rest) == ((code + 1) * 16) * rest;
    assert (code * 16 + digit + 1) * rest <= ((code + 1) * 16) * rest;
  }

  lemma HexDigitBound(c: char)
    ensures HexDigitOf(c).Some? ==> HexDigitOf(c).value < 16
  {
  }

  lemma {:induction false} HexNumberBound(d: string, code: nat)
    requires forall i :: 0 <= i < |d| ==> HexDigitOf(d[i]).Some?
    ensures HexNumber(d, code).Some? && HexNumber(d, code).value < (code + 1) * Power16(|d|)
    decreases d
  {
    hide HexDigitOf;
    if |d| > 0 {
      HexDigitBound(d[0]);
      HexNumberBound(d[1..], code * 16 + HexDigitOf(d[0]).value);
      OneMoreDigit(code, HexDigitOf(d[0]).value, Power16(|d| - 1));
    }
  }

  lemma FourDigitsBound()
    ensures Power16(4) == 0x1_0000
  {
    assert Power16(1) == 16 && Power16(2) == 256 && Power16(3) == 4096;
  }

  lemma ChrDenotes(c: Chr)
    requires IsChr(c)
    ensures ChrMeaning(c) == None <==> NamesSurrogate(c)
  {
    if c.Unicode? {
      HexNumberBound(c.digits, 0);
      FourDigitsBound();
    }
  }

  lemma {:induction false} StringDenotes(s: seq<Chr>)
    requires IsString(s)
    ensures StringMeaning(s) == None <==> exists i :: 0 <= i < |s| && NamesSurrogate(s[i])
  {
    if |s| > 0 {
      assert IsChr(s[0]);
      ChrDenotes(s[0]);
      StringDenotes(s[1..]);
      if i :| 0 <= i < |s| && NamesSurrogate(s[i]) && !NamesSurrogate(s[0]) { assert s[1..][i - 1] == s[i]; }
      if i :| 0 <= i < |s[1..]| && NamesSurrogate(s[1..][i]) { assert s[i + 1] == s[1..][i]; }
    }
  }

  lemma {:induction false} TreeDenotes(t: Tree)
    requires IsTree(t)
    ensures Meaning(t) == None <==> HasSurrogate(t)
    decreases t, 0
  {
    match t
    case TString(s) => StringDenotes(s);
    case TArray(_, items) => ItemsDenote(items);
    case TObject(_, entries) => EntriesDenote(entries);
    case _ =>
  }

  lemma {:induction false} ItemsDenote(items: seq<Item>)
    requires IsItems(items)
    ensures ItemsMeaning(items) == None <==> exists i :: 0 <= i < |items| && ItemHasSurrogate(items[i])
    decreases items, 0
  {
    if |items| > 0 {
      ItemDenotes(items[0]);
      ItemsDenote(items[1..]);
      if i :| 0 <= i < |items| && ItemHasSurrogate(items[i]) && !ItemHasSurrogate(items[0]) {
        assert items[1..][i - 1] == items[i];
      }
      if i :| 0 <= i < |items[1..]| && ItemHasSurrogate(items[1..][i]) { assert items[i + 1] == items[1..][i]; }
    }
  }

  lemma {:induction false} ItemDenotes(item: Item)
    requires IsItem(item)
    ensures ItemMeaning(item) == None <==> ItemHasSurrogate(item)
    decreases item, 1
  {
    TreeDenotes(item.value);
  }

  lemma {:induction false} EntriesDenote(entries: seq<Entry>)
    requires IsEntries(entries)
    ensures EntriesMeaning(entries) == None <==> exists i :: 0 <= i < |entries| && EntryHasSurrogate(entries[i])
    decreases entries, 0
  {
    if |entries| > 0 {
      EntryDenotes(entries[0]);
      EntriesDenote(entries[1..]);
      if i :| 0 <= i < |entries| && EntryHasSurrogate(entries[i]) && !EntryHasSurrogate(entries[0]) {
        assert entries[1..][i - 1] == entries[i];
      }
      if i :| 0 <= i < |entries[1..]| && EntryHasSurrogate(entries[1..][i]) {
        assert entries[i + 1] == entries[1..][i];
      }
    }
  }

  lemma {:induction false} EntryDenotes(e: Entry)
    requires IsEntry(e)
    ensures EntryMeaning(e) == None <==> EntryHasSurrogate(e)
    decreases e, 1
  {
    StringDenotes(e.name);
    TreeDenotes(e.value);
  }

  /** On any JSON text of RFC 8259 the parser succeeds exactly when no `\u` escape names a surrogate. */
  lemma SucceedsWithoutSurrogates(doc: Item)
    requires IsDocument(doc)
    ensures ParseText(ItemText(doc)).Some? <==> !ItemHasSurrogate(doc)
  {
    ParsesDocument(doc);
    ItemDenotes(doc);
  }
}

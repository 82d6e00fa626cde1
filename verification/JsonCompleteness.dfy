/** Completeness of the parser: the text of every derivation is read, with its meaning. */
module JsonCompleteness {
  import opened Wrappers
  import opened Texts
  import opened JsonValues
  import opened JsonReader
  import opened JsonGrammar

  // ----- reading the text of a tree gives its meaning

  /** What a parsing step must return where `size` characters mean `m`. */
  function Read<T>(m: Option<T>, end: nat): Option<(T, nat)> {
    match m
    case None => None
    case Some(v) => Some((v, end))
  }

  /** A number that ends at `q` ends there for the parser too. */
  predicate StopsNumber(chars: string, q: nat) {
    q < |chars| ==> !IsDigit(chars[q]) && chars[q] != '.' && chars[q] != 'e' && chars[q] != 'E'
  }

  lemma {:induction false} SkipsSpace(chars: string, pos: nat, s: string)
    requires At(chars, pos, s) && Space(s) && (pos + |s| < |chars| ==> !IsSpace(chars[pos + |s|]))
    ensures SkipSpace(chars, pos) == pos + |s|
    decreases s
  {
    if |s| > 0 {
      AtChar(chars, pos, s, 0);
      assert s == [s[0]] + s[1..];
      AtConcat(chars, pos, [s[0]], s[1..]);
      SkipsSpace(chars, pos + 1, s[1..]);
    }
  }

  lemma {:induction false} SkipsDigits(chars: string, pos: nat, s: string)
    requires At(chars, pos, s) && (forall i :: 0 <= i < |s| ==> IsDigit(s[i])) && !DigitAt(chars, pos + |s|)
    ensures SkipDigits(chars, pos) == pos + |s|
    decreases s
  {
    if |s| > 0 {
      AtChar(chars, pos, s, 0);
      assert s == [s[0]] + s[1..];
      AtConcat(chars, pos, [s[0]], s[1..]);
      SkipsDigits(chars, pos + 1, s[1..]);
    }
  }

  lemma ReadsInteger(chars: string, pos: nat, s: string)
    requires At(chars, pos, s) && AllDigits(s) && (s[0] == '0' ==> |s| == 1) && !DigitAt(chars, pos + |s|)
    ensures IntegerEnd(chars, pos) == Some(pos + |s|)
  {
    AtChar(chars, pos, s, 0);
    SkipsDigits(chars, pos, s);
  }

  lemma ReadsFraction(chars: string, pos: nat, f: Option<string>)
    requires At(chars, pos, FractionText(f)) && (f.Some? ==> AllDigits(f.value))
    requires var q := pos + |FractionText(f)|; !DigitAt(chars, q) && (f.None? ==> !CharAt(chars, q, '.'))
    ensures FractionEnd(chars, pos) == Some(pos + |FractionText(f)|)
  {
    if f.Some? {
      AtConcat(chars, pos, ".", f.value);
      AtChar(chars, pos, ".", 0);
      AtChar(chars, pos + 1, f.value, 0);
      SkipsDigits(chars, pos + 1, f.value);
    }
  }

  lemma ReadsExponent(chars: string, pos: nat, e: Option<Exponent>)
    requires At(chars, pos, ExponentText(e)) && StopsNumber(chars, pos + |ExponentText(e)|)
    requires e.Some? ==> IsExponent(e.value)
    ensures ExponentEnd(chars, pos) == Some(pos + |ExponentText(e)|)
  {
    hide At, SkipDigits, SkipSign, IsExponent;
    if e.Some? { ExponentParts(chars, pos, e.value); }
  }

  lemma DigitsOnly(s: string)
    requires AllDigits(s)
    ensures |s| > 0 && forall i :: 0 <= i < |s| ==> IsDigit(s[i])
  {
  }

  /** Where the mark, the sign and the digits of an exponent stand. */
  lemma ExponentParts(chars: string, pos: nat, x: Exponent)
    requires At(chars, pos, ExponentText(Some(x))) && IsExponent(x)
    requires !DigitAt(chars, pos + |ExponentText(Some(x))|)
    ensures pos < |chars| && (chars[pos] == 'e' || chars[pos] == 'E')
    ensures SkipSign(chars, pos + 1) == pos + 1 + |x.sign| && DigitAt(chars, pos + 1 + |x.sign|)
    ensures SkipDigits(chars, pos + 1 + |x.sign|) == pos + |ExponentText(Some(x))|
  {
    hide At, AllDigits, SkipSign, SkipDigits;
    AtConcat(chars, pos, [x.mark], x.sign + x.digits);
    AtChar(chars, pos, [x.mark], 0);
    AtConcat(chars, pos + 1, x.sign, x.digits);
    DigitsOnly(x.digits);
    AtChar(chars, pos + 1 + |x.sign|, x.digits, 0);
    SkipsSign(chars, pos + 1, x.sign);
    SkipsDigits(chars, pos + 1 + |x.sign|, x.digits);
  }

  lemma SkipsSign(chars: string, pos: nat, sign: string)
    requires At(chars, pos, sign) && (sign == "" || sign == "+" || sign == "-") && DigitAt(chars, pos + |sign|)
    ensures SkipSign(chars, pos) == pos + |sign|
  {
    hide At;
    if |sign| > 0 { AtChar(chars, pos, sign, 0); }
  }

  /** What stands after the integer part of a number cannot extend it. */
  lemma AfterInteger(chars: string, pos: nat, f: Option<string>, e: Option<Exponent>)
    requires At(chars, pos, FractionText(f)) && At(chars, pos + |FractionText(f)|, ExponentText(e))
    requires StopsNumber(chars, pos + |FractionText(f)| + |ExponentText(e)|)
    requires e.Some? ==> e.value.mark == 'e' || e.value.mark == 'E'
    ensures !DigitAt(chars, pos) && !DigitAt(chars, pos + |FractionText(f)|)
    ensures !CharAt(chars, pos + |FractionText(f)|, '.')
  {
    if f.Some? { AtChar(chars, pos, FractionText(f), 0); }
    if e.Some? { AtChar(chars, pos + |FractionText(f)|, ExponentText(e), 0); }
  }

  /** Where the parts of a number stand. */
  lemma NumberParts(chars: string, pos: nat, n: Number)
    requires At(chars, pos, NumberText(n))
    ensures var i := pos + if n.minus then 1 else 0;
            var f := i + |n.integer|;
            var e := f + |FractionText(n.fraction)|;
            && (n.minus ==> CharAt(chars, pos, '-'))
            && At(chars, i, n.integer) && At(chars, f, FractionText(n.fraction))
            && At(chars, e, ExponentText(n.exponent))
            && pos + |NumberText(n)| == e + |ExponentText(n.exponent)|
  {
    hide FractionText, ExponentText;
    var sign, f, e := if n.minus then "-" else "", FractionText(n.fraction), ExponentText(n.exponent);
    AtConcat(chars, pos, sign, n.integer + (f + e));
    AtConcat(chars, pos + |sign|, n.integer, f + e);
    AtConcat(chars, pos + |sign| + |n.integer|, f, e);
    if n.minus { AtChar(chars, pos, sign, 0); }
  }

  lemma ReadsNumber(chars: string, pos: nat, n: Number)
    requires At(chars, pos, NumberText(n)) && IsNumber(n) && StopsNumber(chars, pos + |NumberText(n)|)
    ensures |NumberText(n)| > 0 && (chars[pos] == '-' || IsDigit(chars[pos]))
    ensures NumberEnd(chars, pos) == Some(pos + |NumberText(n)|)
  {
    hide At, IntegerEnd, FractionEnd, ExponentEnd, FractionText, ExponentText, NumberText, StopsNumber;
    NumberParts(chars, pos, n);
    var i := pos + if n.minus then 1 else 0;
    var f := i + |n.integer|;
    var e := f + |FractionText(n.fraction)|;
    AtChar(chars, i, n.integer, 0);
    AfterInteger(chars, f, n.fraction, n.exponent);
    ReadsInteger(chars, i, n.integer);
    ReadsFraction(chars, f, n.fraction);
    ReadsExponent(chars, e, n.exponent);
  }

  lemma {:induction false} ReadsHex(chars: string, pos: nat, d: string, code: nat)
    requires At(chars, pos, d)
    ensures HexCode(chars, pos, |d|, code) == HexNumber(d, code)
    decreases d
  {
    if |d| > 0 {
      AtChar(chars, pos, d, 0);
      assert d == [d[0]] + d[1..];
      AtConcat(chars, pos, [d[0]], d[1..]);
      if HexValue(d[0]).Some? { ReadsHex(chars, pos + 1, d[1..], code * 16 + HexValue(d[0]).value); }
    }
  }

  lemma ReadsEscape(chars: string, pos: nat, c: Chr)
    requires At(chars, pos, ChrText(c)) && IsChr(c) && !c.Verbatim?
    ensures chars[pos] == '\\' && EscapeAt(chars, pos + 1) == Read(ChrMeaning(c), pos + |ChrText(c)|)
  {
    AtChar(chars, pos, ChrText(c), 0);
    AtChar(chars, pos, ChrText(c), 1);
    if c.Unicode? {
      AtConcat(chars, pos, "\\u", c.digits);
      ReadsHex(chars, pos + 2, c.digits, 0);
    }
  }

  /** One more element of a string: the rest is read from behind it. */
  lemma ReadsChr(chars: string, pos: nat, c: Chr)
    requires At(chars, pos, ChrText(c)) && IsChr(c)
    ensures pos < |chars| && StringRest(chars, pos)
         == match ChrMeaning(c)
            case None => None
            case Some(v) =>
              match StringRest(chars, pos + |ChrText(c)|)
              case None => None
              case Some((rest, end)) => Some(([v] + rest, end))
  {
    AtChar(chars, pos, ChrText(c), 0);
    if !c.Verbatim? {
      hide EscapeAt, IsChr, ChrText, ChrMeaning;
      ReadsEscape(chars, pos, c);
    }
  }

  lemma ReadsQuote(chars: string, pos: nat)
    requires At(chars, pos, "\"")
    ensures StringRest(chars, pos) == Some(("", pos + 1))
  {
    AtChar(chars, pos, "\"", 0);
  }

  lemma {:induction false} ReadsChars(chars: string, pos: nat, s: seq<Chr>)
    requires At(chars, pos, ChrsText(s) + "\"") && IsString(s)
    ensures StringRest(chars, pos) == Read(StringMeaning(s), pos + |ChrsText(s)| + 1)
    decreases |s|
  {
    hide At, IsChr, ChrText, ChrMeaning, StringRest;
    if |s| == 0 {
      assert ChrsText(s) + "\"" == "\"";
      ReadsQuote(chars, pos);
    } else {
      var c, rest := ChrText(s[0]), ChrsText(s[1..]);
      Assoc(c, rest, "\"");
      AtConcat(chars, pos, c, rest + "\"");
      ReadsChars(chars, pos + |c|, s[1..]);
      ReadsChr(chars, pos, s[0]);
    }
  }

  lemma ReadsString(chars: string, pos: nat, s: seq<Chr>)
    requires At(chars, pos, StringText(s)) && IsString(s)
    ensures chars[pos] == '"' && StringToken(chars, pos) == Read(StringMeaning(s), pos + |StringText(s)|)
  {
    hide ChrsText, StringRest, StringMeaning, At, IsString;
    AtConcat(chars, pos, "\"", ChrsText(s) + "\"");
    AtChar(chars, pos, "\"", 0);
    ReadsChars(chars, pos + 1, s);
  }

  /** What may follow a value: white space, a separator, a closing bracket, or the end. */
  predicate Follows(chars: string, q: nat) {
    q < |chars| ==> IsSpace(chars[q]) || chars[q] == ',' || chars[q] == ']' || chars[q] == '}'
  }

  /** The first character of a tree's text tells the parser which method to call. */
  lemma TreeStarts(t: Tree)
    requires IsTree(t)
    ensures |TreeText(t)| > 0
    ensures var c := TreeText(t)[0];
            && !IsSpace(c)
            && (t.TObject? <==> c == '{') && (t.TArray? <==> c == '[') && (t.TString? <==> c == '"')
            && ((t.TBool? && t.flag) <==> c == 't') && ((t.TBool? && !t.flag) <==> c == 'f')
            && (t.TNull? <==> c == 'n') && (t.TNumber? <==> (c == '-' || IsDigit(c)))
            && c != ']' && c != '}'
  {
    if t.TNumber? { NumberStarts(t.number); }
  }

  lemma NumberStarts(n: Number)
    requires IsNumber(n)
    ensures |NumberText(n)| > 0 && (NumberText(n)[0] == '-' || IsDigit(NumberText(n)[0]))
  {
  }

  lemma {:induction false} ReadsValue(chars: string, pos: nat, t: Tree)
    requires At(chars, pos, TreeText(t)) && IsTree(t) && Follows(chars, pos + |TreeText(t)|)
    ensures ValueAt(chars, pos) == Read(Meaning(t), pos + |TreeText(t)|)
    decreases t, 2
  {
    hide StringText, NumberText, NumberEnd, StringToken, ArrayAt, ObjectAt, ItemsText, EntriesText;
    TreeStarts(t);
    AtChar(chars, pos, TreeText(t), 0);
    match t
    case TString(s) => ReadsString(chars, pos, s);
    case TNumber(n) => ReadsNumber(chars, pos, n);
    case TArray(_, _) => ReadsArray(chars, pos, t);
    case TObject(_, _) => ReadsObject(chars, pos, t);
    case _ =>
  }

  /** Leading white space makes no difference to a value. */
  lemma ValueAfterSpace(chars: string, pos: nat, q: nat)
    requires pos <= |chars| && SkipSpace(chars, pos) == q
    ensures ValueAt(chars, pos) == ValueAt(chars, q)
  {
    SkipSpaceTwice(chars, pos);
  }

  lemma SkipSpaceTwice(chars: string, pos: nat)
    requires pos <= |chars|
    ensures SkipSpace(chars, SkipSpace(chars, pos)) == SkipSpace(chars, pos)
  {
  }

  lemma {:induction false} ReadsArray(chars: string, pos: nat, t: Tree)
    requires t.TArray? && At(chars, pos, TreeText(t)) && IsTree(t)
    ensures pos < |chars| && ArrayAt(chars, pos) == Read(Meaning(t), pos + |TreeText(t)|)
    decreases t, 1
  {
    hide ItemsText, ItemsAt, SkipSpace;
    if |t.items| == 0 {
      AtConcat(chars, pos, "[", t.space + "]");
      AtConcat(chars, pos + 1, t.space, "]");
      AtChar(chars, pos + 1 + |t.space|, "]", 0);
      SkipsSpace(chars, pos + 1, t.space);
    } else {
      AtConcat(chars, pos, "[", ItemsText(t.items));
      ReadsItems(chars, pos + 1, t.items);
      ItemsAfterSpace(chars, pos + 1);
    }
  }

  lemma ItemsAfterSpace(chars: string, pos: nat)
    requires pos <= |chars|
    ensures ItemsAt(chars, SkipSpace(chars, pos)) == ItemsAt(chars, pos)
  {
    SkipSpaceTwice(chars, pos);
  }

  /** An item's parts, and what the value reads to. */
  lemma {:induction false} ReadsItem(chars: string, pos: nat, item: Item)
    requires At(chars, pos, ItemText(item)) && IsItem(item)
    requires var end := pos + |ItemText(item)|; end < |chars| && (chars[end] == ',' || chars[end] == ']')
    ensures var p := SkipSpace(chars, pos);
            var end := pos + |ItemText(item)|;
            && !CharAt(chars, p, ']')
            && match ItemMeaning(item)
               case None => ValueAt(chars, p) == None
               case Some(v) =>
                 ValueAt(chars, p).Some? && ValueAt(chars, p).value.0 == v
                 && SkipSpace(chars, ValueAt(chars, p).value.1) == end
    decreases item, 3
  {
    hide At, ValueAt, TreeText, IsTree, Meaning;
    var text := TreeText(item.value);
    AtConcat(chars, pos, item.before, text + item.after);
    var p := pos + |item.before|;
    AtConcat(chars, p, text, item.after);
    TreeStarts(item.value);
    AtChar(chars, p, text, 0);
    SkipsSpace(chars, pos, item.before);
    SkipsSpace(chars, p + |text|, item.after);
    if |item.after| > 0 { AtChar(chars, p + |text|, item.after, 0); }
    ReadsValue(chars, p, item.value);
  }

  lemma {:induction false} ReadsItems(chars: string, pos: nat, items: seq<Item>)
    requires |items| > 0 && At(chars, pos, ItemsText(items)) && IsItems(items)
    ensures ItemsAt(chars, pos) == Read(ItemsMeaning(items), pos + |ItemsText(items)|)
    ensures !CharAt(chars, SkipSpace(chars, pos), ']')
    decreases items, 3
  {
    hide At, ItemText, ItemMeaning, SkipSpace, ValueAt, IsItem;
    var text, rest := ItemText(items[0]), if |items| == 1 then "]" else "," + ItemsText(items[1..]);
    AtConcat(chars, pos, text, rest);
    var end := pos + |text|;
    AtChar(chars, end, rest, 0);
    ReadsItem(chars, pos, items[0]);
    if |items| > 1 {
      AtConcat(chars, end, ",", ItemsText(items[1..]));
      ReadsItems(chars, end + 1, items[1..]);
    } else {
      assert ItemsMeaning(items[1..]) == Some([]);
      assert forall v: JsonValue :: [v] + [] == [v];
    }
  }

  lemma {:induction false} ReadsObject(chars: string, pos: nat, t: Tree)
    requires t.TObject? && At(chars, pos, TreeText(t)) && IsTree(t)
    ensures pos < |chars| && ObjectAt(chars, pos) == Read(Meaning(t), pos + |TreeText(t)|)
    decreases t, 1
  {
    hide EntriesText, EntriesAt;
    if |t.entries| == 0 {
      AtConcat(chars, pos, "{", t.space + "}");
      AtConcat(chars, pos + 1, t.space, "}");
      AtChar(chars, pos + 1 + |t.space|, "}", 0);
      SkipsSpace(chars, pos + 1, t.space);
    } else {
      AtConcat(chars, pos, "{", EntriesText(t.entries));
      ReadsEntries(chars, pos + 1, t.entries);
      EntriesAfterSpace(chars, pos + 1);
    }
  }

  lemma EntriesAfterSpace(chars: string, pos: nat)
    requires pos <= |chars|
    ensures EntriesAt(chars, SkipSpace(chars, pos)) == EntriesAt(chars, pos)
  {
    SkipSpaceTwice(chars, pos);
  }

  /** Where the parts of an entry stand. */
  lemma EntryParts(chars: string, pos: nat, e: Entry)
    requires At(chars, pos, EntryText(e))
    ensures var n := pos + |e.before|;
            var a := n + |StringText(e.name)|;
            var c := a + |e.afterName|;
            var v := c + 1 + |e.beforeValue|;
            var w := v + |TreeText(e.value)|;
            && At(chars, pos, e.before) && At(chars, n, StringText(e.name)) && At(chars, a, e.afterName)
            && CharAt(chars, c, ':') && At(chars, c + 1, e.beforeValue) && At(chars, v, TreeText(e.value))
            && At(chars, w, e.after) && w + |e.after| == pos + |EntryText(e)|
  {
    hide At, StringText, TreeText;
    var value := TreeText(e.value) + e.after;
    var tail := e.beforeValue + value;
    AtConcat(chars, pos, e.before, StringText(e.name) + (e.afterName + (":" + tail)));
    var n := pos + |e.before|;
    AtConcat(chars, n, StringText(e.name), e.afterName + (":" + tail));
    var a := n + |StringText(e.name)|;
    AtConcat(chars, a, e.afterName, ":" + tail);
    var c := a + |e.afterName|;
    AtConcat(chars, c, ":", tail);
    AtChar(chars, c, ":", 0);
    AtConcat(chars, c + 1, e.beforeValue, value);
    AtConcat(chars, c + 1 + |e.beforeValue|, TreeText(e.value), e.after);
  }

  /** The name of an entry is read up to its colon. */
  lemma ReadsEntryName(chars: string, pos: nat, e: Entry)
    requires At(chars, pos, EntryText(e)) && IsEntry(e)
    ensures var n := pos + |e.before|;
            var a := n + |StringText(e.name)|;
            && SkipSpace(chars, pos) == n && CharAt(chars, n, '"')
            && StringToken(chars, n) == Read(StringMeaning(e.name), a)
            && SkipSpace(chars, a) == a + |e.afterName| && CharAt(chars, a + |e.afterName|, ':')
  {
    hide At, TreeText, StringText, EntryText, IsTree, StringToken, IsString, StringMeaning;
    EntryParts(chars, pos, e);
    var n := pos + |e.before|;
    ReadsString(chars, n, e.name);
    SkipsSpace(chars, pos, e.before);
    SkipsSpace(chars, n + |StringText(e.name)|, e.afterName);
  }

  /** The value of an entry is read from after its colon. */
  lemma {:induction false} ReadsEntryValue(chars: string, pos: nat, e: Entry)
    requires At(chars, pos, EntryText(e)) && IsEntry(e)
    requires var end := pos + |EntryText(e)|; end < |chars| && (chars[end] == ',' || chars[end] == '}')
    ensures var c := pos + |e.before| + |StringText(e.name)| + |e.afterName|;
            var w := c + 1 + |e.beforeValue| + |TreeText(e.value)|;
            && c < |chars| && w <= |chars|
            && ValueAt(chars, c + 1) == Read(Meaning(e.value), w) && SkipSpace(chars, w) == pos + |EntryText(e)|
    decreases e, 3
  {
    hide At, ValueAt, TreeText, StringText, EntryText, IsTree, IsString, Meaning;
    EntryParts(chars, pos, e);
    var c := pos + |e.before| + |StringText(e.name)| + |e.afterName|;
    var v := c + 1 + |e.beforeValue|;
    var w := v + |TreeText(e.value)|;
    TreeStarts(e.value);
    AtChar(chars, v, TreeText(e.value), 0);
    SkipsSpace(chars, c + 1, e.beforeValue);
    ValueAfterSpace(chars, c + 1, v);
    SkipsSpace(chars, w, e.after);
    if |e.after| > 0 { AtChar(chars, w, e.after, 0); }
    ReadsValue(chars, v, e.value);
  }

  /** An entry's name is found first, then its value. */
  lemma {:induction false} ReadsEntry(chars: string, pos: nat, e: Entry)
    requires At(chars, pos, EntryText(e)) && IsEntry(e)
    requires var end := pos + |EntryText(e)|; end < |chars| && (chars[end] == ',' || chars[end] == '}')
    ensures var end := pos + |EntryText(e)|;
            && !CharAt(chars, SkipSpace(chars, pos), '}')
            && match EntryMeaning(e)
               case None => EntryAt(chars, pos) == None
               case Some(v) =>
                 EntryAt(chars, pos).Some? && EntryAt(chars, pos).value.0 == v
                 && SkipSpace(chars, EntryAt(chars, pos).value.1) == end
    decreases e, 4
  {
    hide At, ValueAt, TreeText, StringText, EntryText, IsEntry, StringToken, StringMeaning, Meaning, SkipSpace;
    ReadsEntryName(chars, pos, e);
    ReadsEntryValue(chars, pos, e);
  }

  lemma {:induction false} ReadsEntries(chars: string, pos: nat, entries: seq<Entry>)
    requires |entries| > 0 && At(chars, pos, EntriesText(entries)) && IsEntries(entries)
    ensures EntriesAt(chars, pos) == Read(EntriesMeaning(entries), pos + |EntriesText(entries)|)
    ensures !CharAt(chars, SkipSpace(chars, pos), '}')
    decreases entries, 4
  {
    hide At, EntryText, EntryMeaning, SkipSpace, EntryAt, IsEntry;
    var text, rest := EntryText(entries[0]), if |entries| == 1 then "}" else "," + EntriesText(entries[1..]);
    AtConcat(chars, pos, text, rest);
    var end := pos + |text|;
    AtChar(chars, end, rest, 0);
    ReadsEntry(chars, pos, entries[0]);
    if |entries| > 1 {
      AtConcat(chars, end, ",", EntriesText(entries[1..]));
      ReadsEntries(chars, end + 1, entries[1..]);
    } else {
      assert EntriesMeaning(entries[1..]) == Some([]);
      assert forall v: (string, JsonValue) :: [v] + [] == [v];
    }
  }
}

/**
 The objects of a PDF file (section 7.3 of ISO 32000-1): a parser for names, integers, references, arrays and
 dictionaries, and that it reads back what is written.
 */
module PdfObjects {
  import opened Wrappers
  import opened Texts
  import opened PdfStreams

  datatype PdfObject =
    | Named(name: string)
    | Integer(value: nat)
    | Indirect(number: nat, generation: nat)
    | List(items: seq<PdfObject>)
    | Dictionary(entries: seq<Entry>)

  type Entry = (string, PdfObject)

  // ----- tokens

  datatype Token =
    | OpenList | CloseList | OpenDictionary | CloseDictionary | NameToken(name: string) | Word(word: string)

  /** The next token of a text and what follows it. */
  function Next(s: string): (r: Option<(Token, string)>)
    ensures r.Some? ==> |r.value.1| < |s|
  {
    if |s| == 0 then None
    else if IsSpace(s[0]) then Next(s[1..])
    else if s[0] == '[' then Some((OpenList, s[1..]))
    else if s[0] == ']' then Some((CloseList, s[1..]))
    else if s[0] == '<' && |s| > 1 && s[1] == '<' then Some((OpenDictionary, s[2..]))
    else if s[0] == '>' && |s| > 1 && s[1] == '>' then Some((CloseDictionary, s[2..]))
    else if s[0] == '/' then
      var n := RegularRun(s[1..]);
      Some((NameToken(s[1..1 + n]), s[1 + n..]))
    else if IsRegular(s[0]) then
      var n := RegularRun(s);
      Some((Word(s[..n]), s[n..]))
    else None
  }

  // ----- the parser

  predicate IsNumber(word: string) {
    |word| > 0 && AllDigits(word)
  }

  /** What makes a number the start of a reference: a generation and `R`. */
  function Generation(s: string): (r: Option<(nat, string)>)
    ensures r.Some? ==> |r.value.1| < |s|
  {
    match Next(s)
    case Some((Word(w), rest)) =>
      (if !IsNumber(w) then None
       else match Next(rest)
         case Some((Word(r), after)) => if r == "R" then Some((NatValue(w), after)) else None
         case _ => None)
    case _ => None
  }

  function ParseObject(s: string): (r: Option<(PdfObject, string)>)
    ensures r.Some? ==> |r.value.1| < |s|
    decreases |s|, 0
  {
    match Next(s)
    case Some((OpenList, rest)) =>
      (match ParseItems(rest)
       case None => None
       case Some((items, after)) => Some((List(items), after)))
    case Some((OpenDictionary, rest)) =>
      (match ParseEntries(rest)
       case None => None
       case Some((entries, after)) => Some((Dictionary(entries), after)))
    case Some((NameToken(name), rest)) => Some((Named(name), rest))
    case Some((Word(w), rest)) =>
      (if !IsNumber(w) then None
       else match Generation(rest)
         case None => Some((Integer(NatValue(w)), rest))
         case Some((generation, after)) => Some((Indirect(NatValue(w), generation), after)))
    case _ => None
  }

  function ParseItems(s: string): (r: Option<(seq<PdfObject>, string)>)
    ensures r.Some? ==> |r.value.1| < |s|
    decreases |s|, 1
  {
    match Next(s)
    case None => None
    case Some((t, rest)) =>
      if t == CloseList then Some(([], rest))
      else match ParseObject(s)
        case None => None
        case Some((item, after)) =>
          match ParseItems(after)
          case None => None
          case Some((items, end)) => Some(([item] + items, end))
  }

  function ParseEntries(s: string): (r: Option<(seq<Entry>, string)>)
    ensures r.Some? ==> |r.value.1| < |s|
    decreases |s|, 0
  {
    match Next(s)
    case Some((CloseDictionary, rest)) => Some(([], rest))
    case Some((NameToken(key), rest)) =>
      (match ParseObject(rest)
       case None => None
       case Some((value, after)) =>
         match ParseEntries(after)
         case None => None
         case Some((entries, end)) => Some(([(key, value)] + entries, end)))
    case _ => None
  }

  // ----- how objects are written

  function Written(v: PdfObject): string
    decreases v, 0
  {
    match v
    case Named(name) => "/" + name
    case Integer(value) => Digits(value)
    case Indirect(number, generation) => Digits(number) + (" " + (Digits(generation) + " R"))
    case List(items) => "[" + WrittenItems(items, "")
    case Dictionary(entries) => "<<" + WrittenEntries(entries)
  }

  /** Items, the first one after `lead` and the others after a space, and the closing bracket. */
  function WrittenItems(items: seq<PdfObject>, lead: string): string
    decreases items, 0
  {
    if |items| == 0 then "]" else lead + (Written(items[0]) + WrittenItems(items[1..], " "))
  }

  function WrittenEntries(entries: seq<Entry>): string
    decreases entries, 0
  {
    if |entries| == 0 then " >>" else " " + (WrittenEntry(entries[0]) + WrittenEntries(entries[1..]))
  }

  function WrittenEntry(e: Entry): string
    decreases e, 1
  {
    "/" + (e.0 + (" " + Written(e.1)))
  }

  /** Names are made of regular characters. */
  predicate HasRegularNames(v: PdfObject)
    decreases v, 0
  {
    match v
    case Named(name) => RegularName(name)
    case List(items) => ItemsHaveRegularNames(items)
    case Dictionary(entries) => EntriesHaveRegularNames(entries)
    case _ => true
  }

  predicate ItemsHaveRegularNames(items: seq<PdfObject>)
    decreases items, 0
  {
    |items| == 0 || (HasRegularNames(items[0]) && ItemsHaveRegularNames(items[1..]))
  }

  predicate EntriesHaveRegularNames(entries: seq<Entry>)
    decreases entries, 0
  {
    |entries| == 0 || (EntryHasRegularNames(entries[0]) && EntriesHaveRegularNames(entries[1..]))
  }

  predicate EntryHasRegularNames(e: Entry)
    decreases e, 1
  {
    RegularName(e.0) && HasRegularNames(e.1)
  }

  // ----- tokens read back

  /** A token may end here. */
  predicate Breaks(rest: string) {
    |rest| == 0 || !IsRegular(rest[0])
  }

  lemma ReadsRegular(word: string, rest: string)
    requires |word| > 0 && RegularName(word) && Breaks(rest)
    ensures Next(word + rest) == Some((Word(word), rest))
  {
    var s := word + rest;
    RunEnds(word, rest);
    assert s[0] == word[0] && s[..|word|] == word && s[|word|..] == rest;
  }

  lemma ReadsDigits(n: nat, rest: string)
    requires Breaks(rest)
    ensures Next(Digits(n) + rest) == Some((Word(Digits(n)), rest)) && IsNumber(Digits(n))
    ensures NatValue(Digits(n)) == n && Digits(n) != "R"
  {
    DigitsValue(n);
    assert RegularName(Digits(n));
    ReadsRegular(Digits(n), rest);
  }

  lemma ReadsNamed(name: string, rest: string)
    requires RegularName(name) && Breaks(rest)
    ensures Next("/" + (name + rest)) == Some((NameToken(name), rest))
  {
    var s := "/" + (name + rest);
    RunEnds(name, rest);
    assert s[1..] == name + rest && s[1..1 + |name|] == name && s[1 + |name|..] == rest;
  }

  lemma SkipsSpace(s: string)
    ensures Next(" " + s) == Next(s)
  {
    assert (" " + s)[1..] == s;
  }

  /** What follows is not a generation and `R`, so a number before it is not a reference. */
  predicate EndsObject(rest: string) {
    Breaks(rest) && Generation(rest) == None
  }

  /** The first token of an object is never `R`. */
  lemma FirstToken(v: PdfObject, rest: string)
    requires HasRegularNames(v) && Breaks(rest)
    ensures Next(Written(v) + rest).Some? && Next(Written(v) + rest).value.0 != Word("R")
    ensures Next(Written(v) + rest).value.0 != CloseList
  {
    hide Digits, HasRegularNames, WrittenItems, WrittenEntries;
    match v
    case Named(name) =>
      assert RegularName(name) by { NamedIsRegular(name); }
      Assoc("/", name, rest);
      ReadsNamed(name, rest);
    case Integer(value) => ReadsDigits(value, rest);
    case Indirect(number, generation) =>
      Assoc(Digits(number), " " + (Digits(generation) + " R"), rest);
      ReadsDigits(number, (" " + (Digits(generation) + " R")) + rest);
    case List(items) =>
      assert (Written(v) + rest)[0] == '[';
    case Dictionary(entries) =>
      assert (Written(v) + rest)[0] == '<' && (Written(v) + rest)[1] == '<';
  }

  lemma NamedIsRegular(name: string)
    requires HasRegularNames(Named(name))
    ensures RegularName(name)
  {
  }

  /** After an item, what is written next is never a generation and `R`. */
  lemma ItemsEndObject(items: seq<PdfObject>, rest: string)
    requires ItemsHaveRegularNames(items)
    ensures EndsObject(WrittenItems(items, " ") + rest)
    ensures Next(WrittenItems(items, " ") + rest).Some? && Next(WrittenItems(items, " ") + rest).value.0 != Word("R")
  {
    hide Digits, HasRegularNames, Written;
    var s := WrittenItems(items, " ") + rest;
    if |items| == 0 {
      assert s[0] == ']';
    } else {
      var first, more := Written(items[0]), WrittenItems(items[1..], " ");
      assert s == " " + (first + (more + rest));
      SkipsSpace(first + (more + rest));
      ItemsBreak(items[1..], rest);
      FirstToken(items[0], more + rest);
      NotGeneration(items[0], items[1..], rest);
      SkippedGeneration(first + (more + rest));
    }
  }

  lemma SkippedGeneration(s: string)
    ensures Generation(" " + s) == Generation(s)
  {
    SkipsSpace(s);
  }

  lemma ItemsBreak(items: seq<PdfObject>, rest: string)
    ensures Breaks(WrittenItems(items, " ") + rest)
  {
    hide Written;
    var s := WrittenItems(items, " ") + rest;
    assert s[0] == ']' || s[0] == ' ';
  }

  lemma NotGeneration(v: PdfObject, more: seq<PdfObject>, rest: string)
    requires HasRegularNames(v) && ItemsHaveRegularNames(more)
    ensures Generation(Written(v) + (WrittenItems(more, " ") + rest)) == None
    decreases more, 0
  {
    hide Digits, HasRegularNames, WrittenItems, WrittenEntries;
    var after := WrittenItems(more, " ") + rest;
    ItemsBreak(more, rest);
    match v
    case Named(name) =>
      NamedIsRegular(name);
      Assoc("/", name, after);
      ReadsNamed(name, after);
    case Integer(value) =>
      ReadsDigits(value, after);
      NextOfItems(more, rest);
    case Indirect(number, generation) =>
      var tail := Digits(generation) + (" R" + after);
      assert Written(v) + after == Digits(number) + (" " + tail);
      ReadsDigits(number, " " + tail);
      SkipsSpace(tail);
      assert (" R" + after)[0] == ' ';
      ReadsDigits(generation, " R" + after);
    case List(items) =>
      assert (Written(v) + after)[0] == '[';
    case Dictionary(entries) =>
      assert (Written(v) + after)[0] == '<' && (Written(v) + after)[1] == '<';
  }

  lemma NextOfItems(items: seq<PdfObject>, rest: string)
    requires ItemsHaveRegularNames(items)
    ensures Next(WrittenItems(items, " ") + rest).Some? && Next(WrittenItems(items, " ") + rest).value.0 != Word("R")
  {
    hide Written, HasRegularNames;
    var s := WrittenItems(items, " ") + rest;
    if |items| == 0 {
      assert s[0] == ']';
    } else {
      var first, more := Written(items[0]), WrittenItems(items[1..], " ");
      assert s == " " + (first + (more + rest));
      SkipsSpace(first + (more + rest));
      ItemsBreak(items[1..], rest);
      FirstToken(items[0], more + rest);
    }
  }

  lemma EntriesText(entries: seq<Entry>, rest: string)
    requires |entries| > 0
    ensures var e := entries[0];
            WrittenEntries(entries) + rest
            == " " + ("/" + (e.0 + (" " + (Written(e.1) + (WrittenEntries(entries[1..]) + rest)))))
  {
    hide Written;
    var e, more := entries[0], WrittenEntries(entries[1..]);
    var value := " " + Written(e.1);
    Assoc(" ", WrittenEntry(e) + more, rest);
    Assoc(WrittenEntry(e), more, rest);
    Assoc("/", e.0 + value, more + rest);
    Assoc(e.0, value, more + rest);
    Assoc(" ", Written(e.1), more + rest);
  }

  lemma EntriesEndObject(entries: seq<Entry>, rest: string)
    requires EntriesHaveRegularNames(entries)
    ensures EndsObject(WrittenEntries(entries) + rest)
  {
    hide Written;
    var s := WrittenEntries(entries) + rest;
    if |entries| == 0 {
      assert s == " " + (">>" + rest);
      SkipsSpace(">>" + rest);
    } else {
      var e := entries[0];
      var tail := " " + (Written(e.1) + (WrittenEntries(entries[1..]) + rest));
      EntriesText(entries, rest);
      SkipsSpace("/" + (e.0 + tail));
      ReadsNamed(e.0, tail);
    }
  }

  // ----- objects read back

  /** Parsing an object's text gives the object, whatever follows, as long as it does not make it a reference. */
  lemma {:induction false} ReadsObject(v: PdfObject, rest: string)
    requires HasRegularNames(v) && EndsObject(rest)
    ensures ParseObject(Written(v) + rest) == Some((v, rest))
    decreases v, 0
  {
    hide Digits, HasRegularNames, WrittenItems, WrittenEntries, Generation;
    match v
    case Named(name) =>
      NamedIsRegular(name);
      Assoc("/", name, rest);
      ReadsNamed(name, rest);
    case Integer(value) => ReadsDigits(value, rest);
    case Indirect(number, generation) => ReadsIndirect(number, generation, rest);
    case List(items) =>
      Assoc("[", WrittenItems(items, ""), rest);
      assert (Written(v) + rest)[1..] == WrittenItems(items, "") + rest && (Written(v) + rest)[0] == '[';
      ListNames(items);
      ReadsItems(items, "", rest);
    case Dictionary(entries) => ReadsDictionary(entries, rest);
  }

  lemma ListNames(items: seq<PdfObject>)
    requires HasRegularNames(List(items))
    ensures ItemsHaveRegularNames(items)
  {
  }

  lemma ReadsIndirect(number: nat, generation: nat, rest: string)
    requires Breaks(rest)
    ensures ParseObject(Written(Indirect(number, generation)) + rest) == Some((Indirect(number, generation), rest))
  {
    hide Digits, Generation, Next, ParseItems, ParseEntries;
    var tail := Digits(generation) + (" R" + rest);
    Assoc(Digits(number), " " + (Digits(generation) + " R"), rest);
    Assoc(" ", Digits(generation) + " R", rest);
    Assoc(Digits(generation), " R", rest);
    SpaceBreaks(tail);
    ReadsDigits(number, " " + tail);
    SkippedGeneration(tail);
    ReadsGeneration(generation, rest);
  }

  lemma ReadsGeneration(generation: nat, rest: string)
    requires Breaks(rest)
    ensures Generation(Digits(generation) + (" R" + rest)) == Some((generation, rest))
  {
    hide Digits, Next;
    assert " R" + rest == " " + ("R" + rest);
    SpaceBreaks("R" + rest);
    ReadsDigits(generation, " R" + rest);
    SkipsSpace("R" + rest);
    assert RegularName("R");
    ReadsRegular("R", rest);
    assert Next(" " + ("R" + rest)) == Some((Word("R"), rest));
  }

  /** A dictionary is read back whatever follows it. */
  lemma {:induction false} ReadsDictionary(entries: seq<Entry>, rest: string)
    requires HasRegularNames(Dictionary(entries))
    ensures ParseObject(Written(Dictionary(entries)) + rest) == Some((Dictionary(entries), rest))
    decreases entries, 1
  {
    hide WrittenEntries;
    var s := Written(Dictionary(entries)) + rest;
    Assoc("<<", WrittenEntries(entries), rest);
    assert s[0] == '<' && s[1] == '<' && s[2..] == WrittenEntries(entries) + rest;
    ReadsEntries(entries, rest);
  }

  lemma {:induction false} ReadsItems(items: seq<PdfObject>, lead: string, rest: string)
    requires ItemsHaveRegularNames(items) && (lead == "" || lead == " ")
    ensures ParseItems(WrittenItems(items, lead) + rest) == Some((items, rest))
    decreases items, 0
  {
    hide Written, HasRegularNames, Generation, Breaks;
    var s := WrittenItems(items, lead) + rest;
    if |items| == 0 {
      assert s[0] == ']' && s[1..] == rest;
    } else {
      var first, more := Written(items[0]), WrittenItems(items[1..], " ") + rest;
      assert s == lead + (first + more);
      ItemsBreak(items[1..], rest);
      ItemsEndObject(items[1..], rest);
      FirstToken(items[0], more);
      ReadsObject(items[0], more);
      ReadsItems(items[1..], " ", rest);
      if lead == " " {
        SkipsSpace(first + more);
      } else {
        assert s == first + more;
      }
      assert ParseObject(s) == ParseObject(first + more);
      assert [items[0]] + items[1..] == items;
    }
  }

  lemma {:induction false} ReadsEntries(entries: seq<Entry>, rest: string)
    requires EntriesHaveRegularNames(entries)
    ensures ParseEntries(WrittenEntries(entries) + rest) == Some((entries, rest))
    decreases entries, 0
  {
    hide Written, HasRegularNames, Generation, Breaks, Next, ParseObject, ParseEntries, WrittenEntries;
    if |entries| == 0 {
      ReadsNoEntries(rest);
    } else {
      var e, more := entries[0], WrittenEntries(entries[1..]) + rest;
      var tail := Written(e.1) + more;
      EntriesText(entries, rest);
      SkipsSpace("/" + (e.0 + (" " + tail)));
      SpaceBreaks(tail);
      ReadsNamed(e.0, " " + tail);
      EntriesEndObject(entries[1..], rest);
      ReadsValue(e, more);
      ParsesPastSpace(tail);
      ReadsEntries(entries[1..], rest);
      EntryThenEntries(WrittenEntries(entries) + rest, " " + tail, e, more);
      assert [e] + entries[1..] == entries;
    }
  }

  lemma ReadsNoEntries(rest: string)
    ensures ParseEntries(WrittenEntries([]) + rest) == Some(([], rest))
  {
    var s := WrittenEntries([]) + rest;
    assert s == " " + (">>" + rest);
    SkipsSpace(">>" + rest);
    assert (">>" + rest)[2..] == rest;
  }

  lemma EntryThenEntries(s: string, valueText: string, e: Entry, more: string)
    requires Next(s) == Some((NameToken(e.0), valueText)) && ParseObject(valueText) == Some((e.1, more))
    requires ParseEntries(more).Some?
    ensures ParseEntries(s) == Some(([e] + ParseEntries(more).value.0, ParseEntries(more).value.1))
  {
  }

  lemma {:induction false} ReadsValue(e: Entry, rest: string)
    requires EntryHasRegularNames(e) && EndsObject(rest)
    ensures ParseObject(Written(e.1) + rest) == Some((e.1, rest))
    decreases e, 1
  {
    hide Written;
    ReadsObject(e.1, rest);
  }

  lemma SpaceBreaks(s: string)
    ensures Breaks(" " + s)
  {
  }

  lemma ParsesPastSpace(s: string)
    ensures ParseObject(" " + s) == ParseObject(s)
  {
    hide Next, Generation, ParseItems, ParseEntries;
    SkipsSpace(s);
  }
}

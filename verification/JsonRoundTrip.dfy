/** Reading back what the canonical writer wrote. */
module JsonRoundTrip {
  import opened Wrappers
  import opened Texts
  import opened CanonicalJson
  import Values = JsonValues
  import Reader = JsonReader
  import opened JsonGrammar
  import opened JsonSoundness

  /** The value a reader should see in `v`: numbers lose their digits, as the reader discards them. */
  function Seen(v: Json): Values.JsonValue
    decreases v, 0
  {
    match v
    case Str(text) => Values.Str(text)
    case Bool(flag) => Values.Bool(flag)
    case Int(_) => Values.Num
    case Array(items) => Values.Array(SeenItems(items))
    case Object(members) => Values.Object(SeenMembers(members))
  }

  function SeenItems(items: seq<Json>): seq<Values.JsonValue>
    decreases items, 0
  {
    if |items| == 0 then [] else [Seen(items[0])] + SeenItems(items[1..])
  }

  function SeenMembers(members: seq<Member>): seq<(string, Values.JsonValue)>
    decreases members, 0
  {
    if |members| == 0 then [] else [SeenMember(members[0])] + SeenMembers(members[1..])
  }

  function SeenMember(m: Member): (string, Values.JsonValue)
    decreases m, 1
  {
    (m.0, Seen(m.1))
  }

  // ----- the derivation of a value's text

  function CharTree(c: char): Chr {
    if c == '"' || c == '\\' then Short(c)
    else if c == '\n' then Short('n')
    else if c == '\r' then Short('r')
    else if c == '\t' then Short('t')
    else if c < ' ' then Unicode(['0', '0', HexDigit(c as int / 16), HexDigit(c as int % 16)])
    else Verbatim(c)
  }

  function CharTrees(s: string): seq<Chr> {
    if |s| == 0 then [] else [CharTree(s[0])] + CharTrees(s[1..])
  }

  function NumberTree(n: int): Number {
    Number(n < 0, Digits(if n < 0 then -n else n), None, None)
  }

  function TreeOf(v: Json): Tree
    decreases v, 0
  {
    match v
    case Str(text) => TString(CharTrees(text))
    case Bool(flag) => TBool(flag)
    case Int(n) => TNumber(NumberTree(n))
    case Array(items) => TArray("", TreesOfItems(items))
    case Object(members) => TObject("", TreesOfMembers(members))
  }

  function TreesOfItems(items: seq<Json>): (r: seq<Item>)
    ensures |r| == |items|
    decreases items, 0
  {
    if |items| == 0 then [] else [Item("", TreeOf(items[0]), "")] + TreesOfItems(items[1..])
  }

  function TreesOfMembers(members: seq<Member>): (r: seq<Entry>)
    ensures |r| == |members|
    decreases members, 0
  {
    if |members| == 0 then [] else [TreeOfMember(members[0])] + TreesOfMembers(members[1..])
  }

  function TreeOfMember(m: Member): Entry
    decreases m, 1
  {
    Entry("", CharTrees(m.0), "", "", TreeOf(m.1), "")
  }

  lemma HexDigitRead(n: nat)
    requires n < 16
    ensures HexValue(HexDigit(n)) == Some(n)
  {
  }

  lemma CharTreeWrites(c: char)
    ensures IsChr(CharTree(c)) && ChrText(CharTree(c)) == EscapeChar(c) && ChrMeaning(CharTree(c)) == Some(c)
  {
    if c < ' ' {
      var h, l := c as int / 16, c as int % 16;
      HexDigitRead(h);
      HexDigitRead(l);
      HexDigitRead(0);
      var d := ['0', '0', HexDigit(h), HexDigit(l)];
      assert d[1..] == ['0', HexDigit(h), HexDigit(l)] && d[1..][1..] == [HexDigit(h), HexDigit(l)]
             && d[1..][1..][1..] == [HexDigit(l)] && d[1..][1..][1..][1..] == [];
      assert HexNumber(d[1..][1..][1..], h) == Some(16 * h + l);
      assert HexNumber(d[1..][1..], 0) == Some(16 * h + l);
      assert HexNumber(d, 0) == Some(c as int);
    }
  }

  lemma {:induction false} CharTreesWrite(s: string)
    ensures IsString(CharTrees(s)) && ChrsText(CharTrees(s)) == Escape(s) && StringMeaning(CharTrees(s)) == Some(s)
  {
    if |s| > 0 {
      hide CharTree, IsChr, ChrText, ChrMeaning, EscapeChar;
      CharTreeWrites(s[0]);
      CharTreesWrite(s[1..]);
      assert CharTrees(s)[1..] == CharTrees(s[1..]);
      assert [s[0]] + s[1..] == s;
    }
  }

  /** The derivation renders to the text the writer writes, and denotes the value. */
  lemma {:induction false} TreeWrites(v: Json)
    ensures IsTree(TreeOf(v)) && TreeText(TreeOf(v)) == Flat(v) && Meaning(TreeOf(v)) == Some(Seen(v))
    decreases v, 0
  {
    hide ItemsText, EntriesText, FlatItems, FlatMembers, Escape, ChrsText, IsString, StringMeaning, Digits;
    match v
    case Str(s) => CharTreesWrite(s);
    case Bool(_) =>
    case Int(n) => NumberWrites(n);
    case Array(items) =>
      TreesOfItemsWrite(items);
      if |items| > 0 { ItemsWrite(items, ""); } else { NothingWritten(); }
    case Object(members) =>
      TreesOfMembersWrite(members);
      if |members| > 0 { MembersWrite(members, ""); } else { NothingWritten(); }
  }

  lemma NothingWritten()
    ensures FlatItems([], "") == "" && FlatMembers([], "") == ""
  {
  }

  lemma NumberWrites(n: int)
    ensures IsNumber(NumberTree(n)) && NumberText(NumberTree(n)) == Decimal(n)
  {
  }

  lemma {:induction false} TreesOfItemsWrite(items: seq<Json>)
    ensures IsItems(TreesOfItems(items)) && ItemsMeaning(TreesOfItems(items)) == Some(SeenItems(items))
    decreases items, 0
  {
    hide IsTree, TreeText, Meaning, Flat;
    if |items| > 0 {
      TreeWrites(items[0]);
      TreesOfItemsWrite(items[1..]);
      assert TreesOfItems(items)[1..] == TreesOfItems(items[1..]);
    }
  }

  lemma {:induction false} ItemsWrite(items: seq<Json>, lead: string)
    requires |items| > 0
    ensures lead + ItemsText(TreesOfItems(items)) == FlatItems(items, lead) + "]"
    decreases items, 1
  {
    hide IsTree, TreeText, Meaning, Flat;
    TreeWrites(items[0]);
    var trees := TreesOfItems(items);
    assert trees[1..] == TreesOfItems(items[1..]);
    var first, rest := Flat(items[0]), FlatItems(items[1..], ",");
    assert ItemText(trees[0]) == first;
    if |items| > 1 {
      ItemsWrite(items[1..], ",");
    } else {
      assert rest == "";
    }
    assert ItemsText(trees) == first + (rest + "]");
    Assoc(first, rest, "]");
    Assoc(lead, first + rest, "]");
  }

  lemma {:induction false} TreesOfMembersWrite(members: seq<Member>)
    ensures IsEntries(TreesOfMembers(members)) && EntriesMeaning(TreesOfMembers(members)) == Some(SeenMembers(members))
    decreases members, 0
  {
    hide IsEntry, EntryMeaning, TreeOfMember, SeenMember;
    if |members| > 0 {
      MemberWrites(members[0]);
      TreesOfMembersWrite(members[1..]);
      assert TreesOfMembers(members)[1..] == TreesOfMembers(members[1..]);
    }
  }

  lemma {:induction false} MemberWrites(m: Member)
    ensures var e := TreeOfMember(m);
            IsEntry(e) && EntryText(e) == FlatMember(m) && EntryMeaning(e) == Some(SeenMember(m))
    decreases m, 1
  {
    hide Flat, TreeText, IsTree, Meaning, Escape, ChrsText, IsString, StringMeaning;
    CharTreesWrite(m.0);
    TreeWrites(m.1);
    assert TreeText(TreeOf(m.1)) + "" == Flat(m.1);
  }

  lemma {:induction false} MembersWrite(members: seq<Member>, lead: string)
    requires |members| > 0
    ensures lead + EntriesText(TreesOfMembers(members)) == FlatMembers(members, lead) + "}"
    decreases members, 1
  {
    hide IsEntry, EntryText, EntryMeaning, FlatMember, TreeOfMember;
    MemberWrites(members[0]);
    var trees := TreesOfMembers(members);
    assert trees[1..] == TreesOfMembers(members[1..]);
    var first, rest := FlatMember(members[0]), FlatMembers(members[1..], ",");
    if |members| > 1 {
      MembersWrite(members[1..], ",");
    } else {
      assert rest == "";
    }
    assert EntriesText(trees) == first + (rest + "}");
    Assoc(first, rest, "}");
    Assoc(lead, first + rest, "}");
  }

  /**
   Parsing canonical output recovers the value, for every string content including control characters: the
   whole text is consumed and the members come back in key order.
   */
  lemma ParseUndoesWrite(v: Json)
    ensures Reader.ParseText(CanonicalText(v)) == Some(Seen(Canonical(v)))
  {
    hide Flat, TreeText, IsTree, Meaning;
    var t := TreeOf(Canonical(v));
    TreeWrites(Canonical(v));
    var doc := Item("", t, "");
    assert ItemText(doc) == TreeText(t);
    ParsesDocument(doc);
  }
}

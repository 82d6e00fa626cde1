/**
 Why text search is sound on canonical output: the characters `"k":` stand in the text of a tree exactly
 where a member named `k` starts, and the scanners stop at the last character the writer wrote.
 */
module CanonicalLexing {
  import opened Wrappers
  import opened Texts
  import opened CanonicalJson
  import opened Scanners

  /** Written as is: no character needs an escape. */
  predicate Plain(s: string) {
    forall i :: 0 <= i < |s| ==> PlainChar(s[i])
  }

  predicate PlainChar(c: char) {
    c != '"' && c != '\\' && c >= ' '
  }

  /** A key that can be searched for: plain, and not starting like the text after a value or a key. */
  predicate Searchable(k: string) {
    Plain(k) && (|k| > 0 ==> !IsDelimiter(k[0]) && k[0] != ':')
  }

  /** No member name anywhere in `v` needs an escape. */
  predicate PlainKeys(v: Json)
    decreases v, 0
  {
    match v
    case Array(items) => PlainKeysItems(items)
    case Object(members) => PlainKeysMembers(members)
    case _ => true
  }

  predicate PlainKeysItems(items: seq<Json>)
    decreases items, 0
  {
    |items| == 0 || (PlainKeys(items[0]) && PlainKeysItems(items[1..]))
  }

  predicate PlainKeysMembers(members: seq<Member>)
    decreases members, 0
  {
    |members| == 0 || (PlainMember(members[0]) && PlainKeysMembers(members[1..]))
  }

  predicate PlainMember(m: Member)
    decreases m, 1
  {
    Plain(m.0) && PlainKeys(m.1)
  }

  /** Every member name in `v`, at any depth. */
  function Names(v: Json): set<string>
    decreases v, 0
  {
    match v
    case Array(items) => NamesOfItems(items)
    case Object(members) => NamesOfMembers(members)
    case _ => {}
  }

  function NamesOfItems(items: seq<Json>): set<string>
    decreases items, 0
  {
    if |items| == 0 then {} else Names(items[0]) + NamesOfItems(items[1..])
  }

  function NamesOfMembers(members: seq<Member>): set<string>
    decreases members, 0
  {
    if |members| == 0 then {} else NamesOfMember(members[0]) + NamesOfMembers(members[1..])
  }

  function NamesOfMember(m: Member): set<string>
    decreases m, 1
  {
    {m.0} + Names(m.1)
  }

  ghost predicate PlainNames(names: set<string>) {
    forall k :: k in names ==> Plain(k)
  }

  lemma {:induction false} PlainNamesArePlainKeys(v: Json)
    ensures PlainKeys(v) <==> PlainNames(Names(v))
    decreases v, 0
  {
    match v
    case Array(items) => PlainNamesOfItems(items);
    case Object(members) => PlainNamesOfMembers(members);
    case _ =>
  }

  lemma {:induction false} PlainNamesOfItems(items: seq<Json>)
    ensures PlainKeysItems(items) <==> PlainNames(NamesOfItems(items))
    decreases items, 0
  {
    if |items| > 0 {
      PlainNamesArePlainKeys(items[0]);
      PlainNamesOfItems(items[1..]);
    }
  }

  lemma {:induction false} PlainNamesOfMembers(members: seq<Member>)
    ensures PlainKeysMembers(members) <==> PlainNames(NamesOfMembers(members))
    decreases members, 0
  {
    if |members| > 0 {
      PlainNamesOfMember(members[0]);
      PlainNamesOfMembers(members[1..]);
    }
  }

  lemma {:induction false} PlainNamesOfMember(m: Member)
    ensures PlainMember(m) <==> PlainNames(NamesOfMember(m))
    decreases m, 1
  {
    PlainNamesArePlainKeys(m.1);
  }

  /** `s` ends in a quote and `k`: written out, its end looks like a name. */
  predicate EndsQuoted(s: string, k: string) {
    |k| < |s| && s[|s| - |k| - 1..] == "\"" + k
  }

  ghost predicate Unambiguous(names: set<string>, k: string) {
    forall n :: n in names ==> !EndsQuoted(n, k)
  }

  lemma QuoteBefore(n: string, k: string)
    requires EndsQuoted(n, k)
    ensures n[|n| - |k| - 1] == '"'
  {
    assert n[|n| - |k| - 1..][0] == '"';
  }

  lemma PlainEndsUnquoted(n: string, k: string)
    requires Plain(n)
    ensures !EndsQuoted(n, k)
  {
    if EndsQuoted(n, k) { QuoteBefore(n, k); }
  }

  lemma PlainIsUnambiguous(v: Json, k: string)
    requires PlainKeys(v)
    ensures Unambiguous(Names(v), k)
  {
    hide Names, PlainKeys, EndsQuoted;
    PlainNamesArePlainKeys(v);
    forall n | n in Names(v) ensures !EndsQuoted(n, k) { PlainEndsUnquoted(n, k); }
  }

  /** A member named `k` starts at offset `p` of the text of `v`. */
  predicate MemberAt(v: Json, k: string, p: int)
    decreases v, 0
  {
    match v
    case Array(items) => MemberAtItems(items, "", k, p - 1)
    case Object(members) => MemberAtMembers(members, "", k, p - 1)
    case _ => false
  }

  predicate MemberAtItems(items: seq<Json>, lead: string, k: string, p: int)
    decreases items, 0
  {
    |items| > 0 && (
      MemberAt(items[0], k, p - |lead|) ||
      MemberAtItems(items[1..], ",", k, p - |lead| - |Flat(items[0])|))
  }

  predicate MemberAtMembers(members: seq<Member>, lead: string, k: string, p: int)
    decreases members, 0
  {
    |members| > 0 && (
      MemberStart(members[0], k, p - |lead|) ||
      MemberAtMembers(members[1..], ",", k, p - |lead| - |FlatMember(members[0])|))
  }

  predicate MemberStart(m: Member, k: string, p: int)
    decreases m, 1
  {
    (p == 0 && m.0 == k) || MemberAt(m.1, k, p - |Quote(m.0)| - 1)
  }

  /** The characters that start a member named `k`. */
  function NameOf(k: string): string {
    "\"" + (k + "\":")
  }

  /** `j` is where a value may end: at the end of the text or before a delimiter. */
  predicate Ends(text: string, j: int) {
    0 <= j <= |text| && (j < |text| ==> IsDelimiter(text[j]))
  }

  // ----- strings

  lemma {:induction false} PlainEscape(k: string)
    requires Plain(k)
    ensures Escape(k) == k
  {
    if |k| > 0 {
      assert PlainChar(k[0]);
      PlainEscape(k[1..]);
      assert [k[0]] + k[1..] == k;
    }
  }

  /** Text that is `k` and a quote, and also an escaped string and its closing quote: the string is `k`. */
  lemma {:induction false} QuoteEndsPlain(text: string, i: int, s: string, k: string)
    requires At(text, i, Escape(s) + "\"") && At(text, i, k + "\"") && Plain(k)
    ensures s == k
    decreases s
  {
    if |s| == 0 {
      AtChar(text, i, Escape(s) + "\"", 0);
      AtChar(text, i, k + "\"", 0);
      assert |k| > 0 ==> PlainChar(k[0]);
    } else {
      var e, rest := EscapeChar(s[0]), Escape(s[1..]);
      Assoc(e, rest, "\"");
      AtConcat(text, i, e, rest + "\"");
      AtChar(text, i, e, 0);
      AtChar(text, i, k + "\"", 0);
      if |k| == 0 {
        assert false;
      } else {
        assert PlainChar(k[0]);
        assert e == [s[0]] && s[0] == k[0];
        assert k + "\"" == [k[0]] + (k[1..] + "\"");
        AtConcat(text, i, [k[0]], k[1..] + "\"");
        QuoteEndsPlain(text, i + 1, s[1..], k[1..]);
        assert s == [s[0]] + s[1..] && k == [k[0]] + k[1..];
      }
    }
  }

  /** A quote inside an escaped string is an escaped quote, and what follows it is again escaped text. */
  lemma {:induction false} QuoteInside(text: string, i: int, s: string, p: int) returns (n: nat)
    requires At(text, i, Escape(s) + "\"") && i <= p < i + |Escape(s)| && text[p] == '"'
    ensures n < |s| && s[n] == '"' && p + 1 <= i + |Escape(s)|
    ensures At(text, p + 1, Escape(s[n + 1..]) + "\"")
    ensures p + 1 + |Escape(s[n + 1..])| == i + |Escape(s)|
    decreases s
  {
    var e, rest := EscapeChar(s[0]), Escape(s[1..]);
    Assoc(e, rest, "\"");
    AtConcat(text, i, e, rest + "\"");
    if p < i + |e| {
      AtChar(text, i, e, p - i);
      assert s[0] == '"' && p == i + 1;
      n := 0;
    } else {
      var m := QuoteInside(text, i + |e|, s[1..], p);
      n := m + 1;
      assert s[1..][m + 1..] == s[n + 1..];
    }
  }

  /** Where a quoted plain text can stand inside a quoted string. */
  lemma InString(text: string, i: int, s: string, k: string, p: int)
    requires At(text, i, Quote(s)) && i <= p < i + |Quote(s)|
    requires At(text, p, "\"" + (k + "\"")) && Plain(k)
    ensures (p == i && s == k)
         || (p + |k| + 2 == i + |Quote(s)| && EndsQuoted(s, k))
         || p + 1 == i + |Quote(s)|
  {
    AtConcat(text, i, "\"", Escape(s) + "\"");
    AtConcat(text, p, "\"", k + "\"");
    if p == i {
      QuoteEndsPlain(text, i + 1, s, k);
    } else if p + 1 < i + |Quote(s)| {
      var n := QuoteInside(text, i + 1, s, p);
      QuoteEndsPlain(text, p + 1, s[n + 1..], k);
      PlainEscape(k);
      assert s[n..] == [s[n]] + s[n + 1..];
    }
  }

  /** A member name does not start inside a string value. */
  lemma NoNameInString(text: string, i: int, s: string, k: string, p: int)
    requires At(text, i, Quote(s)) && i <= p < i + |Quote(s)|
    requires Searchable(k) && Ends(text, i + |Quote(s)|)
    ensures !At(text, p, NameOf(k))
  {
    if At(text, p, NameOf(k)) {
      NameSplit(text, p, k);
      InString(text, i, s, k, p);
      if p == i && s == k { PlainEscape(k); }
      if p + 1 == i + |Quote(s)| { AtChar(text, p, "\"" + (k + "\""), 1); }
      assert false;
    }
  }

  lemma NameSplit(text: string, p: int, k: string)
    requires At(text, p, NameOf(k))
    ensures At(text, p, "\"" + (k + "\""))
    ensures p + |k| + 2 < |text| && text[p] == '"' && text[p + |k| + 2] == ':'
  {
    assert NameOf(k) == ("\"" + (k + "\"")) + ":";
    AtConcat(text, p, "\"" + (k + "\""), ":");
    AtChar(text, p, NameOf(k), 0);
    AtChar(text, p, NameOf(k), |k| + 2);
  }

  // ----- how the text of a container is put together

  lemma ItemsSplit(text: string, i: int, items: seq<Json>, lead: string)
    requires |items| > 0 && At(text, i, FlatItems(items, lead))
    ensures var j := i + |lead| + |Flat(items[0])|;
            && At(text, i, lead) && At(text, i + |lead|, Flat(items[0]))
            && At(text, j, FlatItems(items[1..], ","))
            && j + |FlatItems(items[1..], ",")| == i + |FlatItems(items, lead)|
            && (Ends(text, i + |FlatItems(items, lead)|) ==> Ends(text, j))
  {
    var first, rest := Flat(items[0]), FlatItems(items[1..], ",");
    AtConcat(text, i, lead, first + rest);
    AtConcat(text, i + |lead|, first, rest);
    if |items| > 1 { AtChar(text, i + |lead| + |first|, rest, 0); }
  }

  lemma MembersSplit(text: string, i: int, members: seq<Member>, lead: string)
    requires |members| > 0 && At(text, i, FlatMembers(members, lead))
    ensures var j := i + |lead| + |FlatMember(members[0])|;
            && At(text, i, lead) && At(text, i + |lead|, FlatMember(members[0]))
            && At(text, j, FlatMembers(members[1..], ","))
            && j + |FlatMembers(members[1..], ",")| == i + |FlatMembers(members, lead)|
            && (Ends(text, i + |FlatMembers(members, lead)|) ==> Ends(text, j))
  {
    var first, rest := FlatMember(members[0]), FlatMembers(members[1..], ",");
    AtConcat(text, i, lead, first + rest);
    AtConcat(text, i + |lead|, first, rest);
    if |members| > 1 { AtChar(text, i + |lead| + |first|, rest, 0); }
  }

  lemma MemberSplit(text: string, i: int, m: Member)
    requires At(text, i, FlatMember(m))
    ensures At(text, i, Quote(m.0)) && At(text, i + |Quote(m.0)| + 1, Flat(m.1))
    ensures |FlatMember(m)| == |Quote(m.0)| + 1 + |Flat(m.1)| && text[i + |Quote(m.0)|] == ':'
  {
    AtConcat(text, i, Quote(m.0), ":" + Flat(m.1));
    AtConcat(text, i + |Quote(m.0)|, ":", Flat(m.1));
    AtChar(text, i + |Quote(m.0)|, ":", 0);
  }

  /** A container's brackets and what stands between them. */
  lemma Bracketed(text: string, i: int, open: string, body: string, close: string)
    requires At(text, i, open + (body + close)) && |open| == |close| == 1
    ensures text[i] == open[0] && At(text, i + 1, body) && text[i + 1 + |body|] == close[0]
    ensures i + 1 + |body| < |text| && (IsDelimiter(close[0]) ==> Ends(text, i + 1 + |body|))
  {
    AtConcat(text, i, open, body + close);
    AtConcat(text, i + 1, body, close);
    AtChar(text, i, open, 0);
    AtChar(text, i + 1 + |body|, close, 0);
  }

  lemma DecimalChars(n: int, i: int)
    requires 0 <= i < |Decimal(n)|
    ensures IsDigit(Decimal(n)[i]) || (i == 0 && n < 0 && Decimal(n)[i] == '-')
  {
  }

  /** The text of a boolean or a number has no quote, bracket or delimiter in it. */
  lemma ScalarChars(v: Json, i: int)
    requires (v.Bool? || v.Int?) && 0 <= i < |Flat(v)|
    ensures var c := Flat(v)[i]; PlainChar(c) && !IsDelimiter(c) && c != '{' && c != '['
  {
    if v.Int? { DecimalChars(v.number, i); }
  }

  lemma NoNameInScalar(text: string, i: int, v: Json, k: string, p: int)
    requires v.Str? || v.Bool? || v.Int?
    requires At(text, i, Flat(v)) && i <= p < i + |Flat(v)| && Ends(text, i + |Flat(v)|) && Searchable(k)
    ensures !At(text, p, NameOf(k))
  {
    if v.Str? {
      NoNameInString(text, i, v.text, k, p);
    } else {
      AtChar(text, i, Flat(v), p - i);
      ScalarChars(v, p - i);
      if At(text, p, NameOf(k)) { NameSplit(text, p, k); }
    }
  }

  // ----- a member name stands only where a member starts

  lemma {:induction false} NameOnlyAtMembers(text: string, i: int, v: Json, k: string, p: int)
    requires At(text, i, Flat(v)) && i <= p < i + |Flat(v)| && Ends(text, i + |Flat(v)|)
    requires At(text, p, NameOf(k)) && Searchable(k) && Unambiguous(Names(v), k)
    ensures MemberAt(v, k, p - i)
    decreases v, 0
  {
    hide At, Ends, Quote, Decimal, NameOf, Searchable;
    hide FlatItems, FlatMembers, MemberAtItems, MemberAtMembers, NamesOfItems, NamesOfMembers, EndsQuoted;
    NameSplit(text, p, k);
    if v.Array? {
      Bracketed(text, i, "[", FlatItems(v.items, ""), "]");
      NameOnlyAtItems(text, i + 1, v.items, "", k, p);
    } else if v.Object? {
      Bracketed(text, i, "{", FlatMembers(v.members, ""), "}");
      NameOnlyAtList(text, i + 1, v.members, "", k, p);
    } else {
      NoNameInScalar(text, i, v, k, p);
      assert false;
    }
  }

  lemma {:induction false} NameOnlyAtItems(text: string, i: int, items: seq<Json>, lead: string, k: string, p: int)
    requires lead == "" || lead == ","
    requires At(text, i, FlatItems(items, lead)) && i <= p < i + |FlatItems(items, lead)|
    requires Ends(text, i + |FlatItems(items, lead)|)
    requires At(text, p, NameOf(k)) && Searchable(k) && Unambiguous(NamesOfItems(items), k)
    ensures MemberAtItems(items, lead, k, p - i)
    decreases items, 0
  {
    hide At, Ends, Flat, NameOf, Searchable, MemberAt, Names, EndsQuoted;
    NameSplit(text, p, k);
    ItemsSplit(text, i, items, lead);
    var j := i + |lead| + |Flat(items[0])|;
    if p >= j {
      NameOnlyAtItems(text, j, items[1..], ",", k, p);
    } else if p >= i + |lead| {
      NameOnlyAtMembers(text, i + |lead|, items[0], k, p);
    } else {
      AtChar(text, i, lead, p - i);
      assert false;
    }
  }

  lemma {:induction false} NameOnlyAtList(text: string, i: int, members: seq<Member>, lead: string, k: string, p: int)
    requires lead == "" || lead == ","
    requires At(text, i, FlatMembers(members, lead)) && i <= p < i + |FlatMembers(members, lead)|
    requires Ends(text, i + |FlatMembers(members, lead)|)
    requires At(text, p, NameOf(k)) && Searchable(k) && Unambiguous(NamesOfMembers(members), k)
    ensures MemberAtMembers(members, lead, k, p - i)
    decreases members, 0
  {
    hide At, Ends, FlatMember, NameOf, Searchable, MemberStart, NamesOfMember, EndsQuoted;
    NameSplit(text, p, k);
    MembersSplit(text, i, members, lead);
    var j := i + |lead| + |FlatMember(members[0])|;
    if p >= j {
      NameOnlyAtList(text, j, members[1..], ",", k, p);
    } else if p >= i + |lead| {
      NameOnlyAtMember(text, i + |lead|, members[0], k, p);
    } else {
      AtChar(text, i, lead, p - i);
      assert false;
    }
  }

  lemma {:induction false} NameOnlyAtMember(text: string, i: int, m: Member, k: string, p: int)
    requires At(text, i, FlatMember(m)) && i <= p < i + |FlatMember(m)| && Ends(text, i + |FlatMember(m)|)
    requires At(text, p, NameOf(k)) && Searchable(k) && Unambiguous(NamesOfMember(m), k)
    ensures MemberStart(m, k, p - i)
    decreases m, 1
  {
    hide At, Ends, Flat, Escape, MemberAt, Names, EndsQuoted;
    NameSplit(text, p, k);
    MemberSplit(text, i, m);
    var end := i + |Quote(m.0)|;
    if p < end {
      InString(text, i, m.0, k, p);
      if p + 1 == end { AtChar(text, p, "\"" + (k + "\""), 1); }
    } else if p > end {
      NameOnlyAtMembers(text, end + 1, m.1, k, p);
    }
  }

  // ----- and it does stand there

  lemma {:induction false} MembersHaveNames(text: string, i: int, v: Json, k: string, p: int)
    requires At(text, i, Flat(v)) && Plain(k) && MemberAt(v, k, p)
    ensures 0 <= p && At(text, i + p, NameOf(k))
    decreases v, 0
  {
    hide At, FlatItems, FlatMembers, MemberAtItems, MemberAtMembers;
    match v
    case Array(items) =>
      Bracketed(text, i, "[", FlatItems(items, ""), "]");
      ItemsHaveNames(text, i + 1, items, "", k, p - 1);
    case Object(members) =>
      Bracketed(text, i, "{", FlatMembers(members, ""), "}");
      ListHasNames(text, i + 1, members, "", k, p - 1);
  }

  lemma {:induction false} ItemsHaveNames(text: string, i: int, items: seq<Json>, lead: string, k: string, p: int)
    requires At(text, i, FlatItems(items, lead)) && Plain(k) && MemberAtItems(items, lead, k, p)
    ensures 0 <= p && At(text, i + p, NameOf(k))
    decreases items, 0
  {
    hide At, Ends, Flat, MemberAt;
    ItemsSplit(text, i, items, lead);
    if MemberAt(items[0], k, p - |lead|) {
      MembersHaveNames(text, i + |lead|, items[0], k, p - |lead|);
    } else {
      ItemsHaveNames(text, i + |lead| + |Flat(items[0])|, items[1..], ",", k, p - |lead| - |Flat(items[0])|);
    }
  }

  lemma {:induction false} ListHasNames(text: string, i: int, members: seq<Member>, lead: string, k: string, p: int)
    requires At(text, i, FlatMembers(members, lead)) && Plain(k) && MemberAtMembers(members, lead, k, p)
    ensures 0 <= p && At(text, i + p, NameOf(k))
    decreases members, 0
  {
    hide At, Ends, FlatMember, MemberStart;
    MembersSplit(text, i, members, lead);
    if MemberStart(members[0], k, p - |lead|) {
      MemberHasNames(text, i + |lead|, members[0], k, p - |lead|);
    } else {
      ListHasNames(text, i + |lead| + |FlatMember(members[0])|, members[1..], ",", k,
                   p - |lead| - |FlatMember(members[0])|);
    }
  }

  lemma {:induction false} MemberHasNames(text: string, i: int, m: Member, k: string, p: int)
    requires At(text, i, FlatMember(m)) && Plain(k) && MemberStart(m, k, p)
    ensures 0 <= p && At(text, i + p, NameOf(k))
    decreases m, 1
  {
    hide At, Flat, MemberAt, Escape, NameOf;
    MemberSplit(text, i, m);
    if p == 0 && m.0 == k {
      PlainEscape(k);
      StartsInside(text, i, FlatMember(m));
      NameAndColon(text, i, k);
    } else {
      MembersHaveNames(text, i + |Quote(m.0)| + 1, m.1, k, p - |Quote(m.0)| - 1);
    }
  }

  /** A searchable name stands exactly where members of that name start, if no name ends in a quote and it. */
  lemma NameStandsExactlyAtMembers(v: Json, k: string, p: int)
    requires Unambiguous(Names(v), k) && Searchable(k)
    ensures At(Flat(v), p, NameOf(k)) <==> MemberAt(v, k, p)
  {
    var text := Flat(v);
    assert At(text, 0, text);
    if At(text, p, NameOf(k)) {
      NameOnlyAtMembers(text, 0, v, k, p);
    }
    if MemberAt(v, k, p) {
      MembersHaveNames(text, 0, v, k, p);
    }
  }

  // ----- where else it stands

  lemma {:induction false} EscapeConcat(a: string, b: string)
    ensures Escape(a + b) == Escape(a) + Escape(b)
    decreases a
  {
    if |a| == 0 {
      assert a + b == b;
    } else {
      assert (a + b)[1..] == a[1..] + b;
      EscapeConcat(a[1..], b);
    }
  }

  lemma EscapedQuote(k: string)
    requires Plain(k)
    ensures Escape("\"" + k) == "\\\"" + k
  {
    assert ("\"" + k)[1..] == k;
    PlainEscape(k);
  }

  /** The text of a name that ends in a quote and `k`. */
  lemma QuotedEnd(n: string, k: string)
    requires EndsQuoted(n, k) && Plain(k)
    ensures Quote(n) == ("\"" + Escape(n[..|n| - |k| - 1])) + ("\\" + ("\"" + (k + "\"")))
  {
    hide Escape, Plain;
    var a := n[..|n| - |k| - 1];
    assert n == a + ("\"" + k);
    EscapeConcat(a, "\"" + k);
    EscapedQuote(k);
    Regrouped(Escape(a), k);
  }

  lemma Regrouped(a: string, k: string)
    ensures "\"" + ((a + ("\\\"" + k)) + "\"") == ("\"" + a) + ("\\" + ("\"" + (k + "\"")))
  {
  }

  /** A name that ends in a quote and `k` puts `"k":` into the text, behind a backslash. */
  lemma {:induction false} QuotedNameStands(text: string, i: int, v: Json, k: string, n: string) returns (p: int)
    requires At(text, i, Flat(v)) && n in Names(v) && EndsQuoted(n, k) && Plain(k)
    ensures 0 < p && At(text, p, NameOf(k)) && text[p - 1] == '\\'
    decreases v, 0
  {
    hide At, NameOf, EndsQuoted, FlatItems, FlatMembers, NamesOfItems, NamesOfMembers, Quote, Decimal, Plain, Ends;
    match v
    case Array(items) =>
      Bracketed(text, i, "[", FlatItems(items, ""), "]");
      p := QuotedInItems(text, i + 1, items, "", k, n);
    case Object(members) =>
      Bracketed(text, i, "{", FlatMembers(members, ""), "}");
      p := QuotedInMembers(text, i + 1, members, "", k, n);
  }

  lemma {:induction false} QuotedInItems(text: string, i: int, items: seq<Json>, lead: string, k: string, n: string)
    returns (p: int)
    requires At(text, i, FlatItems(items, lead)) && n in NamesOfItems(items) && EndsQuoted(n, k) && Plain(k)
    ensures 0 < p && At(text, p, NameOf(k)) && text[p - 1] == '\\'
    decreases items, 0
  {
    hide At, Ends, Flat, NameOf, EndsQuoted, Names;
    ItemsSplit(text, i, items, lead);
    if n in Names(items[0]) {
      p := QuotedNameStands(text, i + |lead|, items[0], k, n);
    } else {
      p := QuotedInItems(text, i + |lead| + |Flat(items[0])|, items[1..], ",", k, n);
    }
  }

  lemma {:induction false} QuotedInMembers(
    text: string, i: int, members: seq<Member>, lead: string, k: string, n: string) returns (p: int)
    requires At(text, i, FlatMembers(members, lead)) && n in NamesOfMembers(members) && EndsQuoted(n, k) && Plain(k)
    ensures 0 < p && At(text, p, NameOf(k)) && text[p - 1] == '\\'
    decreases members, 0
  {
    hide At, Ends, FlatMember, NameOf, EndsQuoted, NamesOfMember;
    MembersSplit(text, i, members, lead);
    if n in NamesOfMember(members[0]) {
      p := QuotedInMember(text, i + |lead|, members[0], k, n);
    } else {
      p := QuotedInMembers(text, i + |lead| + |FlatMember(members[0])|, members[1..], ",", k, n);
    }
  }

  lemma NameAndColon(text: string, p: int, k: string)
    requires At(text, p, "\"" + (k + "\"")) && p + |k| + 2 < |text| && text[p + |k| + 2] == ':'
    ensures At(text, p, NameOf(k)) && |NameOf(k)| == |k| + 3
  {
    var name := "\"" + (k + "\"");
    assert NameOf(k) == name + ":";
    assert At(text, p + |name|, ":");
    AtConcat(text, p, name, ":");
  }

  lemma QuotedName(text: string, i: int, m: Member, k: string) returns (p: int)
    requires At(text, i, FlatMember(m)) && EndsQuoted(m.0, k) && Plain(k)
    ensures 0 < p && At(text, p, NameOf(k)) && text[p - 1] == '\\'
  {
    hide Flat, Escape;
    var head, name := "\"" + Escape(m.0[..|m.0| - |k| - 1]), "\"" + (k + "\"");
    QuotedEnd(m.0, k);
    hide At, NameOf, Quote, EndsQuoted;
    MemberSplit(text, i, m);
    AtConcat(text, i, head, "\\" + name);
    AtConcat(text, i + |head|, "\\", name);
    AtChar(text, i + |head|, "\\", 0);
    p := i + |head| + 1;
    NameAndColon(text, p, k);
  }

  lemma {:induction false} QuotedInMember(text: string, i: int, m: Member, k: string, n: string) returns (p: int)
    requires At(text, i, FlatMember(m)) && n in NamesOfMember(m) && EndsQuoted(n, k) && Plain(k)
    ensures 0 < p && At(text, p, NameOf(k)) && text[p - 1] == '\\'
    decreases m, 1
  {
    if m.0 == n {
      p := QuotedName(text, i, m, k);
    } else {
      hide At, Flat, Escape, NameOf, Names, EndsQuoted;
      MemberSplit(text, i, m);
      p := QuotedNameStands(text, i + |Quote(m.0)| + 1, m.1, k, n);
    }
  }

  predicate Opens(c: char) {
    c == '{' || c == ','
  }

  /** A member starts behind a brace or a comma. */
  lemma {:induction false} MemberPreceded(text: string, i: int, v: Json, k: string, p: int)
    requires At(text, i, Flat(v)) && MemberAt(v, k, p)
    ensures 0 < i + p <= |text| && Opens(text[i + p - 1])
    decreases v, 0
  {
    hide At, FlatItems, FlatMembers, MemberAtItems, MemberAtMembers;
    match v
    case Array(items) =>
      Bracketed(text, i, "[", FlatItems(items, ""), "]");
      ItemPreceded(text, i + 1, items, "", k, p - 1);
    case Object(members) =>
      Bracketed(text, i, "{", FlatMembers(members, ""), "}");
      assert At(text, i, Flat(v));
      StartsInside(text, i, Flat(v));
      ListPreceded(text, i + 1, members, "", k, p - 1);
  }

  lemma StartsInside(text: string, i: int, part: string)
    requires At(text, i, part)
    ensures 0 <= i && i + |part| <= |text|
  {
  }

  lemma {:induction false} ItemPreceded(text: string, i: int, items: seq<Json>, lead: string, k: string, p: int)
    requires At(text, i, FlatItems(items, lead)) && MemberAtItems(items, lead, k, p)
    ensures 0 < i + p <= |text| && Opens(text[i + p - 1])
    decreases items, 0
  {
    hide At, Ends, Flat, MemberAt;
    ItemsSplit(text, i, items, lead);
    if MemberAt(items[0], k, p - |lead|) {
      MemberPreceded(text, i + |lead|, items[0], k, p - |lead|);
    } else {
      ItemPreceded(text, i + |lead| + |Flat(items[0])|, items[1..], ",", k, p - |lead| - |Flat(items[0])|);
    }
  }

  lemma {:induction false} ListPreceded(text: string, i: int, members: seq<Member>, lead: string, k: string, p: int)
    requires At(text, i, FlatMembers(members, lead)) && MemberAtMembers(members, lead, k, p)
    requires lead == "," || (lead == "" && 0 < i <= |text| && text[i - 1] == '{')
    ensures 0 < i + p <= |text| && Opens(text[i + p - 1])
    decreases members, 0
  {
    hide At, Ends, FlatMember, MemberStart;
    MembersSplit(text, i, members, lead);
    if lead == "," { AtChar(text, i, lead, 0); }
    if MemberStart(members[0], k, p - |lead|) {
      StartsInside(text, i + |lead|, FlatMember(members[0]));
      StartPreceded(text, i + |lead|, members[0], k, p - |lead|);
    } else {
      ListPreceded(text, i + |lead| + |FlatMember(members[0])|, members[1..], ",", k,
                   p - |lead| - |FlatMember(members[0])|);
    }
  }

  lemma {:induction false} StartPreceded(text: string, i: int, m: Member, k: string, p: int)
    requires At(text, i, FlatMember(m)) && MemberStart(m, k, p) && 0 < i <= |text| && Opens(text[i - 1])
    ensures 0 < i + p <= |text| && Opens(text[i + p - 1])
    decreases m, 1
  {
    hide At, Flat, Quote, MemberAt;
    if !(p == 0 && m.0 == k) {
      MemberSplit(text, i, m);
      MemberPreceded(text, i + |Quote(m.0)| + 1, m.1, k, p - |Quote(m.0)| - 1);
    }
  }

  /**
   The lexical theorem: a searchable name stands exactly where members of that name start, if and only if no
   member name anywhere ends in a quote and the name searched for.
   */
  lemma SearchIsExact(v: Json, k: string)
    requires Searchable(k)
    ensures (forall p :: At(Flat(v), p, NameOf(k)) <==> MemberAt(v, k, p)) <==> Unambiguous(Names(v), k)
  {
    hide Flat, MemberAt, NameOf, Names, EndsQuoted;
    if Unambiguous(Names(v), k) {
      forall p ensures At(Flat(v), p, NameOf(k)) <==> MemberAt(v, k, p) { NameStandsExactlyAtMembers(v, k, p); }
    } else {
      var n :| n in Names(v) && EndsQuoted(n, k);
      assert At(Flat(v), 0, Flat(v));
      var p := QuotedNameStands(Flat(v), 0, v, k, n);
      if MemberAt(v, k, p) {
        MemberPreceded(Flat(v), 0, v, k, p);
      }
      assert At(Flat(v), p, NameOf(k)) && !MemberAt(v, k, p);
    }
  }

  // ----- the scanners stop where the writer stopped

  /** Scanning an escaped string from its first character finds its closing quote. */
  lemma {:induction false} StringEndsAtQuote(text: string, i: nat, s: string)
    requires At(text, i, Escape(s) + "\"")
    ensures StringEnd(text, i, false) == Some(i + |Escape(s)|)
    decreases s
  {
    hide StringEnd, EscapeChar, At;
    if |s| == 0 {
      assert Escape(s) + "\"" == "\"";
      StringStops(text, i);
    } else {
      var e, rest := EscapeChar(s[0]), Escape(s[1..]);
      Assoc(e, rest, "\"");
      AtConcat(text, i, e, rest + "\"");
      StringEndsAtQuote(text, i + |e|, s[1..]);
      StringPassesChar(text, i, s[0]);
    }
  }

  lemma StringStops(text: string, i: nat)
    requires At(text, i, "\"")
    ensures StringEnd(text, i, false) == Some(i)
  {
    AtChar(text, i, "\"", 0);
  }

  lemma StringPassesChar(text: string, i: nat, c: char)
    requires At(text, i, EscapeChar(c))
    ensures StringEnd(text, i, false) == StringEnd(text, i + |EscapeChar(c)|, false)
  {
    var e := EscapeChar(c);
    EscapeCharShape(c);
    AtChar(text, i, e, 0);
    if |e| > 1 {
      AtChar(text, i, e, 1);
      if |e| == 6 {
        assert e == e[..2] + e[2..];
        AtConcat(text, i, e[..2], e[2..]);
        SkipPlainInString(text, i + 2, e[2..]);
      }
    }
  }

  lemma EscapeCharShape(c: char)
    ensures var e := EscapeChar(c);
            || (|e| == 1 && e[0] == c && c != '"' && c != '\\')
            || (|e| == 2 && e[0] == '\\')
            || (|e| == 6 && e[0] == '\\' && Plain(e[2..]))
  {
  }

  lemma {:induction false} SkipPlainInString(text: string, i: nat, s: string)
    requires At(text, i, s) && Plain(s)
    ensures StringEnd(text, i, false) == StringEnd(text, i + |s|, false)
    decreases s
  {
    if |s| > 0 {
      assert PlainChar(s[0]);
      AtChar(text, i, s, 0);
      assert s == [s[0]] + s[1..];
      AtConcat(text, i, [s[0]], s[1..]);
      SkipPlainInString(text, i + 1, s[1..]);
    }
  }

  /** The container scan passes over an escaped string and its closing quote. */
  lemma {:induction false} WalkEscaped(text: string, i: nat, s: string, depth: nat)
    requires At(text, i, Escape(s) + "\"")
    ensures ContainerEnd(text, i, depth, true, false)
         == ContainerEnd(text, i + |Escape(s)| + 1, depth, false, false)
    decreases s
  {
    hide ContainerEnd, EscapeChar, At;
    if |s| == 0 {
      assert Escape(s) + "\"" == "\"";
      WalkQuote(text, i, depth);
    } else {
      var e, rest := EscapeChar(s[0]), Escape(s[1..]);
      Assoc(e, rest, "\"");
      AtConcat(text, i, e, rest + "\"");
      WalkEscaped(text, i + |e|, s[1..], depth);
      WalkEscapedChar(text, i, s[0], depth);
    }
  }

  lemma WalkQuote(text: string, i: nat, depth: nat)
    requires At(text, i, "\"")
    ensures ContainerEnd(text, i, depth, true, false) == ContainerEnd(text, i + 1, depth, false, false)
  {
    AtChar(text, i, "\"", 0);
  }

  lemma WalkEscapedChar(text: string, i: nat, c: char, depth: nat)
    requires At(text, i, EscapeChar(c))
    ensures ContainerEnd(text, i, depth, true, false)
         == ContainerEnd(text, i + |EscapeChar(c)|, depth, true, false)
  {
    var e := EscapeChar(c);
    EscapeCharShape(c);
    AtChar(text, i, e, 0);
    if |e| > 1 {
      AtChar(text, i, e, 1);
      if |e| == 6 {
        assert e == e[..2] + e[2..];
        AtConcat(text, i, e[..2], e[2..]);
        WalkPlainInString(text, i + 2, e[2..], depth);
      }
    }
  }

  lemma {:induction false} WalkPlainInString(text: string, i: nat, s: string, depth: nat)
    requires At(text, i, s) && Plain(s)
    ensures ContainerEnd(text, i, depth, true, false) == ContainerEnd(text, i + |s|, depth, true, false)
    decreases s
  {
    if |s| > 0 {
      assert PlainChar(s[0]);
      AtChar(text, i, s, 0);
      assert s == [s[0]] + s[1..];
      AtConcat(text, i, [s[0]], s[1..]);
      WalkPlainInString(text, i + 1, s[1..], depth);
    }
  }

  lemma WalkQuoted(text: string, i: nat, s: string, depth: nat)
    requires At(text, i, Quote(s))
    ensures ContainerEnd(text, i, depth, false, false)
         == ContainerEnd(text, i + |Quote(s)|, depth, false, false)
  {
    AtConcat(text, i, "\"", Escape(s) + "\"");
    AtChar(text, i, "\"", 0);
    WalkEscaped(text, i + 1, s, depth);
  }

  /** No quote and no bracket. */
  predicate Bare(s: string) {
    forall i :: 0 <= i < |s| ==> s[i] != '"' && s[i] != '{' && s[i] != '[' && s[i] != '}' && s[i] != ']'
  }

  lemma {:induction false} WalkBare(text: string, i: nat, s: string, depth: nat)
    requires At(text, i, s) && Bare(s)
    ensures ContainerEnd(text, i, depth, false, false)
         == ContainerEnd(text, i + |s|, depth, false, false)
    decreases s
  {
    if |s| > 0 {
      AtChar(text, i, s, 0);
      assert s == [s[0]] + s[1..];
      AtConcat(text, i, [s[0]], s[1..]);
      WalkBare(text, i + 1, s[1..], depth);
    }
  }

  /** Inside a container, the scan passes over every value at the same depth. */
  lemma {:induction false} WalkValue(text: string, i: nat, v: Json, depth: nat)
    requires At(text, i, Flat(v)) && depth > 0
    ensures ContainerEnd(text, i, depth, false, false)
         == ContainerEnd(text, i + |Flat(v)|, depth, false, false)
    decreases v, 0
  {
    hide At, Quote, Decimal;
    match v
    case Str(s) => WalkQuoted(text, i, s, depth);
    case Array(items) =>
      Bracketed(text, i, "[", FlatItems(items, ""), "]");
      WalkItems(text, i + 1, items, "", depth + 1);
    case Object(members) =>
      Bracketed(text, i, "{", FlatMembers(members, ""), "}");
      WalkMembers(text, i + 1, members, "", depth + 1);
    case _ =>
      forall k | 0 <= k < |Flat(v)| ensures PlainChar(Flat(v)[k]) && !IsDelimiter(Flat(v)[k])
                                         && Flat(v)[k] != '{' && Flat(v)[k] != '[' {
        ScalarChars(v, k);
      }
      WalkBare(text, i, Flat(v), depth);
  }

  lemma {:induction false} WalkItems(text: string, i: nat, items: seq<Json>, lead: string, depth: nat)
    requires At(text, i, FlatItems(items, lead)) && depth > 0 && (lead == "" || lead == ",")
    ensures ContainerEnd(text, i, depth, false, false)
         == ContainerEnd(text, i + |FlatItems(items, lead)|, depth, false, false)
    decreases items, 0
  {
    hide At, Ends, Flat;
    if |items| > 0 {
      ItemsSplit(text, i, items, lead);
      WalkBare(text, i, lead, depth);
      WalkValue(text, i + |lead|, items[0], depth);
      WalkItems(text, i + |lead| + |Flat(items[0])|, items[1..], ",", depth);
    }
  }

  lemma {:induction false} WalkMembers(text: string, i: nat, members: seq<Member>, lead: string, depth: nat)
    requires At(text, i, FlatMembers(members, lead)) && depth > 0 && (lead == "" || lead == ",")
    ensures ContainerEnd(text, i, depth, false, false)
         == ContainerEnd(text, i + |FlatMembers(members, lead)|, depth, false, false)
    decreases members, 0
  {
    hide At, Ends, FlatMember;
    if |members| > 0 {
      MembersSplit(text, i, members, lead);
      WalkBare(text, i, lead, depth);
      WalkMember(text, i + |lead|, members[0], depth);
      WalkMembers(text, i + |lead| + |FlatMember(members[0])|, members[1..], ",", depth);
    }
  }

  lemma {:induction false} WalkMember(text: string, i: nat, m: Member, depth: nat)
    requires At(text, i, FlatMember(m)) && depth > 0
    ensures ContainerEnd(text, i, depth, false, false)
         == ContainerEnd(text, i + |FlatMember(m)|, depth, false, false)
    decreases m, 1
  {
    hide At, Quote, Flat;
    MemberSplit(text, i, m);
    WalkQuoted(text, i, m.0, depth);
    WalkValue(text, i + |Quote(m.0)| + 1, m.1, depth);
  }

  lemma {:induction false} ScalarEnds(text: string, i: nat, s: string)
    requires At(text, i, s) && Ends(text, i + |s|)
    requires forall k :: 0 <= k < |s| ==> !IsDelimiter(s[k])
    ensures ScalarLength(text, i) == |s|
    decreases s
  {
    if |s| > 0 {
      AtChar(text, i, s, 0);
      assert s == [s[0]] + s[1..];
      AtConcat(text, i, [s[0]], s[1..]);
      ScalarEnds(text, i + 1, s[1..]);
    }
  }

  lemma ContainerEndsWhereWritten(text: string, i: nat, v: Json)
    requires (v.Array? || v.Object?) && At(text, i, Flat(v))
    ensures text[i] == '[' || text[i] == '{'
    ensures ContainerEnd(text, i, 0, false, false) == Some(i + |Flat(v)| - 1)
  {
    hide At, ContainerEnd;
    match v
    case Array(items) =>
      Bracketed(text, i, "[", FlatItems(items, ""), "]");
      ContainerStep(text, i, 0);
      WalkItems(text, i + 1, items, "", 1);
      ContainerStep(text, i + 1 + |FlatItems(items, "")|, 1);
    case Object(members) =>
      Bracketed(text, i, "{", FlatMembers(members, ""), "}");
      ContainerStep(text, i, 0);
      WalkMembers(text, i + 1, members, "", 1);
      ContainerStep(text, i + 1 + |FlatMembers(members, "")|, 1);
  }

  lemma StringAtWritten(text: string, i: nat, s: string)
    requires At(text, i, Quote(s))
    ensures StringAt(text, i) == Some((Escape(s), i + |Quote(s)| - 1)) && text[i] == '"'
  {
    AtConcat(text, i, "\"", Escape(s) + "\"");
    AtConcat(text, i + 1, Escape(s), "\"");
    AtChar(text, i, "\"", 0);
    StringEndsAtQuote(text, i + 1, s);
  }

  lemma ScalarEndsWhereWritten(text: string, i: nat, v: Json)
    requires (v.Bool? || v.Int?) && At(text, i, Flat(v)) && Ends(text, i + |Flat(v)|)
    ensures |Flat(v)| > 0 && ScalarLength(text, i) == |Flat(v)|
    ensures PlainChar(text[i]) && text[i] != '[' && text[i] != '{'
  {
    hide At, Flat, ScalarLength, Ends;
    forall k | 0 <= k < |Flat(v)| ensures !IsDelimiter(Flat(v)[k]) { ScalarChars(v, k); }
    ScalarNotEmpty(v);
    AtChar(text, i, Flat(v), 0);
    ScalarChars(v, 0);
    ScalarEnds(text, i, Flat(v));
  }

  /**
   The value scanner agrees with the writer: started at the first character of a tree's text it stops at the
   last one, whatever follows a container or a string, and at the next delimiter for a scalar.
   */
  lemma ValueEndsWhereWritten(text: string, i: nat, v: Json)
    requires At(text, i, Flat(v)) && ((v.Bool? || v.Int?) ==> Ends(text, i + |Flat(v)|))
    ensures |Flat(v)| > 0 && ValueEnd(text, i) == Some(i + |Flat(v)| - 1)
  {
    hide At, ContainerEnd, StringAt, ScalarLength, Decimal, Escape, FlatItems, FlatMembers;
    match v
    case Str(s) => StringAtWritten(text, i, s);
    case Array(_) => ContainerEndsWhereWritten(text, i, v);
    case Object(_) => ContainerEndsWhereWritten(text, i, v);
    case _ => ScalarEndsWhereWritten(text, i, v);
  }

  lemma ScalarNotEmpty(v: Json)
    requires v.Bool? || v.Int?
    ensures |Flat(v)| > 0
  {
  }

  lemma ContainerStep(text: string, j: nat, depth: nat)
    requires j < |text|
    ensures (text[j] == '[' || text[j] == '{') ==>
              ContainerEnd(text, j, depth, false, false) == ContainerEnd(text, j + 1, depth + 1, false, false)
    ensures (text[j] == ']' || text[j] == '}') && depth == 1 ==>
              ContainerEnd(text, j, depth, false, false) == Some(j)
  {
  }
}

/** Verification undoes export: the verifier's text surgery reads back exactly what the exporter signed. */
module ExportTheorems {
  import opened Wrappers
  import opened Texts
  import opened Ordering
  import opened CanonicalJson
  import opened Scanners
  import opened CanonicalLexing

  // ----- the names a tree uses

  lemma {:induction false} NameInMembers(members: seq<Member>, k: string)
    ensures k in NamesOfMembers(members) <==> exists i :: 0 <= i < |members| && k in NamesOfMember(members[i])
  {
    if |members| > 0 {
      NameInMembers(members[1..], k);
      if i :| 0 <= i < |members[1..]| && k in NamesOfMember(members[1..][i]) {
        assert members[i + 1] == members[1..][i];
      }
      if i :| 0 <= i < |members| && k in NamesOfMember(members[i]) && k !in NamesOfMember(members[0]) {
        assert members[1..][i - 1] == members[i];
      }
    }
  }

  /** A member starts only where its name is one of the tree's names. */
  lemma {:induction false} MemberIsNamed(v: Json, k: string, p: int)
    requires MemberAt(v, k, p)
    ensures k in Names(v)
    decreases v, 0
  {
    match v
    case Array(items) => ItemIsNamed(items, "", k, p - 1);
    case Object(members) => ListIsNamed(members, "", k, p - 1);
  }

  lemma {:induction false} ItemIsNamed(items: seq<Json>, lead: string, k: string, p: int)
    requires MemberAtItems(items, lead, k, p)
    ensures k in NamesOfItems(items)
    decreases items, 0
  {
    if MemberAt(items[0], k, p - |lead|) {
      MemberIsNamed(items[0], k, p - |lead|);
    } else {
      ItemIsNamed(items[1..], ",", k, p - |lead| - |Flat(items[0])|);
    }
  }

  lemma {:induction false} ListIsNamed(members: seq<Member>, lead: string, k: string, p: int)
    requires MemberAtMembers(members, lead, k, p)
    ensures k in NamesOfMembers(members)
    decreases members, 0
  {
    if MemberStart(members[0], k, p - |lead|) {
      StartIsNamed(members[0], k, p - |lead|);
    } else {
      ListIsNamed(members[1..], ",", k, p - |lead| - |FlatMember(members[0])|);
    }
  }

  lemma {:induction false} StartIsNamed(m: Member, k: string, p: int)
    requires MemberStart(m, k, p)
    ensures k in NamesOfMember(m)
    decreases m, 1
  {
    if !(p == 0 && m.0 == k) { MemberIsNamed(m.1, k, p - |Quote(m.0)| - 1); }
  }

  /** Canonical form keeps the names. */
  lemma {:induction false} NamesOfCanonical(v: Json)
    ensures Names(Canonical(v)) == Names(v)
    decreases v, 0
  {
    match v
    case Array(items) => NamesOfCanonicalItems(items);
    case Object(members) =>
      NamesOfCanonicalMembers(members);
      var written := CanonicalMembers(members);
      SortSorts(written, MemberKey);
      NamesOfPermutation(written, Sort(written, MemberKey));
    case _ =>
  }

  lemma {:induction false} NamesOfCanonicalItems(items: seq<Json>)
    ensures NamesOfItems(CanonicalItems(items)) == NamesOfItems(items)
    decreases items, 0
  {
    if |items| > 0 {
      NamesOfCanonical(items[0]);
      NamesOfCanonicalItems(items[1..]);
    }
  }

  lemma {:induction false} NamesOfCanonicalMembers(members: seq<Member>)
    ensures NamesOfMembers(CanonicalMembers(members)) == NamesOfMembers(members)
    decreases members, 0
  {
    if |members| > 0 {
      NamesOfCanonicalMember(members[0]);
      NamesOfCanonicalMembers(members[1..]);
    }
  }

  lemma {:induction false} NamesOfCanonicalMember(m: Member)
    ensures NamesOfMember(CanonicalMember(m)) == NamesOfMember(m)
    decreases m, 1
  {
    NamesOfCanonical(m.1);
  }

  lemma NamesOfPermutation(a: seq<Member>, b: seq<Member>)
    requires multiset(a) == multiset(b)
    ensures NamesOfMembers(a) == NamesOfMembers(b)
  {
    forall k ensures k in NamesOfMembers(a) <==> k in NamesOfMembers(b) {
      NameInMembers(a, k);
      NameInMembers(b, k);
      if i :| 0 <= i < |a| && k in NamesOfMember(a[i]) { MultisetMember(a, b, i); }
      if i :| 0 <= i < |b| && k in NamesOfMember(b[i]) { MultisetMember(b, a, i); }
    }
  }

  /** Members whose values hold no members name only themselves. */
  lemma LeafNames(members: seq<Member>)
    requires forall i :: 0 <= i < |members| ==> Names(members[i].1) == {}
    ensures forall k :: k in NamesOfMembers(members) <==> exists i :: 0 <= i < |members| && members[i].0 == k
  {
    forall k ensures k in NamesOfMembers(members) <==> exists i :: 0 <= i < |members| && members[i].0 == k {
      NameInMembers(members, k);
    }
  }

  // ----- a name used once is found where it is used

  /** `k` names member `i` of `members` and nothing else at any depth. */
  ghost predicate OnlyName(members: seq<Member>, k: string, i: nat) {
    && i < |members| && members[i].0 == k && k !in Names(members[i].1)
    && forall j :: 0 <= j < |members| && j != i ==> k !in NamesOfMember(members[j])
  }

  /** Offset, in the text of the members, of member `i`. */
  function MemberOffset(members: seq<Member>, lead: string, i: nat): nat
    requires i < |members|
  {
    if i == 0 then |lead| else |lead| + |FlatMember(members[0])| + MemberOffset(members[1..], ",", i - 1)
  }

  lemma {:induction false} MemberTextAt(text: string, at: int, members: seq<Member>, lead: string, i: nat)
    requires At(text, at, FlatMembers(members, lead)) && i < |members|
    requires Ends(text, at + |FlatMembers(members, lead)|)
    ensures var o := at + MemberOffset(members, lead, i);
            At(text, o, FlatMember(members[i])) && Ends(text, o + |FlatMember(members[i])|)
    decreases i
  {
    hide At, Ends, FlatMember;
    MembersSplit(text, at, members, lead);
    if i > 0 { MemberTextAt(text, at + |lead| + |FlatMember(members[0])|, members[1..], ",", i - 1); }
  }

  lemma {:induction false} OnlyNameOffset(members: seq<Member>, lead: string, k: string, i: nat, p: int)
    requires OnlyName(members, k, i)
    ensures MemberAtMembers(members, lead, k, p) ==> p == MemberOffset(members, lead, i)
  {
    if MemberAtMembers(members, lead, k, p) {
      if MemberStart(members[0], k, p - |lead|) {
        StartIsNamed(members[0], k, p - |lead|);
        if MemberAt(members[0].1, k, p - |lead| - |Quote(members[0].0)| - 1) {
          MemberIsNamed(members[0].1, k, p - |lead| - |Quote(members[0].0)| - 1);
        }
      } else {
        var q := p - |lead| - |FlatMember(members[0])|;
        ListIsNamed(members[1..], ",", k, q);
        NameInMembers(members[1..], k);
        assert i > 0;
        assert OnlyName(members[1..], k, i - 1);
        OnlyNameOffset(members[1..], ",", k, i - 1, q);
      }
    }
  }

  /** The one place in an object's text where a name used once stands. */
  lemma OnlyNamePlace(members: seq<Member>, k: string, i: nat, p: int)
    requires OnlyName(members, k, i) && PlainKeysMembers(members) && Searchable(k)
    ensures At(Flat(Object(members)), p, NameOf(k)) <==> p == 1 + MemberOffset(members, "", i)
  {
    hide At, MemberAtMembers, PlainKeysMembers, FlatMember;
    var v := Object(members);
    PlainIsUnambiguous(v, k);
    NameStandsExactlyAtMembers(v, k, p);
    OnlyNameOffset(members, "", k, i, p - 1);
    if p == 1 + MemberOffset(members, "", i) {
      MemberPlace(members, i);
      NameAt(Flat(v), members[i], p);
    }
  }

  lemma NameAt(text: string, m: Member, p: int)
    requires At(text, p, FlatMember(m)) && Plain(m.0)
    ensures At(text, p, NameOf(m.0)) && At(text, p + |NameOf(m.0)|, Flat(m.1))
  {
    PlainEscape(m.0);
    assert NameOf(m.0) == Quote(m.0) + ":";
    Assoc(Quote(m.0), ":", Flat(m.1));
    AtConcat(text, p, NameOf(m.0), Flat(m.1));
  }

  lemma MemberPlace(members: seq<Member>, i: nat)
    requires i < |members|
    ensures var text, o := Flat(Object(members)), 1 + MemberOffset(members, "", i);
            At(text, o, FlatMember(members[i])) && Ends(text, o + |FlatMember(members[i])|)
  {
    hide FlatMember;
    MembersInObject(members);
    hide *;
    MemberTextAt(Flat(Object(members)), 1, members, "", i);
  }

  lemma MembersInObject(members: seq<Member>)
    ensures var text := Flat(Object(members));
            At(text, 1, FlatMembers(members, "")) && Ends(text, 1 + |FlatMembers(members, "")|)
  {
    hide FlatMember, FlatMembers, Ends;
    var text := Flat(Object(members));
    assert At(text, 0, text);
    hide At;
    Bracketed(text, 0, "{", FlatMembers(members, ""), "}");
  }

  /** Text search for an object-valued member with a unique name returns exactly that object's text. */
  lemma ObjectMemberFindsOnlyName(members: seq<Member>, k: string, i: nat)
    requires OnlyName(members, k, i) && PlainKeysMembers(members) && Searchable(k)
    requires members[i].1.Object?
    ensures ObjectMember(Flat(Object(members)), k) == Some(Flat(members[i].1))
  {
    var text, p, value := Flat(Object(members)), 1 + MemberOffset(members, "", i), members[i].1;
    MemberPlace(members, i);
    NameAt(text, members[i], p);
    forall q | 0 <= q < p ensures !At(text, q, NameOf(k)) { OnlyNamePlace(members, k, i, q); }
    FirstObjectMember(text, k, value, p);
  }

  lemma FirstObjectMember(text: string, k: string, value: Json, p: nat)
    requires At(text, p, NameOf(k)) && At(text, p + |NameOf(k)|, Flat(value)) && value.Object?
    requires forall q :: 0 <= q < p ==> !At(text, q, NameOf(k))
    ensures ObjectMember(text, k) == Some(Flat(value))
  {
    hide ValueEnd;
    var anchor := NameOf(k) + "{";
    AtConcat(text, p + |NameOf(k)|, "{", FlatMembers(value.members, "") + "}");
    AtConcat(text, p, NameOf(k), "{");
    forall q | 0 <= q < p ensures !At(text, q, anchor) { AtConcat(text, q, NameOf(k), "{"); }
    FindIs(text, anchor, p);
    assert anchor == "\"" + (k + "\":{");
    ValueEndsWhereWritten(text, p + |NameOf(k)|, value);
  }

  /**
   The search does go wrong on a name that ends in a quote and `k`: in an object with one such member it returns
   that member's value, though no member is named `k`.
   */
  lemma EscapedNameMisleads(k: string, value: Json)
    requires Plain(k) && value.Object? && k !in Names(value)
    ensures var v := Object([("\"" + k, value)]); k !in Names(v) && ObjectMember(Flat(v), k) == Some(Flat(value))
  {
    hide At, Flat, FlatMembers, FlatMember, ObjectMember, Plain;
    var m: Member := ("\"" + k, value);
    var text := Flat(Object([m]));
    OneName(m);
    OneMember(m);
    EscapedMember(text, 1, k, value);
    forall q | 0 <= q < 3 ensures !At(text, q, NameOf(k)) { NoNameBefore(text, q, k); }
    FirstObjectMember(text, k, value, 3);
  }

  lemma OneName(m: Member)
    ensures Names(Object([m])) == {m.0} + Names(m.1)
  {
    assert [m][1..] == [];
    assert NamesOfMembers([m]) == NamesOfMember(m) + NamesOfMembers([m][1..]);
  }

  lemma OneMember(m: Member)
    ensures At(Flat(Object([m])), 1, FlatMember(m)) && Flat(Object([m]))[0] == '{'
  {
    hide FlatMember, FlatMembers, At, Ends;
    MemberPlace([m], 0);
    assert [m][0] == m && MemberOffset([m], "", 0) == 0;
  }

  /** The text of a member whose name is a quote and `k`. */
  lemma EscapedMember(text: string, i: int, k: string, value: Json)
    requires At(text, i, FlatMember(("\"" + k, value))) && Plain(k)
    ensures At(text, i + 2, NameOf(k)) && At(text, i + 2 + |NameOf(k)|, Flat(value))
    ensures 0 <= i && i + 2 < |text| && text[i] == '"' && text[i + 1] == '\\'
  {
    var name := "\"" + (k + "\"");
    EscapedName(k);
    hide At, Flat, Escape, Plain;
    MemberSplit(text, i, ("\"" + k, value));
    AtConcat(text, i, "\"\\", name);
    NameAndColon(text, i + 2, k);
    AtChar(text, i, "\"\\", 0);
    AtChar(text, i, "\"\\", 1);
  }

  lemma EscapedName(k: string)
    requires Plain(k)
    ensures Quote("\"" + k) == "\"\\" + ("\"" + (k + "\""))
  {
    EscapedQuote(k);
  }

  lemma NoNameBefore(text: string, q: nat, k: string)
    requires q < 3 && |text| > 3 && text[0] == '{' && text[1] == '"' && text[2] == '\\' && Plain(k)
    ensures !At(text, q, NameOf(k))
  {
    hide At;
    assert NameOf(k)[0] == '"' && NameOf(k)[1] != '\\';
    if At(text, q, NameOf(k)) {
      AtChar(text, q, NameOf(k), 0);
      AtChar(text, q, NameOf(k), 1);
    }
  }

  // ----- the member readers

  /** Index of the first member named `k`. */
  function FirstNamed(members: seq<Member>, k: string): (r: Option<nat>)
    ensures r.Some? ==> r.value < |members| && members[r.value].0 == k
    ensures r.Some? ==> forall j :: 0 <= j < r.value ==> members[j].0 != k
    ensures r.None? ==> forall j :: 0 <= j < |members| ==> members[j].0 != k
  {
    if |members| == 0 then None
    else if members[0].0 == k then Some(0)
    else match FirstNamed(members[1..], k)
      case None => None
      case Some(j) => Some(j + 1)
  }

  /** Where the value of member `i` starts. */
  function ValueOffset(members: seq<Member>, lead: string, i: nat): nat
    requires i < |members|
  {
    MemberOffset(members, lead, i) + |Quote(members[i].0)| + 1
  }

  /** The scanners' view of one written member: its name, the colon, and the value. */
  lemma MemberScan(text: string, o: nat, m: Member)
    requires At(text, o, FlatMember(m)) && Ends(text, o + |FlatMember(m)|) && Plain(m.0)
    ensures var c := o + |Quote(m.0)|;
            && c < |text| && text[c] == ':' && text[o] == '"'
            && StringAt(text, o) == Some((m.0, c - 1))
            && At(text, c + 1, Flat(m.1)) && |Flat(m.1)| > 0
            && o + |FlatMember(m)| == c + 1 + |Flat(m.1)|
            && ValueEnd(text, c + 1) == Some(c + |Flat(m.1)|)
  {
    hide At, Ends, FlatMember, StringAt, ValueEnd, Quote, Flat;
    PlainEscape(m.0);
    MemberSplit(text, o, m);
    StringAtWritten(text, o, m.0);
    ValueEndsWhereWritten(text, o + |Quote(m.0)| + 1, m.1);
  }

  lemma SpanAtName(text: string, o: nat, name: string, c: nat, end: nat, k: string)
    requires o < c < end < |text| && text[o] != ',' && text[c] == ':'
    requires StringAt(text, o) == Some((name, c - 1)) && ValueEnd(text, c + 1) == Some(end)
    ensures MemberSpan(text, o, k) == if name == k then Some((c + 1, end)) else MemberSpan(text, end + 1, k)
  {
    hide StringAt, ValueEnd;
  }

  /** One step of the member scan: past the comma, the name and the value. */
  lemma SpanStep(text: string, at: nat, members: seq<Member>, lead: string, k: string)
    requires |members| > 0 && (lead == "" || lead == ",") && Plain(members[0].0)
    requires At(text, at, FlatMembers(members, lead)) && Ends(text, at + |FlatMembers(members, lead)|)
    ensures var start := at + ValueOffset(members, lead, 0);
            var after := at + |lead| + |FlatMember(members[0])|;
            && after == start + |Flat(members[0].1)|
            && (if members[0].0 == k then ReadsMember(text, at, k, start, Flat(members[0].1))
                else MemberSpan(text, at, k) == MemberSpan(text, after, k))
  {
    hide At, Ends, FlatMembers, FlatMember, Quote, Flat, StringAt, ValueEnd, MemberSpan;
    var m, o := members[0], at + |lead|;
    MembersSplit(text, at, members, lead);
    SkipLead(text, at, lead, k);
    MemberScan(text, o, m);
    SpanAtName(text, o, m.0, o + |Quote(m.0)|, o + |Quote(m.0)| + |Flat(m.1)|, k);
  }

  lemma SkipLead(text: string, at: nat, lead: string, k: string)
    requires At(text, at, lead) && (lead == "" || lead == ",")
    ensures MemberSpan(text, at, k) == MemberSpan(text, at + |lead|, k)
  {
    if lead == "," { AtChar(text, at, lead, 0); }
  }

  /** Scanning from `cursor`, the member named `k` has the value whose text stands at `start`. */
  ghost predicate ReadsMember(text: string, cursor: nat, k: string, start: nat, value: string) {
    && At(text, start, value) && |value| > 0
    && MemberSpan(text, cursor, k) == Some((start, start + |value| - 1))
  }

  /** Scanning the members whose text stands at `cursor` finds the first one named `k`. */
  ghost predicate ReadsFirst(text: string, cursor: nat, members: seq<Member>, lead: string, k: string) {
    match FirstNamed(members, k)
    case None => MemberSpan(text, cursor, k) == None
    case Some(i) => ReadsMember(text, cursor, k, cursor + ValueOffset(members, lead, i), Flat(members[i].1))
  }

  lemma ReadsFirstStep(text: string, at: nat, members: seq<Member>, lead: string, k: string)
    requires |members| > 0 && members[0].0 != k
    requires var after := at + |lead| + |FlatMember(members[0])|;
             MemberSpan(text, at, k) == MemberSpan(text, after, k) && ReadsFirst(text, after, members[1..], ",", k)
    ensures ReadsFirst(text, at, members, lead, k)
  {
    hide At, FlatMember, MemberSpan, Flat, Quote;
    match FirstNamed(members[1..], k)
    case None =>
    case Some(j) => assert members[j + 1] == members[1..][j];
  }

  lemma {:induction false} SpanOfFirstNamed(text: string, at: nat, members: seq<Member>, lead: string, k: string)
    requires lead == "" || lead == ","
    requires At(text, at, FlatMembers(members, lead)) && PlainKeysMembers(members)
    requires at + |FlatMembers(members, lead)| + 1 == |text| && text[|text| - 1] == '}'
    ensures ReadsFirst(text, at, members, lead, k)
    decreases members
  {
    hide At, Ends, FlatMembers, FlatMember, MemberSpan, Quote, Flat, ReadsMember;
    if |members| == 0 {
      SpanAtEnd(text, at, members, lead, k);
    } else {
      EndsBeforeBrace(text);
      SpanStep(text, at, members, lead, k);
      MembersSplit(text, at, members, lead);
      if members[0].0 != k {
        SpanOfFirstNamed(text, at + |lead| + |FlatMember(members[0])|, members[1..], ",", k);
        ReadsFirstStep(text, at, members, lead, k);
      }
    }
  }

  lemma SpanAtEnd(text: string, at: nat, members: seq<Member>, lead: string, k: string)
    requires |members| == 0 && at + |FlatMembers(members, lead)| + 1 == |text| && text[|text| - 1] == '}'
    ensures ReadsFirst(text, at, members, lead, k)
  {
  }

  lemma EndsBeforeBrace(text: string)
    requires |text| > 0 && text[|text| - 1] == '}'
    ensures Ends(text, |text| - 1)
  {
  }

  /** The value a reader finds for `k` in an object's text: that of the first member so named. */
  lemma SpanInObject(members: seq<Member>, k: string)
    requires PlainKeysMembers(members)
    ensures var text := Flat(Object(members));
            |text| > 0 && text[0] == '{' && ReadsFirst(text, 1, members, "", k)
  {
    hide FlatMembers, ReadsFirst;
    var text := Flat(Object(members));
    assert At(text, 0, text);
    Bracketed(text, 0, "{", FlatMembers(members, ""), "}");
    hide At, MemberSpan;
    SpanOfFirstNamed(text, 1, members, "", k);
  }

  /** What `StringMember` and `IntMember` read from a value's own text. */
  function StringRead(v: Json): Option<string> {
    match v
    case Str(s) => Some(Escape(s))
    case _ => None
  }

  function IntRead(v: Json): Option<Int64> {
    match v
    case Int(n) => if n >= 0 then Some(n) else None
    case _ => None
  }

  /** The string reader returns the escaped text of the first member so named, and only of a string. */
  lemma StringMemberReads(members: seq<Member>, k: string)
    requires PlainKeysMembers(members)
    ensures StringMember(Flat(Object(members)), k)
         == match FirstNamed(members, k)
            case None => None
            case Some(i) => StringRead(members[i].1)
  {
    hide At, MemberSpan, Flat, StringAt, Escape, ValueOffset, PlainKeysMembers;
    SpanInObject(members, k);
    match FirstNamed(members, k)
    case None =>
    case Some(i) =>
      StringReadAt(Flat(Object(members)), 1 + ValueOffset(members, "", i), members[i].1);
  }

  lemma StringReadAt(text: string, start: nat, v: Json)
    requires At(text, start, Flat(v)) && |Flat(v)| > 0
    ensures match StringAt(text, start)
            case None => StringRead(v) == None
            case Some(s) => StringRead(v) == Some(s.0) && s.1 == start + |Flat(v)| - 1
  {
    if v.Str? {
      StringAtWritten(text, start, v.text);
    } else {
      NotAString(v);
      AtChar(text, start, Flat(v), 0);
    }
  }

  lemma NotAString(v: Json)
    requires !v.Str?
    ensures |Flat(v)| > 0 && Flat(v)[0] != '"'
  {
    if v.Bool? || v.Int? {
      ScalarNotEmpty(v);
      ScalarChars(v, 0);
    }
  }

  /** The integer reader returns the number of the first member so named, if it is a natural number. */
  lemma IntMemberReads(members: seq<Member>, k: string)
    requires PlainKeysMembers(members)
    ensures IntMember(Flat(Object(members)), k)
         == match FirstNamed(members, k)
            case None => None
            case Some(i) => IntRead(members[i].1)
  {
    hide MemberSpan, FlatMembers, ParseDigits;
    SpanInObject(members, k);
    match FirstNamed(members, k)
    case None =>
    case Some(i) =>
      var text, start, v := Flat(Object(members)), 1 + ValueOffset(members, "", i), members[i].1;
      assert text[start..start + |Flat(v)|] == Flat(v);
      ParseValue(v);
  }

  lemma ParseValue(v: Json)
    ensures ParseDigits(Flat(v)) == IntRead(v)
  {
    if v.Int? && v.number >= 0 {
      DigitsValue(v.number);
    } else if v.Int? {
      assert !IsDigit(Flat(v)[0]);
    } else if v.Bool? {
      assert !IsDigit(Flat(v)[0]);
    } else {
      FirstCharOfText(v);
    }
  }

  lemma FirstCharOfText(v: Json)
    requires v.Str? || v.Array? || v.Object?
    ensures |Flat(v)| > 0 && !IsDigit(Flat(v)[0])
  {
  }
}

/** Canonical text depends on values only: it forgets member order and nothing else. */
module CanonicalForm {
  import opened Texts
  import opened Ordering
  import opened CanonicalJson
  import opened CanonicalLexing

  // ----- equal up to member order

  /** Every object in `v`, at any depth, has distinct member names. */
  ghost predicate DistinctNames(v: Json)
    decreases v, 0
  {
    match v
    case Array(items) => forall i :: 0 <= i < |items| ==> DistinctNames(items[i])
    case Object(members) =>
      DistinctKeys(members, MemberKey) && forall i :: 0 <= i < |members| ==> DistinctInMember(members[i])
    case _ => true
  }

  ghost predicate DistinctInMember(m: Member)
    decreases m, 1
  {
    DistinctNames(m.1)
  }

  /** The same value: arrays agree item by item, objects agree name by name in any order. */
  ghost predicate SameValue(v: Json, w: Json)
    decreases v, 0
  {
    match (v, w)
    case (Array(a), Array(b)) => |a| == |b| && forall i :: 0 <= i < |a| ==> SameValue(a[i], b[i])
    case (Object(a), Object(b)) => |a| == |b| && forall i :: 0 <= i < |a| ==> MemberIn(a[i], b)
    case _ => v == w
  }

  ghost predicate MemberIn(m: Member, members: seq<Member>)
    decreases m, 1
  {
    exists j :: 0 <= j < |members| && members[j].0 == m.0 && SameValue(m.1, members[j].1)
  }

  // ----- the text determines the canonical tree

  lemma EscapeFirst(c: char)
    ensures |EscapeChar(c)| > 0 && EscapeChar(c)[0] != '"'
  {
  }

  const LOWER_HEX := "0123456789abcdef"

  /** How each character is written, by code point: five short escapes, and `\u` with four lower-case digits. */
  lemma EscapesAre(c: char)
    ensures var n := c as int;
            EscapeChar(c) == if n == 0x22 then ['\\', '"'] else if n == 0x5C then ['\\', '\\']
                             else if n == 0x0A then ['\\', 'n'] else if n == 0x0D then ['\\', 'r']
                             else if n == 0x09 then ['\\', 't']
                             else if n < 0x20 then ['\\', 'u', '0', '0', LOWER_HEX[n / 16], LOWER_HEX[n % 16]]
                             else [c]
  {
    HexDigitIs(c as int / 16 % 16);
    HexDigitIs(c as int % 16);
  }

  lemma HexDigitIs(n: nat)
    requires n < 16
    ensures HexDigit(n) == LOWER_HEX[n]
  {
  }

  /** Different characters are escaped differently, and neither escape starts the other. */
  lemma EscapeCharDetermines(text: string, i: int, c: char, d: char)
    requires At(text, i, EscapeChar(c)) && At(text, i, EscapeChar(d))
    ensures c == d
  {
    var e, f := EscapeChar(c), EscapeChar(d);
    AtChar(text, i, e, 0);
    AtChar(text, i, f, 0);
    if |e| > 1 && |f| > 1 {
      AtChar(text, i, e, 1);
      AtChar(text, i, f, 1);
      if |e| == 6 && |f| == 6 {
        AtChar(text, i, e, 4);
        AtChar(text, i, f, 4);
        AtChar(text, i, e, 5);
        AtChar(text, i, f, 5);
        HexDigitInjective(c as int / 16, d as int / 16);
        HexDigitInjective(c as int % 16, d as int % 16);
      }
    }
  }

  lemma HexDigitInjective(m: nat, n: nat)
    requires m < 16 && n < 16
    ensures HexDigit(m) == HexDigit(n) ==> m == n
  {
  }

  lemma {:induction false} EscapedTextDetermines(text: string, i: int, s: string, t: string)
    requires At(text, i, Escape(s) + "\"") && At(text, i, Escape(t) + "\"")
    ensures s == t
    decreases s
  {
    hide EscapeChar, At;
    if |s| == 0 || |t| == 0 {
      AtChar(text, i, Escape(s) + "\"", 0);
      AtChar(text, i, Escape(t) + "\"", 0);
      if |s| > 0 { EscapeFirst(s[0]); }
      if |t| > 0 { EscapeFirst(t[0]); }
    } else {
      var e, f := EscapeChar(s[0]), EscapeChar(t[0]);
      Assoc(e, Escape(s[1..]), "\"");
      Assoc(f, Escape(t[1..]), "\"");
      AtConcat(text, i, e, Escape(s[1..]) + "\"");
      AtConcat(text, i, f, Escape(t[1..]) + "\"");
      EscapeCharDetermines(text, i, s[0], t[0]);
      EscapedTextDetermines(text, i + |e|, s[1..], t[1..]);
      assert s == [s[0]] + s[1..] && t == [t[0]] + t[1..];
    }
  }

  lemma QuotedTextDetermines(text: string, i: int, s: string, t: string)
    requires At(text, i, Quote(s)) && At(text, i, Quote(t))
    ensures s == t
  {
    AtConcat(text, i, "\"", Escape(s) + "\"");
    AtConcat(text, i, "\"", Escape(t) + "\"");
    EscapedTextDetermines(text, i + 1, s, t);
  }

  /** What the first character of a value's text says about the value. */
  lemma FirstChar(v: Json)
    ensures |Flat(v)| > 0
    ensures var c := Flat(v)[0];
            && (c == '"' <==> v.Str?) && (c == '[' <==> v.Array?) && (c == '{' <==> v.Object?)
            && ((c == 't' || c == 'f') <==> v.Bool?) && ((c == '-' || IsDigit(c)) <==> v.Int?)
            && (v.Bool? ==> v.flag == (c == 't')) && (v.Int? ==> (v.number < 0) == (c == '-'))
            && c != ',' && c != ']' && c != '}'
  {
  }

  lemma NumberDetermines(text: string, i: int, m: Int64, n: Int64)
    requires At(text, i, Decimal(m)) && Ends(text, i + |Decimal(m)|)
    requires At(text, i, Decimal(n)) && Ends(text, i + |Decimal(n)|)
    ensures m == n
  {
    FirstChar(Int(m));
    FirstChar(Int(n));
    var a, b := Decimal(m), Decimal(n);
    AtChar(text, i, a, 0);
    AtChar(text, i, b, 0);
    NumberNotLonger(text, i, m, n);
    NumberNotLonger(text, i, n, m);
    assert a == text[i..i + |a|] == b;
    var x: int, y: int := m, n;
    if m < 0 {
      assert Digits(-x) == a[1..] && Digits(-y) == b[1..];
      DigitsValue(-x);
      DigitsValue(-y);
    } else {
      DigitsValue(x);
      DigitsValue(y);
    }
  }

  lemma NumberNotLonger(text: string, i: int, m: Int64, n: Int64)
    requires At(text, i, Decimal(m)) && Ends(text, i + |Decimal(m)|) && At(text, i, Decimal(n))
    ensures |Decimal(n)| <= |Decimal(m)|
  {
    if |Decimal(m)| < |Decimal(n)| {
      AtChar(text, i, Decimal(n), |Decimal(m)|);
      FirstChar(Int(m));
      DecimalChars(n, |Decimal(m)|);
      assert false;
    }
  }

  /** Two trees written at the same place, each followed by the end or a delimiter, are the same tree. */
  lemma {:induction false} TextDetermines(text: string, i: int, v: Json, w: Json)
    requires At(text, i, Flat(v)) && Ends(text, i + |Flat(v)|)
    requires At(text, i, Flat(w)) && Ends(text, i + |Flat(w)|)
    ensures v == w
    decreases v, 0
  {
    hide At, Ends, Quote, Decimal, FlatItems, FlatMembers;
    FirstChar(v);
    FirstChar(w);
    AtChar(text, i, Flat(v), 0);
    AtChar(text, i, Flat(w), 0);
    if v.Str? {
      QuotedTextDetermines(text, i, v.text, w.text);
    } else if v.Int? {
      NumberDetermines(text, i, v.number, w.number);
    } else if v.Array? {
      Bracketed(text, i, "[", FlatItems(v.items, ""), "]");
      Bracketed(text, i, "[", FlatItems(w.items, ""), "]");
      ItemsTextDetermines(text, i + 1, v.items, w.items, "");
    } else if v.Object? {
      Bracketed(text, i, "{", FlatMembers(v.members, ""), "}");
      Bracketed(text, i, "{", FlatMembers(w.members, ""), "}");
      MembersTextDetermines(text, i + 1, v.members, w.members, "");
    }
  }

  /** `j` is where the text of a container's contents is followed by its closing bracket. */
  predicate Closes(text: string, j: int) {
    0 <= j < |text| && (text[j] == ']' || text[j] == '}')
  }

  lemma {:induction false} ItemsTextDetermines(text: string, i: int, a: seq<Json>, b: seq<Json>, lead: string)
    requires lead == "" || lead == ","
    requires At(text, i, FlatItems(a, lead)) && Closes(text, i + |FlatItems(a, lead)|)
    requires At(text, i, FlatItems(b, lead)) && Closes(text, i + |FlatItems(b, lead)|)
    ensures a == b
    decreases a, 0
  {
    hide At, Ends, Flat, Closes;
    if |a| == 0 {
      if |b| > 0 { NotClosedByItems(text, i, b, lead); assert false; }
    } else if |b| == 0 {
      NotClosedByItems(text, i, a, lead);
      assert false;
    } else {
      ItemsSplit(text, i, a, lead);
      ItemsSplit(text, i, b, lead);
      ClosedEnds(text, i + |FlatItems(a, lead)|);
      ClosedEnds(text, i + |FlatItems(b, lead)|);
      TextDetermines(text, i + |lead|, a[0], b[0]);
      assert Flat(a[0]) == Flat(b[0]);
      ItemsTextDetermines(text, i + |lead| + |Flat(a[0])|, a[1..], b[1..], ",");
      assert a == [a[0]] + a[1..] && b == [b[0]] + b[1..];
    }
  }

  lemma ClosedEnds(text: string, j: int)
    requires Closes(text, j)
    ensures Ends(text, j)
  {
  }

  lemma NotClosedByItems(text: string, i: int, a: seq<Json>, lead: string)
    requires |a| > 0 && (lead == "" || lead == ",") && At(text, i, FlatItems(a, lead))
    ensures !Closes(text, i)
  {
    ItemsSplit(text, i, a, lead);
    if lead == "," {
      AtChar(text, i, lead, 0);
    } else {
      FirstChar(a[0]);
      AtChar(text, i, Flat(a[0]), 0);
    }
  }

  lemma {:induction false} MembersTextDetermines(text: string, i: int, a: seq<Member>, b: seq<Member>, lead: string)
    requires lead == "" || lead == ","
    requires At(text, i, FlatMembers(a, lead)) && Closes(text, i + |FlatMembers(a, lead)|)
    requires At(text, i, FlatMembers(b, lead)) && Closes(text, i + |FlatMembers(b, lead)|)
    ensures a == b
    decreases a, 0
  {
    hide At, Ends, FlatMember, Closes;
    if |a| == 0 {
      if |b| > 0 { NotClosedByMembers(text, i, b, lead); assert false; }
    } else if |b| == 0 {
      NotClosedByMembers(text, i, a, lead);
      assert false;
    } else {
      MembersSplit(text, i, a, lead);
      MembersSplit(text, i, b, lead);
      ClosedEnds(text, i + |FlatMembers(a, lead)|);
      ClosedEnds(text, i + |FlatMembers(b, lead)|);
      MemberTextDetermines(text, i + |lead|, a[0], b[0]);
      MembersTextDetermines(text, i + |lead| + |FlatMember(a[0])|, a[1..], b[1..], ",");
      assert a == [a[0]] + a[1..] && b == [b[0]] + b[1..];
    }
  }

  lemma NotClosedByMembers(text: string, i: int, a: seq<Member>, lead: string)
    requires |a| > 0 && (lead == "" || lead == ",") && At(text, i, FlatMembers(a, lead))
    ensures !Closes(text, i)
  {
    MembersSplit(text, i, a, lead);
    if lead == "," {
      AtChar(text, i, lead, 0);
    } else {
      AtChar(text, i, FlatMember(a[0]), 0);
    }
  }

  lemma {:induction false} MemberTextDetermines(text: string, i: int, m: Member, n: Member)
    requires At(text, i, FlatMember(m)) && Ends(text, i + |FlatMember(m)|)
    requires At(text, i, FlatMember(n)) && Ends(text, i + |FlatMember(n)|)
    ensures m == n
    decreases m, 1
  {
    hide At, Ends, Quote, Flat;
    MemberSplit(text, i, m);
    MemberSplit(text, i, n);
    QuotedTextDetermines(text, i, m.0, n.0);
    TextDetermines(text, i + |Quote(m.0)| + 1, m.1, n.1);
  }

  /** Equal canonical text means equal canonical trees. */
  lemma CanonicalTextDetermines(v: Json, w: Json)
    requires CanonicalText(v) == CanonicalText(w)
    ensures Canonical(v) == Canonical(w)
  {
    var text := CanonicalText(v);
    assert At(text, 0, Flat(Canonical(v))) && At(text, 0, Flat(Canonical(w)));
    TextDetermines(text, 0, Canonical(v), Canonical(w));
  }

  // ----- canonical trees agree exactly on equal values

  lemma CanonicalItemAt(items: seq<Json>)
    ensures forall i :: 0 <= i < |items| ==> CanonicalItems(items)[i] == Canonical(items[i])
  {
    forall i | 0 <= i < |items| ensures CanonicalItems(items)[i] == Canonical(items[i]) { CanonicalItemsAt(items, i); }
  }

  lemma CanonicalMemberAt(members: seq<Member>)
    ensures forall i :: 0 <= i < |members| ==> CanonicalMembers(members)[i] == CanonicalMember(members[i])
  {
    forall i | 0 <= i < |members| ensures CanonicalMembers(members)[i] == CanonicalMember(members[i]) {
      CanonicalMembersAt(members, i);
    }
  }

  /** Sequences without repeated keys, of one length, the first's items all in the second: a permutation. */
  lemma {:induction false} ContainedIsPermutation(a: seq<Member>, b: seq<Member>)
    requires DistinctKeys(a, MemberKey) && |a| == |b|
    requires forall i :: 0 <= i < |a| ==> a[i] in b
    ensures multiset(a) == multiset(b)
    decreases |a|
  {
    if |a| > 0 {
      var j :| 0 <= j < |b| && b[j] == a[0];
      var rest := b[..j] + b[j + 1..];
      assert b == b[..j] + [b[j]] + b[j + 1..];
      forall i | 0 <= i < |a[1..]| ensures a[1..][i] in rest {
        assert a[1..][i] == a[i + 1] && MemberKey(a[0]) != MemberKey(a[i + 1]);
        var h :| 0 <= h < |b| && b[h] == a[i + 1];
        assert if h < j then rest[h] == b[h] else rest[h - 1] == b[h];
      }
      ContainedIsPermutation(a[1..], rest);
      assert a == [a[0]] + a[1..];
    }
  }

  lemma {:induction false} SameValueSameCanonical(v: Json, w: Json)
    requires DistinctNames(v) && SameValue(v, w)
    ensures Canonical(v) == Canonical(w)
    decreases v, 0
  {
    match (v, w)
    case (Array(a), Array(b)) =>
      CanonicalItemAt(a);
      CanonicalItemAt(b);
      forall i | 0 <= i < |a| ensures Canonical(a[i]) == Canonical(b[i]) { SameValueSameCanonical(a[i], b[i]); }
      assert CanonicalItems(a) == CanonicalItems(b);
    case (Object(a), Object(b)) =>
      CanonicalMemberAt(a);
      CanonicalMemberAt(b);
      var ca, cb := CanonicalMembers(a), CanonicalMembers(b);
      forall i | 0 <= i < |a| ensures ca[i] in cb {
        assert MemberIn(a[i], b) && DistinctInMember(a[i]);
        var j := MemberInSameCanonical(a[i], b);
        assert cb[j] == ca[i];
      }
      CanonicalKeepsDistinct(a);
      ContainedIsPermutation(ca, cb);
      SortPermutation(ca, cb, MemberKey);
    case _ =>
  }

  lemma MemberInSameCanonical(m: Member, members: seq<Member>) returns (j: nat)
    requires MemberIn(m, members) && DistinctInMember(m)
    ensures j < |members| && CanonicalMember(m) == CanonicalMember(members[j])
    decreases m, 1
  {
    j :| 0 <= j < |members| && members[j].0 == m.0 && SameValue(m.1, members[j].1);
    SameValueSameCanonical(m.1, members[j].1);
  }

  lemma CanonicalKeepsDistinct(members: seq<Member>)
    requires DistinctKeys(members, MemberKey)
    ensures DistinctKeys(CanonicalMembers(members), MemberKey)
  {
    var ca := CanonicalMembers(members);
    forall i, j | 0 <= i < j < |ca| ensures MemberKey(ca[i]) != MemberKey(ca[j]) {
      assert MemberKey(members[i]) != MemberKey(members[j]);
    }
  }

  lemma {:induction false} SameCanonicalSameValue(v: Json, w: Json)
    requires Canonical(v) == Canonical(w)
    ensures SameValue(v, w)
    decreases v, 0
  {
    match v
    case Array(a) =>
      CanonicalItemAt(a);
      CanonicalItemAt(w.items);
      forall i | 0 <= i < |a| ensures SameValue(a[i], w.items[i]) {
        assert CanonicalItems(a)[i] == CanonicalItems(w.items)[i];
        SameCanonicalSameValue(a[i], w.items[i]);
      }
    case Object(a) =>
      var b := w.members;
      CanonicalMemberAt(a);
      CanonicalMemberAt(b);
      var ca, cb := CanonicalMembers(a), CanonicalMembers(b);
      SortSorts(ca, MemberKey);
      SortSorts(cb, MemberKey);
      assert |multiset(ca)| == |multiset(cb)|;
      forall i | 0 <= i < |a| ensures MemberIn(a[i], b) {
        MultisetMember(ca, cb, i);
        var j :| 0 <= j < |cb| && cb[j] == ca[i];
        SameCanonicalMember(a[i], b, j);
      }
    case _ =>
  }

  lemma SameCanonicalMember(m: Member, members: seq<Member>, j: nat)
    requires j < |members| && CanonicalMember(m) == CanonicalMember(members[j])
    ensures MemberIn(m, members)
    decreases m, 1
  {
    SameCanonicalSameValue(m.1, members[j].1);
  }

  /** Canonical text is equal exactly when the values are: it depends on nothing but the value. */
  lemma CanonicalTextIsTheValue(v: Json, w: Json)
    requires DistinctNames(v)
    ensures CanonicalText(v) == CanonicalText(w) <==> SameValue(v, w)
  {
    if SameValue(v, w) {
      SameValueSameCanonical(v, w);
    }
    if CanonicalText(v) == CanonicalText(w) {
      CanonicalTextDetermines(v, w);
      SameCanonicalSameValue(v, w);
    }
  }
}

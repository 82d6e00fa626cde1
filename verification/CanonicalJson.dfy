/** The canonical JSON writer of the signed export (src/signed_json.rs). */
module CanonicalJson {
  import opened Texts
  import opened Ordering

  type Int64 = x: int | -0x8000_0000_0000_0000 <= x <= 0x7fff_ffff_ffff_ffff

  type Member = (string, Json)

  datatype Json =
    | Str(text: string)
    | Bool(flag: bool)
    | Int(number: Int64)
    | Array(items: seq<Json>)
    | Object(members: seq<Member>)

  function MemberKey(m: Member): Key {
    [m.0]
  }

  // ----- the text of a tree whose members already stand in output order

  function HexDigit(nibble: nat): char
    requires nibble < 16
  {
    if nibble < 10 then '0' + nibble as char else 'a' + (nibble - 10) as char
  }

  function EscapeChar(c: char): string {
    if c == '"' then "\\\""
    else if c == '\\' then "\\\\"
    else if c == '\n' then "\\n"
    else if c == '\r' then "\\r"
    else if c == '\t' then "\\t"
    else if c < ' ' then ['\\', 'u', '0', '0', HexDigit(c as int / 16), HexDigit(c as int % 16)]
    else [c]
  }

  function Escape(text: string): string {
    if |text| == 0 then "" else EscapeChar(text[0]) + Escape(text[1..])
  }

  function Quote(text: string): string {
    "\"" + (Escape(text) + "\"")
  }

  function Decimal(number: int): string {
    if number < 0 then "-" + Digits(-number) else Digits(number)
  }

  /** The text of `v` with every object's members in the order given. */
  function Flat(v: Json): string
    decreases v, 0
  {
    match v
    case Str(text) => Quote(text)
    case Bool(flag) => if flag then "true" else "false"
    case Int(number) => Decimal(number)
    case Array(items) => "[" + (FlatItems(items, "") + "]")
    case Object(members) => "{" + (FlatMembers(members, "") + "}")
  }

  /** The items' texts, the first one after `lead` and every other one after a comma. */
  function FlatItems(items: seq<Json>, lead: string): string
    decreases items, 0
  {
    if |items| == 0 then "" else lead + (Flat(items[0]) + FlatItems(items[1..], ","))
  }

  function FlatMembers(members: seq<Member>, lead: string): string
    decreases members, 0
  {
    if |members| == 0 then "" else lead + (FlatMember(members[0]) + FlatMembers(members[1..], ","))
  }

  function FlatMember(m: Member): string
    decreases m, 1
  {
    Quote(m.0) + (":" + Flat(m.1))
  }

  // ----- canonical form

  /** `v` with every object's members sorted by key. */
  function Canonical(v: Json): Json
    decreases v, 0
  {
    match v
    case Array(items) => Array(CanonicalItems(items))
    case Object(members) => Object(Sort(CanonicalMembers(members), MemberKey))
    case _ => v
  }

  function CanonicalItems(items: seq<Json>): (r: seq<Json>)
    ensures |r| == |items|
    decreases items, 0
  {
    if |items| == 0 then [] else [Canonical(items[0])] + CanonicalItems(items[1..])
  }

  function CanonicalMembers(members: seq<Member>): (r: seq<Member>)
    ensures |r| == |members|
    ensures forall i :: 0 <= i < |r| ==> r[i].0 == members[i].0
    decreases members, 0
  {
    if |members| == 0 then [] else [CanonicalMember(members[0])] + CanonicalMembers(members[1..])
  }

  function CanonicalMember(m: Member): Member
    decreases m, 1
  {
    (m.0, Canonical(m.1))
  }

  /** The canonical text of a value. */
  function CanonicalText(v: Json): string {
    Flat(Canonical(v))
  }

  // ----- the writer

  method WriteString(out: string, text: string) returns (r: string)
    ensures r == out + Quote(text)
  {
    hide Escape, EscapeChar;
    r := out + "\"";
    NoEscape(text);
    for i := 0 to |text|
      invariant r == out + "\"" + Escape(text[..i])
    {
      EscapeAppend(text[..i], text[i]);
      assert text[..i + 1] == text[..i] + [text[i]];
      r := r + EscapeChar(text[i]);
    }
    assert text[..|text|] == text;
    r := r + "\"";
  }

  lemma NoEscape(text: string)
    ensures Escape(text[..0]) == ""
  {
  }

  method WriteValue(out: string, value: Json) returns (r: string)
    ensures r == out + CanonicalText(value)
    decreases value, 1
  {
    match value
    case Str(text) => r := WriteString(out, text);
    case Bool(flag) => r := out + if flag then "true" else "false";
    case Int(number) => r := out + Decimal(number);
    case Array(items) => r := WriteArray(out, items);
    case Object(members) => r := WriteObject(out, members);
  }

  method WriteArray(out: string, items: seq<Json>) returns (r: string)
    ensures r == out + CanonicalText(Array(items))
    decreases items, 0
  {
    hide Flat, FlatItems, Canonical, CanonicalItems;
    r := out + "[";
    var done := CanonicalItems(items);
    NoItems(done);
    for i := 0 to |items|
      invariant r == out + "[" + FlatItems(done[..i], "")
    {
      if i > 0 { r := r + ","; }
      CanonicalItemsAt(items, i);
      FlatItemsAppend(done[..i], "", done[i]);
      assert done[..i + 1] == done[..i] + [done[i]];
      Assoc(out + "[", FlatItems(done[..i], ""), if i > 0 then "," else "");
      Assoc(out + "[", FlatItems(done[..i], ""), (if i > 0 then "," else "") + Flat(done[i]));
      r := WriteValue(r, items[i]);
    }
    assert done[..|items|] == done;
    r := r + "]";
    ArrayText(items);
  }

  lemma NoItems(items: seq<Json>)
    ensures FlatItems(items[..0], "") == ""
  {
  }

  lemma ArrayText(items: seq<Json>)
    ensures CanonicalText(Array(items)) == "[" + (FlatItems(CanonicalItems(items), "") + "]")
  {
  }

  method WriteObject(out: string, members: seq<Member>) returns (r: string)
    ensures r == out + CanonicalText(Object(members))
    decreases members, 1
  {
    var ordered := Sort(members, MemberKey);
    SortSorts(members, MemberKey);
    r := WriteOrdered(out + "{", ordered, members);
    r := r + "}";
    SortCanonicalMembers(members);
    var body := FlatMembers(CanonicalMembers(ordered), "");
    Assoc(out, "{", body);
    Assoc(out, "{" + body, "}");
    Assoc("{", body, "}");
  }

  /** The loop of `WriteObject`: the members in output order, separated by commas. */
  method WriteOrdered(out: string, ordered: seq<Member>, ghost members: seq<Member>) returns (r: string)
    requires multiset(ordered) == multiset(members)
    ensures r == out + FlatMembers(CanonicalMembers(ordered), "")
    decreases members, 0
  {
    ghost var done := CanonicalMembers(ordered);
    r := out;
    for i := 0 to |ordered|
      invariant r == out + FlatMembers(done[..i], "")
    {
      var m := ordered[i];
      MultisetMember(ordered, members, i);
      ghost var j :| 0 <= j < |members| && members[j] == m;
      CanonicalMembersAt(ordered, i);
      PrefixStep(done, i);
      FlatMembersAppend(done[..i], "", CanonicalMember(m));
      ghost var before, lead := r, if i == 0 then "" else ",";
      if i > 0 { r := r + ","; }
      assert r == before + lead;
      r := WriteMember(r, m);
      Assoc(before, lead, FlatMember(CanonicalMember(m)));
      Assoc(out, FlatMembers(done[..i], ""), lead + FlatMember(CanonicalMember(m)));
    }
    assert done[..|ordered|] == done;
  }

  /** The body of that loop. */
  method WriteMember(out: string, m: Member) returns (r: string)
    ensures r == out + FlatMember(CanonicalMember(m))
    decreases m, 2
  {
    r := WriteString(out, m.0);
    r := r + ":";
    r := WriteValue(r, m.1);
    Assoc(out, Quote(m.0), ":");
    Assoc(out, Quote(m.0) + ":", CanonicalText(m.1));
    Assoc(Quote(m.0), ":", CanonicalText(m.1));
  }

  // ----- lemmas about the writer

  lemma {:induction false} EscapeAppend(text: string, c: char)
    ensures Escape(text + [c]) == Escape(text) + EscapeChar(c)
  {
    var all := text + [c];
    if |text| == 0 {
      assert all[1..] == "";
      assert all[0] == c;
    } else {
      EscapeAppend(text[1..], c);
      assert all[1..] == text[1..] + [c];
      assert all[0] == text[0];
      calc {
        Escape(all);
        EscapeChar(text[0]) + (Escape(text[1..]) + EscapeChar(c));
        { Assoc(EscapeChar(text[0]), Escape(text[1..]), EscapeChar(c)); }
        Escape(text) + EscapeChar(c);
      }
    }
  }

  lemma {:induction false} CanonicalItemsAt(items: seq<Json>, i: nat)
    requires i < |items|
    ensures CanonicalItems(items)[i] == Canonical(items[i])
  {
    hide Canonical;
    if i > 0 { CanonicalItemsAt(items[1..], i - 1); }
  }

  lemma {:induction false} CanonicalMembersAt(members: seq<Member>, i: nat)
    requires i < |members|
    ensures CanonicalMembers(members)[i] == CanonicalMember(members[i])
  {
    hide CanonicalMember;
    if i > 0 { CanonicalMembersAt(members[1..], i - 1); }
  }

  /** The separator written before the item that follows `n` items. */
  lemma {:induction false} FlatItemsAppend(items: seq<Json>, lead: string, x: Json)
    ensures FlatItems(items + [x], lead)
         == FlatItems(items, lead) + ((if |items| == 0 then lead else ",") + Flat(x))
  {
    var all := items + [x];
    if |items| == 0 {
      assert all[1..] == [] && all[0] == x;
    } else {
      assert all[1..] == items[1..] + [x] && all[0] == items[0];
      FlatItemsAppend(items[1..], ",", x);
      Assoc(Flat(items[0]), FlatItems(items[1..], ","), "," + Flat(x));
      Assoc(lead, Flat(items[0]) + FlatItems(items[1..], ","), "," + Flat(x));
    }
  }

  lemma {:induction false} FlatMembersAppend(members: seq<Member>, lead: string, m: Member)
    ensures FlatMembers(members + [m], lead)
         == FlatMembers(members, lead) + ((if |members| == 0 then lead else ",") + FlatMember(m))
  {
    var all := members + [m];
    if |members| == 0 {
      assert all[1..] == [] && all[0] == m;
    } else {
      assert all[1..] == members[1..] + [m] && all[0] == members[0];
      FlatMembersAppend(members[1..], ",", m);
      Assoc(FlatMember(members[0]), FlatMembers(members[1..], ","), "," + FlatMember(m));
      Assoc(lead, FlatMember(members[0]) + FlatMembers(members[1..], ","), "," + FlatMember(m));
    }
  }

  lemma {:induction false} CanonicalMembersAppend(members: seq<Member>, m: Member)
    ensures CanonicalMembers(members + [m]) == CanonicalMembers(members) + [CanonicalMember(m)]
  {
    hide CanonicalMember;
    if |members| == 0 {
      assert members + [m] == [m];
    } else {
      CanonicalMembersAppend(members[1..], m);
      assert (members + [m])[1..] == members[1..] + [m];
    }
  }

  lemma {:induction false} InsertCanonicalMember(members: seq<Member>, m: Member)
    ensures CanonicalMembers(Insert(members, m, MemberKey))
         == Insert(CanonicalMembers(members), CanonicalMember(m), MemberKey)
  {
    hide Canonical, KeyLess;
    if |members| > 0 {
      var init, last := members[..|members| - 1], members[|members| - 1];
      assert members == init + [last];
      CanonicalMembersAppend(init, last);
      if KeyLess(MemberKey(m), MemberKey(last)) {
        InsertCanonicalMember(init, m);
        CanonicalMembersAppend(Insert(init, m, MemberKey), last);
      } else {
        CanonicalMembersAppend(members, m);
      }
    }
  }

  /** Sorting before writing the values or after gives the same members. */
  lemma {:induction false} SortCanonicalMembers(members: seq<Member>)
    ensures CanonicalMembers(Sort(members, MemberKey)) == Sort(CanonicalMembers(members), MemberKey)
  {
    if |members| > 0 {
      var init, last := members[..|members| - 1], members[|members| - 1];
      assert members == init + [last];
      SortCanonicalMembers(init);
      CanonicalMembersAppend(init, last);
      InsertCanonicalMember(Sort(init, MemberKey), last);
    }
  }
}

/** The main results about the signed export: what it writes, the verifier reads back and accepts. */
module VerifyExport {
  import opened Wrappers
  import opened Texts
  import opened Ordering
  import opened CanonicalJson
  import CanonicalForm
  import opened Scanners
  import opened CanonicalLexing
  import opened SignedExport
  import opened Corpora
  import opened ExportTheorems

  // ----- hexadecimal round trip

  lemma HexDigitValue(n: nat)
    requires n < 16
    ensures HexValue(HexDigit(n)) == Some(n) && HexDigit(n) != '+' && PlainChar(HexDigit(n))
  {
  }

  lemma PairRoundTrip(b: Byte)
    ensures ParseHexPair(HexDigit(b / 16), HexDigit(b % 16)) == Some(b)
    ensures Plain(HexByte(b)) && |HexByte(b)| == 2
  {
    HexDigitValue(b / 16);
    HexDigitValue(b % 16);
    assert 16 * (b / 16) + b % 16 == b;
  }

  lemma PlainConcat(a: string, b: string)
    requires Plain(a) && Plain(b)
    ensures Plain(a + b)
  {
  }

  /** Decoding what `ToHex` wrote gives the bytes back. */
  lemma {:induction false} HexRoundTrip(bytes: Bytes)
    ensures FromHex(Hex(bytes)) == Some(bytes)
    ensures Plain(Hex(bytes)) && |Hex(bytes)| == 2 * |bytes|
  {
    hide ParseHexPair, HexDigit, Plain;
    if |bytes| > 0 {
      var b, rest := bytes[0], Hex(bytes[1..]);
      HexRoundTrip(bytes[1..]);
      PairRoundTrip(b);
      PlainConcat(HexByte(b), rest);
      assert Hex(bytes)[0] == HexByte(b)[0] && Hex(bytes)[1] == HexByte(b)[1];
      assert Hex(bytes)[2..] == rest;
      assert bytes == [b] + bytes[1..];
    } else {
      NoHex();
    }
  }

  /** A hexadecimal digit of either case. */
  predicate ReadsDigit(c: char, d: nat) {
    d < 16 && (c == CanonicalForm.LOWER_HEX[d] || (d >= 10 && c as int == CanonicalForm.LOWER_HEX[d] as int - 0x20))
  }

  /** Two characters that are read as a byte: two digits, or a plus sign and one digit. */
  ghost predicate ReadsPair(a: char, b: char, v: Byte) {
    exists high: nat, low: nat :: ReadsDigit(b, low) && ReadsHigh(a, high) && v == 16 * high + low
  }

  predicate ReadsHigh(a: char, high: nat) {
    ReadsDigit(a, high) || (a == '+' && high == 0)
  }

  lemma DigitIsRead(c: char)
    ensures match HexValue(c)
            case Some(v) => v < 16 && forall d: nat :: ReadsDigit(c, d) <==> d == v
            case None => forall d: nat :: !ReadsDigit(c, d)
    ensures HexValue('+') == None
  {
  }

  lemma PairIsRead(a: char, b: char, v: Byte)
    ensures ParseHexPair(a, b) == Some(v) <==> ReadsPair(a, b, v)
  {
    hide HexValue, ReadsDigit;
    DigitIsRead(a);
    DigitIsRead(b);
    if ParseHexPair(a, b) == Some(v) {
      var low := HexValue(b).value;
      var high := if a == '+' then 0 else HexValue(a).value;
      assert ReadsDigit(b, low) && ReadsHigh(a, high) && v == 16 * high + low;
    }
    if ReadsPair(a, b, v) {
      var high: nat, low: nat :| ReadsDigit(b, low) && ReadsHigh(a, high) && v == 16 * high + low;
      assert HexValue(b) == Some(low);
      assert a != '+' ==> HexValue(a) == Some(high);
    }
  }

  /** Exactly the texts of such pairs decode, to the bytes of their pairs. */
  lemma {:induction false} FromHexExactly(hex: string, bytes: Bytes)
    ensures FromHex(hex) == Some(bytes) <==>
            |hex| == 2 * |bytes|
            && forall i :: 0 <= i < |bytes| ==> ReadsPair(hex[2 * i], hex[2 * i + 1], bytes[i])
    decreases hex
  {
    hide ParseHexPair, ReadsPair;
    if |hex| >= 2 {
      var rest, more := hex[2..], if |bytes| > 0 then bytes[1..] else [];
      FromHexExactly(rest, more);
      forall v: Byte ensures ParseHexPair(hex[0], hex[1]) == Some(v) <==> ReadsPair(hex[0], hex[1], v) {
        PairIsRead(hex[0], hex[1], v);
      }
      if |bytes| > 0 {
        assert bytes == [bytes[0]] + more;
        forall i | 0 <= i < |more| && |hex| == 2 * |bytes|
          ensures rest[2 * i] == hex[2 * (i + 1)] && rest[2 * i + 1] == hex[2 * (i + 1) + 1] && more[i] == bytes[i + 1]
        {
        }
      }
    }
  }

  lemma NoHex()
    ensures Plain("")
  {
  }

  // ----- sorting a few members

  lemma SortTwo(a: Member, b: Member)
    requires KeyLess(MemberKey(a), MemberKey(b))
    ensures Sort([a, b], MemberKey) == [a, b]
  {
    KeyLessAsymmetric(MemberKey(a), MemberKey(b));
    assert [a, b][..1] == [a] && [a][..0] == [];
    assert Sort([a], MemberKey) == Insert(Sort([], MemberKey), a, MemberKey) == [a];
    assert Sort([a, b], MemberKey) == Insert([a], b, MemberKey);
  }

  lemma SortLastBetween(a: Member, b: Member, c: Member)
    requires KeyLess(MemberKey(a), MemberKey(c)) && KeyLess(MemberKey(c), MemberKey(b))
    ensures Sort([a, b, c], MemberKey) == [a, c, b]
  {
    KeyLessTransitive(MemberKey(a), MemberKey(c), MemberKey(b));
    KeyLessAsymmetric(MemberKey(a), MemberKey(c));
    SortTwo(a, b);
    assert [a, b, c][..2] == [a, b] && [a, b][..1] == [a];
    assert Sort([a, b, c], MemberKey) == Insert([a, b], c, MemberKey);
    assert Insert([a], c, MemberKey) == [a, c];
  }

  // ----- a unique name stays unique in canonical order

  lemma CanonicalOnlyName(members: seq<Member>, k: string, j: nat) returns (i: nat)
    requires OnlyName(members, k, j)
    ensures var sorted := Sort(CanonicalMembers(members), MemberKey);
            OnlyName(sorted, k, i) && sorted[i].1 == Canonical(members[j].1) && FirstNamed(sorted, k) == Some(i)
  {
    hide Names, NamesOfMember, Canonical, CanonicalMembers, Sort;
    var written := CanonicalMembers(members);
    var sorted := Sort(written, MemberKey);
    SortSorts(written, MemberKey);
    WrittenOnlyName(members, k, j);
    i := OnlyNameMoves(written, sorted, k, j);
    OnlyIsFirst(sorted, k, i);
  }

  lemma HasOwnName(m: Member)
    ensures m.0 in NamesOfMember(m)
  {
  }

  /** A name used once is used once in any order of the members. */
  lemma OnlyNameMoves(a: seq<Member>, b: seq<Member>, k: string, j: nat) returns (i: nat)
    requires multiset(a) == multiset(b) && OnlyName(a, k, j)
    ensures OnlyName(b, k, i) && b[i] == a[j]
  {
    hide Names, NamesOfMember;
    MultisetMember(a, b, j);
    i :| 0 <= i < |b| && b[i] == a[j];
    HasOwnName(a[j]);
    forall h | 0 <= h < |b| && h != i ensures k !in NamesOfMember(b[h]) {
      MultisetMember(b, a, h);
      var g :| 0 <= g < |a| && a[g] == b[h];
      if g == j { CopyIsUnique(a, b, j, i, h); }
    }
  }

  lemma CopyIsUnique(a: seq<Member>, b: seq<Member>, j: nat, i: nat, h: nat)
    requires multiset(a) == multiset(b) && j < |a| && i < |b| && h < |b| && b[i] == a[j] && b[h] == a[j]
    requires forall g :: 0 <= g < |a| && g != j ==> a[g] != a[j]
    ensures h == i
  {
    OnceCounted(a, j);
    if h < i { TwiceCounted(b, h, i); }
    if i < h { TwiceCounted(b, i, h); }
  }

  lemma OnlyIsFirst(members: seq<Member>, k: string, i: nat)
    requires OnlyName(members, k, i)
    ensures FirstNamed(members, k) == Some(i)
  {
    hide Names, NamesOfMember;
    forall h | 0 <= h < |members| ensures h != i ==> members[h].0 != k { HasOwnName(members[h]); }
  }

  lemma WrittenOnlyName(members: seq<Member>, k: string, j: nat)
    requires OnlyName(members, k, j)
    ensures var written := CanonicalMembers(members);
            OnlyName(written, k, j) && written[j].1 == Canonical(members[j].1)
  {
    forall h | 0 <= h < |members|
      ensures CanonicalMembers(members)[h] == CanonicalMember(members[h])
      ensures NamesOfMember(CanonicalMembers(members)[h]) == NamesOfMember(members[h])
      ensures Names(CanonicalMembers(members)[h].1) == Names(members[h].1)
    {
      CanonicalMembersAt(members, h);
      NamesOfCanonicalMember(members[h]);
      NamesOfCanonical(members[h].1);
    }
  }

  // ----- any signed document

  /** What a payload must be for its signed document to verify. */
  ghost predicate Signable(payload: Json) {
    && payload.Object? && PlainKeys(payload)
    && "payload" !in Names(payload) && "signature" !in Names(payload) && "verification" !in Names(payload)
    && exists i: nat :: OnlyName(payload.members, "schema", i) && payload.members[i].1 == SchemaBlock()
  }

  /** The top-level members of a signed document, in canonical order. */
  function TopMembers(payload: Json, signature: string, verification: Json): seq<Member> {
    [("payload", payload), ("signature", Str(signature)), ("verification", verification)]
  }

  lemma TopLevelKeys()
    ensures KeyLess(["payload"], ["signature"]) && KeyLess(["signature"], ["verification"])
    ensures KeyLess(["payload"], ["verification"])
    ensures Searchable("payload") && Searchable("signature") && Searchable("verification")
  {
    assert Less("payload", "signature") && Less("signature", "verification") && Less("payload", "verification");
  }

  lemma DocumentIsCanonical(payload: Json, signature: string, verification: Json)
    ensures CanonicalText(Object([("payload", payload), ("verification", verification),
                                  ("signature", Str(signature))]))
         == Flat(Object(TopMembers(Canonical(payload), signature, Canonical(verification))))
    ensures CanonicalText(Object([("payload", payload), ("verification", verification)]))
         == Flat(Object([("payload", Canonical(payload)), ("verification", Canonical(verification))]))
  {
    hide KeyLess, Flat;
    TopLevelKeys();
    var p, v, s: Member := ("payload", payload), ("verification", verification), ("signature", Str(signature));
    CanonicalOfThree(p, v, s);
    CanonicalOfTwo(p, v);
    SortLastBetween(CanonicalMember(p), CanonicalMember(v), CanonicalMember(s));
    SortTwo(CanonicalMember(p), CanonicalMember(v));
  }

  lemma CanonicalOfTwo(a: Member, b: Member)
    ensures CanonicalMembers([a, b]) == [CanonicalMember(a), CanonicalMember(b)]
  {
    assert [a, b][1..] == [b] && [b][1..] == [];
  }

  lemma CanonicalOfThree(a: Member, b: Member, c: Member)
    ensures CanonicalMembers([a, b, c]) == [CanonicalMember(a), CanonicalMember(b), CanonicalMember(c)]
  {
    assert [a, b, c][1..] == [b, c];
    CanonicalOfTwo(b, c);
  }

  lemma PlainKeysOfThree(a: Member, b: Member, c: Member)
    requires PlainMember(a) && PlainMember(b) && PlainMember(c)
    ensures PlainKeysMembers([a, b, c])
  {
    hide PlainMember;
    assert [a, b, c][1..] == [b, c] && [b, c][1..] == [c] && [c][1..] == [];
    assert PlainKeysMembers([c]) && PlainKeysMembers([b, c]);
  }

  /** The top-level names of a signed document are each used once. */
  lemma TopNames(payload: Json, signature: string, verification: Json)
    requires PlainKeys(payload) && PlainKeys(verification)
    requires forall k :: k in {"payload", "signature", "verification"} ==>
               k !in Names(payload) && k !in Names(verification)
    ensures var top := TopMembers(payload, signature, verification);
            && PlainKeysMembers(top) && OnlyName(top, "payload", 0)
            && OnlyName(top, "signature", 1) && OnlyName(top, "verification", 2)
  {
    hide PlainKeys, Names, Plain, Searchable, KeyLess;
    var top := TopMembers(payload, signature, verification);
    PlainTopKeys();
    StringHasNoNames(signature);
    PlainKeysOfThree(top[0], top[1], top[2]);
    TopKeysDiffer();
  }

  lemma PlainTopKeys()
    ensures Plain("payload") && Plain("signature") && Plain("verification")
  {
  }

  lemma TopKeysDiffer()
    ensures "payload" != "signature" && "signature" != "verification" && "payload" != "verification"
  {
    assert |"payload"| == 7 && |"signature"| == 9 && |"verification"| == 12;
  }

  lemma StringHasNoNames(s: string)
    ensures Names(Str(s)) == {} && PlainKeys(Str(s))
  {
  }

  /** The text between the brackets of a document, cut around its signature member. */
  lemma DocumentText(p: Member, s: Member, v: Member)
    ensures Flat(Object([p, s, v]))
         == "{" + FlatMember(p) + ("," + FlatMember(s)) + ("," + FlatMember(v) + "}")
    ensures Flat(Object([p, v])) == "{" + FlatMember(p) + ("," + FlatMember(v) + "}")
    ensures MemberOffset([p, s, v], "", 1) == |FlatMember(p)| + 1
  {
    hide FlatMember, Flat;
    var fp, fs, fv := FlatMember(p), FlatMember(s), FlatMember(v);
    MembersTexts(p, s, v);
    ObjectText([p, s, v]);
    ObjectText([p, v]);
    assert "{" + ((fp + ("," + fs + ("," + fv))) + "}") == "{" + fp + ("," + fs) + ("," + fv + "}");
    assert "{" + ((fp + ("," + fv)) + "}") == "{" + fp + ("," + fv + "}");
  }

  lemma ObjectText(members: seq<Member>)
    ensures Flat(Object(members)) == "{" + (FlatMembers(members, "") + "}")
  {
  }

  lemma MembersTexts(p: Member, s: Member, v: Member)
    ensures FlatMembers([p, s, v], "") == FlatMember(p) + ("," + FlatMember(s) + ("," + FlatMember(v)))
    ensures FlatMembers([p, v], "") == FlatMember(p) + ("," + FlatMember(v))
    ensures MemberOffset([p, s, v], "", 1) == |FlatMember(p)| + 1
  {
    hide FlatMember;
    assert [p, s, v][1..] == [s, v] && [s, v][1..] == [v] && [p, v][1..] == [v] && [v][1..] == [];
    assert FlatMembers([v], ",") == "," + FlatMember(v);
    assert FlatMembers([s, v], ",") == "," + FlatMember(s) + ("," + FlatMember(v));
    assert MemberOffset([s, v], ",", 0) == 1;
  }

  /** The signature's hex text is found, and taking its member out leaves the text that was signed. */
  lemma ReconstructsSigned(payload: Json, signature: string, verification: Json)
    requires PlainKeys(payload) && PlainKeys(verification) && Plain(signature)
    requires forall k :: k in {"payload", "signature", "verification"} ==>
               k !in Names(payload) && k !in Names(verification)
    ensures ReconstructSigned(Flat(Object(TopMembers(payload, signature, verification))))
         == Some((Flat(Object([("payload", payload), ("verification", verification)])), signature))
  {
    hide FlatMember, Flat, PlainKeys, Names, ReconstructSigned, Searchable;
    var top := TopMembers(payload, signature, verification);
    var text := Flat(Object(top));
    var before, after := "{" + FlatMember(top[0]), "," + FlatMember(top[2]) + "}";
    TopNames(payload, signature, verification);
    TopLevelKeys();
    DocumentText(top[0], top[1], top[2]);
    SignatureMemberText(signature);
    forall q | 0 <= q < |before| + 1 ensures !At(text, q, NameOf("signature")) {
      OnlyNamePlace(top, "signature", 1, q);
    }
    PlainIsQuoteFree(signature);
    CutsSignature(before, after, signature);
  }

  lemma SignatureMemberText(signature: string)
    requires Plain(signature)
    ensures FlatMember(("signature", Str(signature))) == SIGNATURE_ANCHOR + signature + "\""
    ensures SIGNATURE_ANCHOR == NameOf("signature") + "\""
  {
    hide Escape;
    PlainEscape(signature);
    TopLevelKeys();
    PlainEscape("signature");
    assert Flat(Str(signature)) == "\"" + (signature + "\"");
    assert Quote("signature") == "\"signature\"";
    QuotedMember(signature);
  }

  lemma QuotedMember(signature: string)
    ensures "\"signature\"" + (":" + ("\"" + (signature + "\""))) == SIGNATURE_ANCHOR + signature + "\""
  {
    Assoc("\"signature\"", ":", "\"" + (signature + "\""));
    Assoc("\"signature\":", "\"", signature + "\"");
    Assoc(SIGNATURE_ANCHOR, signature, "\"");
  }

  /** Where the pieces of a signature member stand, given where the member stands. */
  lemma SignaturePieces(text: string, q: int, signature: string)
    requires At(text, q, "," + (SIGNATURE_ANCHOR + signature + "\""))
    requires SIGNATURE_ANCHOR == NameOf("signature") + "\""
    ensures At(text, q + 1, NameOf("signature")) && At(text, q + 1, SIGNATURE_ANCHOR)
    ensures At(text, q + 1 + |SIGNATURE_ANCHOR|, signature)
    ensures At(text, q + 1 + |SIGNATURE_ANCHOR| + |signature|, "\"")
  {
    hide At, NameOf;
    AtConcat(text, q, ",", SIGNATURE_ANCHOR + signature + "\"");
    AtConcat(text, q + 1, SIGNATURE_ANCHOR + signature, "\"");
    AtConcat(text, q + 1, SIGNATURE_ANCHOR, signature);
    AtConcat(text, q + 1, NameOf("signature"), "\"");
  }

  lemma FirstAnchor(text: string, p: nat)
    requires At(text, p, SIGNATURE_ANCHOR) && SIGNATURE_ANCHOR == NameOf("signature") + "\""
    requires forall q :: 0 <= q < p ==> !At(text, q, NameOf("signature"))
    ensures Find(text, SIGNATURE_ANCHOR, 0) == Some(p)
  {
    hide At, NameOf;
    forall q | 0 <= q < p ensures !At(text, q, SIGNATURE_ANCHOR) { AtConcat(text, q, NameOf("signature"), "\""); }
    FindIs(text, SIGNATURE_ANCHOR, p);
  }

  predicate QuoteFree(s: string) {
    forall i :: 0 <= i < |s| ==> s[i] != '"'
  }

  lemma PlainIsQuoteFree(s: string)
    requires Plain(s)
    ensures QuoteFree(s)
  {
    forall i | 0 <= i < |s| ensures s[i] != '"' { assert PlainChar(s[i]); }
  }

  /** Cutting the first `,"signature":"..."` out of a text whose first signature name is that one. */
  lemma CutsSignature(before: string, after: string, signature: string)
    requires QuoteFree(signature) && SIGNATURE_ANCHOR == NameOf("signature") + "\""
    requires var text := before + ("," + (SIGNATURE_ANCHOR + signature + "\"")) + after;
             forall q :: 0 <= q < |before| + 1 ==> !At(text, q, NameOf("signature"))
    ensures var text := before + ("," + (SIGNATURE_ANCHOR + signature + "\"")) + after;
            ReconstructSigned(text) == Some((before + after, signature))
  {
    hide NameOf, At, Find;
    var member := "," + (SIGNATURE_ANCHOR + signature + "\"");
    var text, p := before + member + after, |before|;
    AtInside(before, member, after);
    SignaturePieces(text, p, signature);
    FirstAnchor(text, p + 1);
    var start := p + 1 + |SIGNATURE_ANCHOR|;
    FirstQuote(text, start, signature);
    SliceAt(text, start, signature);
    forall q | 0 <= q < p ensures !At(text, q, member) {
      if At(text, q, member) { SignaturePieces(text, q, signature); }
    }
    FindIs(text, member, p);
    SignatureMemberShape(signature);
    CutOut(before, member, after);
  }

  lemma SignatureMemberShape(signature: string)
    ensures "," + SIGNATURE_ANCHOR + signature + "\"" == "," + (SIGNATURE_ANCHOR + signature + "\"")
  {
    Assoc(",", SIGNATURE_ANCHOR, signature);
    Assoc(",", SIGNATURE_ANCHOR + signature, "\"");
  }

  lemma SliceAt(text: string, i: nat, part: string)
    requires At(text, i, part)
    ensures i + |part| <= |text| && text[i..i + |part|] == part
  {
  }

  lemma CutOut(before: string, member: string, after: string)
    ensures var text := before + member + after;
            text[..|before|] + text[|before| + |member|..] == before + after
  {
  }

  lemma FirstQuote(text: string, start: nat, plain: string)
    requires At(text, start, plain) && At(text, start + |plain|, "\"") && QuoteFree(plain)
    ensures Find(text, "\"", start) == Some(start + |plain|)
  {
    forall q | start <= q < start + |plain| ensures !At(text, q, "\"") {
      AtChar(text, start, plain, q - start);
      if At(text, q, "\"") { AtChar(text, q, "\"", 0); }
    }
  }

  // ----- the gates

  lemma SchemaBlockForm()
    ensures Canonical(SchemaBlock()) == SchemaBlock() && PlainKeys(SchemaBlock())
    ensures FirstNamed(SchemaBlock().members, "schema_version") == Some(1)
  {
    SchemaBlockIsCanonical();
    SchemaBlockIsPlain();
    hide *;
    SchemaVersionIsSecond();
  }

  lemma SchemaBlockIsCanonical()
    ensures Canonical(SchemaBlock()) == SchemaBlock()
  {
    hide KeyLess, Less, Sort;
    var a, b: Member := ("format", Str(SCHEMA_FORMAT)), ("schema_version", Int(SCHEMA_VERSION));
    CanonicalOfTwo(a, b);
    FormatFirst();
    SortTwo(a, b);
  }

  lemma FormatFirst()
    ensures KeyLess(["format"], ["schema_version"])
  {
    assert Less("format", "schema_version");
  }

  lemma SchemaBlockIsPlain()
    ensures PlainKeys(SchemaBlock())
  {
    var a, b: Member := ("format", Str(SCHEMA_FORMAT)), ("schema_version", Int(SCHEMA_VERSION));
    assert [a, b][1..] == [b] && [b][1..] == [];
    assert Plain("format") && Plain("schema_version");
  }

  lemma SchemaVersionIsSecond()
    ensures FirstNamed(SchemaBlock().members, "schema_version") == Some(1)
  {
    var a, b: Member := ("format", Str(SCHEMA_FORMAT)), ("schema_version", Int(SCHEMA_VERSION));
    assert "format" != "schema_version";
    assert [a, b][1..] == [b] && [b][1..] == [];
  }

  /** The version gate reads 1 from a signable payload's document. */
  lemma VersionGate(payload: Json, signature: string, verification: Json)
    requires Signable(payload) && PlainKeys(verification)
    requires forall k :: k in {"payload", "signature", "verification"} ==> k !in Names(verification)
    ensures DeclaredSchemaVersion(Flat(Object(TopMembers(Canonical(payload), signature, verification))))
         == Some(SCHEMA_VERSION)
  {
    hide Flat, PlainKeys, PlainKeysMembers, Names, ObjectMember, IntMember, Canonical, Sort, Searchable;
    var canonical := Canonical(payload);
    NamesOfCanonical(payload);
    PlainNamesArePlainKeys(payload);
    PlainNamesArePlainKeys(canonical);
    var top := TopMembers(canonical, signature, verification);
    TopNames(canonical, signature, verification);
    TopLevelKeys();
    CanonicalObject(payload);
    ObjectMemberFindsOnlyName(top, "payload", 0);
    var j: nat :| OnlyName(payload.members, "schema", j) && payload.members[j].1 == SchemaBlock();
    var i := CanonicalOnlyName(payload.members, "schema", j);
    SchemaBlockForm();
    PlainObject(canonical);
    SchemaKey();
    ObjectMemberFindsOnlyName(canonical.members, "schema", i);
    PlainObject(SchemaBlock());
    IntMemberReads(SchemaBlock().members, "schema_version");
  }

  lemma SchemaKey()
    ensures Searchable("schema")
  {
  }

  lemma CanonicalObject(v: Json)
    requires v.Object?
    ensures Canonical(v) == Object(Sort(CanonicalMembers(v.members), MemberKey))
  {
  }

  lemma PlainObject(v: Json)
    requires v.Object? && PlainKeys(v)
    ensures PlainKeysMembers(v.members)
  {
  }

  /** A string of the verification block is read back, whatever order its members are written in. */
  lemma VerificationStringReads(crypto: Crypto, payload: Json, signature: string, key: Bytes, name: string, j: nat,
                                value: string)
    requires crypto.Lawful() && PlainKeys(payload) && Plain(value) && Searchable(name)
    requires forall k :: k in {"payload", "signature", "verification"} ==> k !in Names(payload)
    requires OnlyName(VerificationBlock(crypto, key).members, name, j)
    requires VerificationBlock(crypto, key).members[j].1 == Str(value)
    ensures var document := Flat(Object(TopMembers(payload, signature, Canonical(VerificationBlock(crypto, key)))));
            VerificationMember(document, name) == Some(value)
  {
    hide Flat, PlainKeys, PlainKeysMembers, Names, ObjectMember, StringMember, Canonical, Sort, Searchable, Hex,
         OnlyName, TopMembers, Escape, Plain;
    var block := VerificationBlock(crypto, key);
    var canonical := Canonical(block);
    VerificationNames(crypto, key);
    NamesOfCanonical(block);
    PlainNamesArePlainKeys(block);
    PlainNamesArePlainKeys(canonical);
    TopNames(payload, signature, canonical);
    TopLevelKeys();
    CanonicalObject(block);
    VerificationIsLast(payload, signature, canonical);
    ObjectMemberFindsOnlyName(TopMembers(payload, signature, canonical), "verification", 2);
    PlainObject(canonical);
    var i := CanonicalOnlyName(block.members, name, j);
    StringMemberReads(canonical.members, name);
    CanonicalString(value);
    PlainEscape(value);
  }

  lemma VerificationIsLast(payload: Json, signature: string, verification: Json)
    ensures |TopMembers(payload, signature, verification)| == 3
    ensures TopMembers(payload, signature, verification)[2].1 == verification
  {
  }

  /** The verification block's strings read back, whatever order its members are written in. */
  lemma VerificationGates(crypto: Crypto, payload: Json, signature: string, key: Bytes)
    requires crypto.Lawful() && PlainKeys(payload)
    requires forall k :: k in {"payload", "signature", "verification"} ==> k !in Names(payload)
    ensures var document := Flat(Object(TopMembers(payload, signature, Canonical(VerificationBlock(crypto, key)))));
            DeclaredAlgorithm(document) == Some(ALGORITHM) && EmbeddedPublicKey(document) == Some(Hex(key))
  {
    hide Flat, PlainKeys, PlainKeysMembers, Names, VerificationMember, Canonical, Searchable, Hex, OnlyName, Plain,
         TopMembers;
    VerificationNames(crypto, key);
    HexRoundTrip(key);
    PlainAlgorithm();
    VerificationStringReads(crypto, payload, signature, key, "algorithm", 0, ALGORITHM);
    VerificationStringReads(crypto, payload, signature, key, "public_key", 2, Hex(key));
  }

  lemma PlainAlgorithm()
    ensures Plain(ALGORITHM) && Searchable("algorithm") && Searchable("public_key")
  {
  }

  lemma CanonicalString(s: string)
    ensures Canonical(Str(s)) == Str(s)
  {
  }

  lemma VerificationNames(crypto: Crypto, key: Bytes)
    requires crypto.Lawful()
    ensures var block := VerificationBlock(crypto, key);
            && PlainKeys(block)
            && OnlyName(block.members, "algorithm", 0) && OnlyName(block.members, "public_key", 2)
            && forall k :: k in {"payload", "signature", "verification"} ==> k !in Names(block)
  {
    var block := VerificationBlock(crypto, key);
    var members := block.members;
    assert members[1..] == [members[1], members[2]] && [members[1], members[2]][1..] == [members[2]]
           && [members[2]][1..] == [];
    assert Plain("algorithm") && Plain("key_id") && Plain("public_key");
    assert PlainMember(members[0]) && PlainMember(members[1]) && PlainMember(members[2]);
    assert PlainKeysMembers([members[2]]) && PlainKeysMembers([members[1], members[2]]);
    LeafNames(members);
    assert "algorithm" != "key_id" && "key_id" != "public_key";
  }

  /**
   For every signable payload, key pair and seed: the verifier reconstructs exactly the signed text and the
   signature's hex, both gates read back what was written, the embedded key is the signer's, and the document
   verifies.
   */
  lemma SignedDocumentVerifies(crypto: Crypto, payload: Json, seed: Bytes)
    requires crypto.Lawful() && Signable(payload)
    ensures var document, key := SignDocument(crypto, payload, seed), crypto.publicKey(seed);
            && ReconstructSigned(document)
               == Some((SignedText(crypto, payload, key), SignatureHex(crypto, payload, seed)))
            && DeclaredSchemaVersion(document) == Some(SCHEMA_VERSION)
            && DeclaredAlgorithm(document) == Some(ALGORITHM)
            && EmbeddedPublicKey(document) == Some(Hex(key))
            && DecodeFixed(Hex(key), 32) == Some(key)
            && Verify(crypto, document) == Ok(())
  {
    hide Flat, PlainKeys, Names, Canonical, CanonicalText, Sort, ReconstructSigned, ObjectMember, Hex, FromHex;
    hide VerificationBlock, DeclaredSchemaVersion, DeclaredAlgorithm, EmbeddedPublicKey;
    var key := crypto.publicKey(seed);
    var block := VerificationBlock(crypto, key);
    var signed := SignedText(crypto, payload, key);
    var signature := crypto.sign(seed, crypto.textDigest(signed));
    DocumentIsCanonical(payload, Hex(signature), block);
    VerificationNames(crypto, key);
    NamesOfCanonical(payload);
    NamesOfCanonical(block);
    PlainNamesArePlainKeys(payload);
    PlainNamesArePlainKeys(block);
    PlainNamesArePlainKeys(Canonical(payload));
    PlainNamesArePlainKeys(Canonical(block));
    HexRoundTrip(key);
    HexRoundTrip(signature);
    ReconstructsSigned(Canonical(payload), Hex(signature), Canonical(block));
    VersionGate(payload, Hex(signature), Canonical(block));
    VerificationGates(crypto, Canonical(payload), Hex(signature), key);
  }

  // ----- the exporter's payload

  /** Needs no escape and is not one of the names the verifier searches for in the whole document. */
  predicate Ordinary(k: string) {
    Plain(k) && k != "schema" && k != "payload" && k != "signature" && k != "verification"
  }

  ghost predicate OrdinaryNames(v: Json) {
    forall k :: k in Names(v) ==> Ordinary(k)
  }

  predicate Leaf(v: Json) {
    v.Str? || v.Bool? || v.Int?
  }

  lemma OrdinaryRecord(members: seq<Member>)
    requires forall i :: 0 <= i < |members| ==> Ordinary(members[i].0) && Leaf(members[i].1)
    ensures OrdinaryNames(Object(members))
  {
    LeafNames(members);
  }

  lemma {:induction false} OrdinaryItems(items: seq<Json>)
    requires forall i :: 0 <= i < |items| ==> OrdinaryNames(items[i])
    ensures forall k :: k in NamesOfItems(items) ==> Ordinary(k)
    decreases |items|
  {
    if |items| > 0 {
      forall i | 0 <= i < |items[1..]| ensures OrdinaryNames(items[1..][i]) {
        assert items[1..][i] == items[i + 1];
      }
      OrdinaryItems(items[1..]);
    }
  }

  lemma OrdinaryArray<T>(items: seq<T>, f: T -> Json)
    requires forall x :: x in items ==> OrdinaryNames(f(x))
    ensures OrdinaryNames(Array(JsonEach(items, f)))
  {
    var each := JsonEach(items, f);
    forall i | 0 <= i < |each| ensures OrdinaryNames(each[i]) { assert items[i] in items; }
    OrdinaryItems(each);
  }

  lemma RecordNamesAreOrdinary()
    ensures Ordinary("id") && Ordinary("version") && Ordinary("source_url") && Ordinary("executed_at")
    ensures Ordinary("integrity") && Ordinary("locator") && Ordinary("redaction_status") && Ordinary("type")
    ensures Ordinary("control_id") && Ordinary("rule_id") && Ordinary("status") && Ordinary("framework_id")
    ensures Ordinary("reference") && Ordinary("severity") && Ordinary("score")
    ensures Ordinary("format") && Ordinary("schema_version")
  {
    hide Ordinary;
    RecordNamesA();
    RecordNamesB();
    RecordNamesC();
  }

  lemma RecordNamesA()
    ensures Ordinary("id") && Ordinary("version") && Ordinary("source_url") && Ordinary("executed_at")
    ensures Ordinary("integrity") && Ordinary("locator")
  {
  }

  lemma RecordNamesB()
    ensures Ordinary("redaction_status") && Ordinary("type") && Ordinary("control_id") && Ordinary("rule_id")
    ensures Ordinary("status") && Ordinary("framework_id")
  {
  }

  lemma RecordNamesC()
    ensures Ordinary("reference") && Ordinary("severity") && Ordinary("score") && Ordinary("format")
    ensures Ordinary("schema_version")
  {
  }

  lemma SectionNamesAreOrdinary()
    ensures Ordinary("control") && Ordinary("environment") && Ordinary("framework") && Ordinary("incomplete")
    ensures Ordinary("scan") && Ordinary("frameworks") && Ordinary("controls") && Ordinary("results")
    ensures Ordinary("gaps") && Ordinary("evidence") && Ordinary("scores")
  {
  }

  lemma CatalogNames(corpus: Corpus)
    ensures OrdinaryNames(Array(JsonEach(corpus.frameworks, FrameworkRecord)))
    ensures OrdinaryNames(Array(JsonEach(corpus.controls, IdRecord)))
    ensures OrdinaryNames(Array(JsonEach(corpus.evidence, EvidenceMember)))
  {
    hide Ordinary, OrdinaryNames;
    RecordNamesAreOrdinary();
    forall x: Framework ensures OrdinaryNames(FrameworkRecord(x)) { OrdinaryRecord(FrameworkRecord(x).members); }
    forall x: Control ensures OrdinaryNames(IdRecord(x)) { OrdinaryRecord(IdRecord(x).members); }
    forall x: Evidence ensures OrdinaryNames(EvidenceMember(x)) { OrdinaryRecord(EvidenceMember(x).members); }
    OrdinaryArray(corpus.frameworks, FrameworkRecord);
    OrdinaryArray(corpus.controls, IdRecord);
    OrdinaryArray(corpus.evidence, EvidenceMember);
  }

  lemma OutcomeNames(results: seq<ScopedResult>, gaps: seq<(string, ControlResult)>, corpus: Corpus)
    ensures OrdinaryNames(Array(JsonEach(results, ResultMember)))
    ensures OrdinaryNames(Array(JsonEach(gaps, g => GapMember(g, corpus.controls, corpus.frameworks))))
  {
    hide Ordinary, OrdinaryNames;
    RecordNamesAreOrdinary();
    forall x: ScopedResult ensures OrdinaryNames(ResultMember(x)) { OrdinaryRecord(ResultMember(x).members); }
    var gapMember := g => GapMember(g, corpus.controls, corpus.frameworks);
    forall x: (string, ControlResult) ensures OrdinaryNames(gapMember(x)) {
      OrdinaryRecord(gapMember(x).members);
    }
    OrdinaryArray(results, ResultMember);
    OrdinaryArray(gaps, gapMember);
  }

  lemma ScoreNames(score: EnvironmentScore)
    ensures OrdinaryNames(ScoresObject(score))
  {
    hide Ordinary, OrdinaryNames, Names;
    RecordNamesAreOrdinary();
    SectionNamesAreOrdinary();
    forall x: ControlScore ensures OrdinaryNames(ControlScoreRecord(x)) {
      OrdinaryRecord(ControlScoreRecord(x).members);
    }
    forall x: FrameworkScore ensures OrdinaryNames(FrameworkScoreRecord(x)) {
      OrdinaryRecord(FrameworkScoreRecord(x).members);
    }
    OrdinaryArray(Sort(AllControlScores(score.frameworks), ControlScoreKey), ControlScoreRecord);
    OrdinaryArray(Sort(score.frameworks, FrameworkScoreKey), FrameworkScoreRecord);
    var members := ScoresObject(score).members;
    OrdinaryLeaf(members[1].1);
    OrdinaryLeaf(members[3].1);
    OrdinaryObject(members);
  }

  lemma OrdinaryLeaf(v: Json)
    requires Leaf(v)
    ensures OrdinaryNames(v)
  {
  }

  lemma OrdinaryObject(members: seq<Member>)
    requires forall i :: 0 <= i < |members| ==> Ordinary(members[i].0) && OrdinaryNames(members[i].1)
    ensures OrdinaryNames(Object(members))
  {
    forall k | k in Names(Object(members)) ensures Ordinary(k) { NameInMembers(members, k); }
  }

  ghost predicate OrdinaryMember(m: Member) {
    Ordinary(m.0) && OrdinaryNames(m.1)
  }

  lemma SevenSections(head: Member, a: Member, b: Member, c: Member, d: Member, e: Member, f: Member, g: Member)
    requires OrdinaryMember(a) && OrdinaryMember(b) && OrdinaryMember(c) && OrdinaryMember(d)
    requires OrdinaryMember(e) && OrdinaryMember(f) && OrdinaryMember(g)
    ensures forall i :: 1 <= i < 8 ==> OrdinaryMember([head, a, b, c, d, e, f, g][i])
  {
    hide OrdinaryMember;
  }

  /** Every section but the schema block has ordinary names only. */
  lemma SectionsAreOrdinary(corpus: Corpus, score: EnvironmentScore)
    ensures forall i :: 1 <= i < 8 ==> OrdinaryMember(PayloadMembers(corpus, score)[i])
  {
    hide Ordinary, OrdinaryNames, Names, ScoresObject, SchemaBlock, JsonEach, OrderedScopedResults, ExportedGaps;
    SectionNamesAreOrdinary();
    CatalogNames(corpus);
    OutcomeNames(OrderedScopedResults(corpus.results), ExportedGaps(corpus.results), corpus);
    ScoreNames(score);
    ScanIsOrdinary(corpus);
    var members := PayloadMembers(corpus, score);
    SevenSections(members[0], members[1], members[2], members[3], members[4], members[5], members[6], members[7]);
    assert members == [members[0], members[1], members[2], members[3], members[4], members[5], members[6], members[7]];
  }

  lemma ScanIsOrdinary(corpus: Corpus)
    ensures OrdinaryNames(Object([("executed_at", Str(corpus.executedAt)), ("id", Str(corpus.runId))]))
  {
    hide Ordinary, OrdinaryNames, Names;
    RecordNamesAreOrdinary();
    OrdinaryRecord([("executed_at", Str(corpus.executedAt)), ("id", Str(corpus.runId))]);
  }

  /** Every corpus gives a signable payload. */
  lemma PayloadIsSignable(corpus: Corpus, score: EnvironmentScore)
    ensures Signable(Payload(corpus, score))
  {
    hide OrdinaryMember, OrdinaryNames, Names, ScoresObject, SchemaBlock, Signable, Plain, JsonEach,
         OrderedScopedResults, ExportedGaps;
    SectionsAreOrdinary(corpus, score);
    SchemaIsOrdinary();
    SignableFromSections(PayloadMembers(corpus, score));
  }

  lemma SchemaIsOrdinary()
    ensures OrdinaryNames(SchemaBlock()) && Plain("schema")
  {
    hide Ordinary, OrdinaryNames, Names;
    RecordNamesAreOrdinary();
    OrdinaryRecord(SchemaBlock().members);
    SchemaKey();
  }

  lemma SignableFromSections(members: seq<Member>)
    requires |members| > 0 && members[0] == ("schema", SchemaBlock())
    requires OrdinaryNames(SchemaBlock()) && Plain("schema")
    requires forall i :: 1 <= i < |members| ==> OrdinaryMember(members[i])
    ensures Signable(Object(members))
  {
    hide PlainKeys;
    var payload := Object(members);
    forall k | k in Names(payload) ensures k == "schema" || Ordinary(k) { NameInMembers(members, k); }
    assert PlainNames(Names(payload));
    PlainNamesArePlainKeys(payload);
    forall j | 1 <= j < |members| ensures "schema" !in NamesOfMember(members[j]) {
      assert !Ordinary("schema");
    }
    assert OnlyName(members, "schema", 0);
  }

  /**
   Verification undoes export. For every corpus, score and signing seed, whatever text the payload's strings
   contain: the verifier takes the signature member out and is left with exactly the signed text, it reads back
   schema version 1, the algorithm and the signer's public key, and it accepts the document.
   */
  lemma ExportVerifies(crypto: Crypto, corpus: Corpus, score: EnvironmentScore, seed: Bytes)
    requires crypto.Lawful()
    ensures var document, key := Export(crypto, corpus, score, seed), crypto.publicKey(seed);
            var payload := Payload(corpus, score);
            && ReconstructSigned(document)
               == Some((SignedText(crypto, payload, key), SignatureHex(crypto, payload, seed)))
            && DeclaredSchemaVersion(document) == Some(SCHEMA_VERSION)
            && DeclaredAlgorithm(document) == Some(ALGORITHM)
            && EmbeddedPublicKey(document) == Some(Hex(key))
            && DecodeFixed(Hex(key), 32) == Some(key)
            && Verify(crypto, document) == Ok(())
  {
    PayloadIsSignable(corpus, score);
    SignedDocumentVerifies(crypto, Payload(corpus, score), seed);
  }
}

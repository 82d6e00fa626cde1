/**
 What the verifier's cut takes out of a document: which texts leave a given text, and which trees leave a given
 tree, when the first signature member is cut out.
 */
module SignatureRemoval {
  import opened Wrappers
  import opened Texts
  import opened CanonicalJson
  import opened CanonicalLexing
  import opened CanonicalForm
  import opened SignedExport
  import opened ExportTheorems
  import opened VerifyExport

  // ----- texts

  /** `y` is `x` with `part` put in at `p`. */
  predicate Spliced(x: string, y: string, part: string, p: int) {
    0 <= p <= |x| && y == x[..p] + part + x[p..]
  }

  /** A signature member as it stands in a text, with the comma before it. */
  function SignatureMember(signature: string): string {
    "," + (SIGNATURE_ANCHOR + signature + "\"")
  }

  /** The characters `"signature":` stand nowhere in a text. */
  ghost predicate Unsigned(a: string) {
    forall q :: !At(a, q, NameOf("signature"))
  }

  lemma SignatureName()
    ensures NameOf("signature") == "\"signature\":" && SIGNATURE_ANCHOR == NameOf("signature") + "\""
    ensures forall i :: 0 <= i < |NameOf("signature")| ==> NameOf("signature")[i] != ','
  {
    assert NameOf("signature") == "\"signature\":";
  }

  lemma SplicedAt(x: string, y: string, part: string, p: int, q: int, k: string)
    requires Spliced(x, y, part, p) && At(y, q, k)
    ensures q + |k| <= p ==> At(x, q, k)
    ensures q >= p + |part| ==> At(x, q - |part|, k)
  {
    if q + |k| <= p {
      assert y[q..q + |k|] == x[q..q + |k|];
    }
    if q >= p + |part| {
      assert y[q..q + |k|] == x[q - |part|..q - |part| + |k|];
    }
  }

  lemma SplicedPart(x: string, y: string, part: string, p: int)
    requires Spliced(x, y, part, p)
    ensures At(y, p, part) && |y| == |x| + |part| && y[..p] == x[..p] && y[p + |part|..] == x[p..]
  {
    AtInside(x[..p], part, x[p..]);
  }

  /** In a text without signature names, the one put in is the first. */
  lemma FirstName(a: string, document: string, signature: string, p: int, q: int)
    requires Spliced(a, document, SignatureMember(signature), p) && Unsigned(a) && q <= p
    ensures !At(document, q, NameOf("signature"))
  {
    hide Spliced, At, NameOf;
    SignatureName();
    if At(document, q, NameOf("signature")) {
      SplicedAt(a, document, SignatureMember(signature), p, q, NameOf("signature"));
      SplicedPart(a, document, SignatureMember(signature), p);
      AtChar(document, p, SignatureMember(signature), 0);
      AtChar(document, q, NameOf("signature"), p - q);
    }
  }

  lemma SplicedNames(a: string, document: string, signature: string, p: int)
    requires Spliced(a, document, SignatureMember(signature), p)
    ensures At(document, p + 1, NameOf("signature")) && At(document, p + 1, SIGNATURE_ANCHOR)
    ensures 0 <= p < |document| && document[p] == ','
  {
    hide Spliced, At, NameOf;
    SignatureName();
    SplicedPart(a, document, SignatureMember(signature), p);
    SignaturePieces(document, p, signature);
    AtChar(document, p, SignatureMember(signature), 0);
  }

  /** There is only one place to put it. */
  lemma OnePlace(a: string, document: string, signature: string, p: int, q: int)
    requires Unsigned(a)
    requires Spliced(a, document, SignatureMember(signature), p) && Spliced(a, document, SignatureMember(signature), q)
    ensures p == q
  {
    hide Spliced, At, Unsigned, SignatureMember;
    SplicedNames(a, document, signature, p);
    SplicedNames(a, document, signature, q);
    if p < q { FirstName(a, document, signature, q, p + 1); }
    if q < p { FirstName(a, document, signature, p, q + 1); }
  }

  /** What is found is quote-free, and what is left is the document without one copy of the member. */
  lemma CutLeaves(document: string)
    requires ReconstructSigned(document).Some?
    ensures var (a, signature) := ReconstructSigned(document).value;
            QuoteFree(signature)
            && (Unsigned(a) ==> exists p :: Spliced(a, document, SignatureMember(signature), p))
  {
    hide At, NameOf, Find, Spliced;
    var p := Find(document, SIGNATURE_ANCHOR, 0).value;
    var start := p + |SIGNATURE_ANCHOR|;
    var end := Find(document, "\"", start).value;
    SliceAt(document, end, "\"");
    var signature := document[start..end];
    forall i | 0 <= i < |signature| ensures signature[i] != '"' { OneCharAt(document, start + i); }
    SignatureMemberShape(signature);
    SignatureName();
    match Find(document, SignatureMember(signature), 0)
    case None => AtConcat(document, p, NameOf("signature"), "\"");
    case Some(q) => PutBack(document, SignatureMember(signature), q);
  }

  lemma OneCharAt(text: string, q: nat)
    requires q < |text|
    ensures At(text, q, "\"") <==> text[q] == '"'
  {
  }

  lemma PutBack(document: string, part: string, q: nat)
    requires At(document, q, part)
    ensures Spliced(document[..q] + document[q + |part|..], document, part, q)
  {
    var a := document[..q] + document[q + |part|..];
    assert a[..q] == document[..q] && a[q..] == document[q + |part|..];
    assert document == document[..q] + document[q..q + |part|] + document[q + |part|..];
  }

  /**
   The cut, exactly: it leaves a text without signature names, with a given signature, from exactly the documents that
   are this text with the signature member put in at some place.
   */
  lemma ReconstructsExactly(a: string, signature: string, document: string)
    requires Unsigned(a)
    ensures ReconstructSigned(document) == Some((a, signature))
       <==> QuoteFree(signature) && exists p :: Spliced(a, document, SignatureMember(signature), p)
  {
    hide ReconstructSigned, At, NameOf, Unsigned, QuoteFree;
    if ReconstructSigned(document) == Some((a, signature)) { CutLeaves(document); }
    if p :| QuoteFree(signature) && Spliced(a, document, SignatureMember(signature), p) {
      SignatureName();
      forall q | 0 <= q < p + 1 ensures !At(document, q, NameOf("signature")) {
        FirstName(a, document, signature, p, q);
      }
      assert |a[..p]| == p;
      CutsSignature(a[..p], a[p..], signature);
      assert a[..p] + a[p..] == a;
    }
  }

  // ----- trees

  /** `w` is `v` with the member `m` put in behind some member of one of its objects. */
  ghost predicate Inserted(v: Json, w: Json, m: Member)
    decreases v, 0
  {
    match (v, w)
    case (Array(a), Array(b)) => InsertedItems(a, b, m)
    case (Object(a), Object(b)) => InsertedMembers(a, b, "", m)
    case _ => false
  }

  ghost predicate InsertedItems(a: seq<Json>, b: seq<Json>, m: Member)
    decreases a, 0
  {
    |a| > 0 && |b| > 0
    && ((Inserted(a[0], b[0], m) && a[1..] == b[1..]) || (a[0] == b[0] && InsertedItems(a[1..], b[1..], m)))
  }

  /** With the lead of a later member, `m` may also stand first. */
  ghost predicate InsertedMembers(a: seq<Member>, b: seq<Member>, lead: string, m: Member)
    decreases a, 0
  {
    || (lead == "," && b == [m] + a)
    || (|a| > 0 && |b| > 0
        && ((InsertedMember(a[0], b[0], m) && a[1..] == b[1..])
            || (a[0] == b[0] && InsertedMembers(a[1..], b[1..], ",", m))))
  }

  ghost predicate InsertedMember(x: Member, y: Member, m: Member)
    decreases x, 1
  {
    x.0 == y.0 && Inserted(x.1, y.1, m)
  }

  // ----- a member put into a tree is put into its text

  function MemberPart(m: Member): string {
    "," + FlatMember(m)
  }

  lemma SplicedInside(before: string, x: string, after: string, y: string, part: string, p: int)
    requires Spliced(x, y, part, p)
    ensures Spliced(before + (x + after), before + (y + after), part, |before| + p)
  {
    var all := before + (x + after);
    assert all[..|before| + p] == before + x[..p] && all[|before| + p..] == x[p..] + after;
    assert before + (y + after) == (before + x[..p]) + part + (x[p..] + after);
  }

  lemma {:induction false} InsertedText(v: Json, w: Json, m: Member) returns (p: int)
    requires Inserted(v, w, m)
    ensures Spliced(Flat(v), Flat(w), MemberPart(m), p)
    decreases v, 0
  {
    hide Spliced, MemberPart, FlatItems, FlatMembers, InsertedItems, InsertedMembers;
    match v
    case Array(a) =>
      var b := w.items;
      p := InsertedInItems(a, b, "", m);
      SplicedInside("[", FlatItems(a, ""), "]", FlatItems(b, ""), MemberPart(m), p);
      p := 1 + p;
    case Object(a) =>
      var b := w.members;
      p := InsertedInMembers(a, b, "", m);
      SplicedInside("{", FlatMembers(a, ""), "}", FlatMembers(b, ""), MemberPart(m), p);
      p := 1 + p;
  }

  lemma {:induction false} InsertedInItems(a: seq<Json>, b: seq<Json>, lead: string, m: Member) returns (p: int)
    requires InsertedItems(a, b, m)
    ensures Spliced(FlatItems(a, lead), FlatItems(b, lead), MemberPart(m), p)
    decreases a, 0
  {
    hide Spliced, MemberPart, Flat, Inserted;
    var part := MemberPart(m);
    if Inserted(a[0], b[0], m) && a[1..] == b[1..] {
      p := InsertedText(a[0], b[0], m);
      SplicedInside(lead, Flat(a[0]), FlatItems(a[1..], ","), Flat(b[0]), part, p);
      p := |lead| + p;
    } else {
      p := InsertedInItems(a[1..], b[1..], ",", m);
      SplicedBehind(lead, Flat(a[0]), FlatItems(a[1..], ","), FlatItems(b[1..], ","), part, p);
      p := |lead| + |Flat(a[0])| + p;
    }
  }

  lemma SplicedBehind(lead: string, first: string, x: string, y: string, part: string, p: int)
    requires Spliced(x, y, part, p)
    ensures Spliced(lead + (first + x), lead + (first + y), part, |lead| + |first| + p)
  {
    SplicedInside(lead + first, x, "", y, part, p);
    assert x + "" == x && y + "" == y;
    Assoc(lead, first, x);
    Assoc(lead, first, y);
  }

  lemma {:induction false} InsertedInMembers(a: seq<Member>, b: seq<Member>, lead: string, m: Member) returns (p: int)
    requires InsertedMembers(a, b, lead, m)
    ensures Spliced(FlatMembers(a, lead), FlatMembers(b, lead), MemberPart(m), p)
    decreases a, 0
  {
    hide Spliced, MemberPart, FlatMember, InsertedMember;
    var part := MemberPart(m);
    if lead == "," && b == [m] + a {
      p := 0;
      InsertedFirst(a, m);
    } else if InsertedMember(a[0], b[0], m) && a[1..] == b[1..] {
      p := InsertedInMember(a[0], b[0], m);
      SplicedInside(lead, FlatMember(a[0]), FlatMembers(a[1..], ","), FlatMember(b[0]), part, p);
      p := |lead| + p;
    } else {
      p := InsertedInMembers(a[1..], b[1..], ",", m);
      SplicedBehind(lead, FlatMember(a[0]), FlatMembers(a[1..], ","), FlatMembers(b[1..], ","), part, p);
      p := |lead| + |FlatMember(a[0])| + p;
    }
  }

  lemma InsertedFirst(a: seq<Member>, m: Member)
    ensures Spliced(FlatMembers(a, ","), FlatMembers([m] + a, ","), MemberPart(m), 0)
  {
    hide FlatMember;
    assert ([m] + a)[1..] == a;
    var text := FlatMembers(a, ",");
    Assoc(",", FlatMember(m), text);
    assert text[..0] == "" && text[0..] == text && "" + MemberPart(m) == MemberPart(m);
  }

  lemma {:induction false} InsertedInMember(x: Member, y: Member, m: Member) returns (p: int)
    requires InsertedMember(x, y, m)
    ensures Spliced(FlatMember(x), FlatMember(y), MemberPart(m), p)
    decreases x, 1
  {
    hide Spliced, MemberPart, Flat, Quote, Inserted;
    p := InsertedText(x.1, y.1, m);
    SplicedBehind(Quote(x.0), ":", Flat(x.1), Flat(y.1), MemberPart(m), p);
    p := |Quote(x.0)| + 1 + p;
  }

  // ----- a member that starts behind a comma can be taken out

  lemma {:induction false} TakenOut(text: string, i: int, w: Json, k: string, q: int) returns (v: Json, m: Member)
    requires At(text, i, Flat(w)) && MemberAt(w, k, q) && 0 <= i + q - 1 < |text| && text[i + q - 1] == ','
    ensures Inserted(v, w, m) && m.0 == k && Spliced(Flat(v), Flat(w), MemberPart(m), q - 1)
    decreases w, 0
  {
    hide At, Ends, Spliced, MemberPart, FlatItems, FlatMembers, MemberAtItems, MemberAtMembers, InsertedItems,
         InsertedMembers;
    match w
    case Array(b) =>
      Bracketed(text, i, "[", FlatItems(b, ""), "]");
      var a;
      a, m := TakenFromItems(text, i + 1, b, "", k, q - 1);
      v := Array(a);
      SplicedInside("[", FlatItems(a, ""), "]", FlatItems(b, ""), MemberPart(m), q - 2);
    case Object(b) =>
      Bracketed(text, i, "{", FlatMembers(b, ""), "}");
      StartsInside(text, i, Flat(w));
      var a;
      a, m := TakenFromMembers(text, i + 1, b, "", k, q - 1);
      v := Object(a);
      SplicedInside("{", FlatMembers(a, ""), "}", FlatMembers(b, ""), MemberPart(m), q - 2);
  }

  lemma {:induction false} TakenFromItems(text: string, i: int, b: seq<Json>, lead: string, k: string, q: int)
    returns (a: seq<Json>, m: Member)
    requires At(text, i, FlatItems(b, lead)) && MemberAtItems(b, lead, k, q)
    requires 0 <= i + q - 1 < |text| && text[i + q - 1] == ','
    ensures InsertedItems(a, b, m) && m.0 == k
    ensures Spliced(FlatItems(a, lead), FlatItems(b, lead), MemberPart(m), q - 1)
    decreases b, 0
  {
    hide At, Ends, Spliced, MemberPart, Flat, MemberAt, Inserted;
    ItemsSplit(text, i, b, lead);
    if MemberAt(b[0], k, q - |lead|) {
      var x;
      x, m := TakenOut(text, i + |lead|, b[0], k, q - |lead|);
      a := [x] + b[1..];
      assert a[1..] == b[1..];
      SplicedInside(lead, Flat(x), FlatItems(b[1..], ","), Flat(b[0]), MemberPart(m), q - |lead| - 1);
    } else {
      var n := |lead| + |Flat(b[0])|;
      var more;
      more, m := TakenFromItems(text, i + n, b[1..], ",", k, q - n);
      a := [b[0]] + more;
      assert a[1..] == more;
      SplicedBehind(lead, Flat(b[0]), FlatItems(more, ","), FlatItems(b[1..], ","), MemberPart(m), q - n - 1);
    }
  }

  lemma {:induction false} TakenFromMembers(text: string, i: int, b: seq<Member>, lead: string, k: string, q: int)
    returns (a: seq<Member>, m: Member)
    requires At(text, i, FlatMembers(b, lead)) && MemberAtMembers(b, lead, k, q)
    requires lead == "," || (lead == "" && 0 < i <= |text| && text[i - 1] == '{')
    requires 0 <= i + q - 1 < |text| && text[i + q - 1] == ','
    ensures InsertedMembers(a, b, lead, m) && m.0 == k
    ensures Spliced(FlatMembers(a, lead), FlatMembers(b, lead), MemberPart(m), q - 1)
    decreases b, 0
  {
    hide At, Ends, Spliced, MemberPart, FlatMember, MemberStart, InsertedMember;
    MembersSplit(text, i, b, lead);
    if q == |lead| && b[0].0 == k {
      a, m := b[1..], b[0];
      assert b == [m] + a;
      InsertedFirst(a, m);
    } else if MemberStart(b[0], k, q - |lead|) {
      var x;
      x, m := TakenFromMember(text, i + |lead|, b[0], k, q - |lead|);
      a := [x] + b[1..];
      assert a[1..] == b[1..];
      SplicedInside(lead, FlatMember(x), FlatMembers(b[1..], ","), FlatMember(b[0]), MemberPart(m), q - |lead| - 1);
    } else {
      var n := |lead| + |FlatMember(b[0])|;
      var more;
      more, m := TakenFromMembers(text, i + n, b[1..], ",", k, q - n);
      a := [b[0]] + more;
      assert a[1..] == more;
      SplicedBehind(lead, FlatMember(b[0]), FlatMembers(more, ","), FlatMembers(b[1..], ","), MemberPart(m), q - n - 1);
    }
  }

  lemma {:induction false} TakenFromMember(text: string, i: int, y: Member, k: string, q: int)
    returns (x: Member, m: Member)
    requires At(text, i, FlatMember(y)) && MemberStart(y, k, q) && !(q == 0 && y.0 == k)
    requires 0 <= i + q - 1 < |text| && text[i + q - 1] == ','
    ensures InsertedMember(x, y, m) && m.0 == k && Spliced(FlatMember(x), FlatMember(y), MemberPart(m), q - 1)
    decreases y, 1
  {
    hide At, Spliced, MemberPart, Flat, Quote, MemberAt, Inserted;
    MemberSplit(text, i, y);
    var n := |Quote(y.0)| + 1;
    var v;
    v, m := TakenOut(text, i + n, y.1, k, q - n);
    x := (y.0, v);
    SplicedBehind(Quote(y.0), ":", Flat(v), Flat(y.1), MemberPart(m), q - n - 1);
  }

  // ----- the cut on trees

  lemma UnsignedTree(v: Json)
    requires "signature" !in Names(v) && Unambiguous(Names(v), "signature")
    ensures Unsigned(Flat(v))
  {
    hide Flat, Names, At, NameOf, MemberAt;
    TopLevelKeys();
    forall q ensures !At(Flat(v), q, NameOf("signature")) {
      NameStandsExactlyAtMembers(v, "signature", q);
      if MemberAt(v, "signature", q) { MemberIsNamed(v, "signature", q); }
    }
  }

  lemma SignaturePart(signature: string)
    requires Plain(signature)
    ensures MemberPart(("signature", Str(signature))) == SignatureMember(signature)
    ensures forall i :: 0 <= i < |SignatureMember(signature)| ==> SignatureMember(signature)[i] != '\\'
  {
    hide FlatMember;
    SignatureMemberText(signature);
    forall i | 0 <= i < |signature| ensures signature[i] != '\\' { assert PlainChar(signature[i]); }
  }

  lemma InsidePart(document: string, signature: string, p: int, j: int)
    requires At(document, p, SignatureMember(signature)) && Plain(signature)
    requires p <= j < p + |SignatureMember(signature)|
    ensures 0 <= j < |document| && document[j] != '\\'
  {
    hide At, Plain, SignatureMember;
    SignaturePart(signature);
    AtChar(document, p, SignatureMember(signature), j - p);
  }

  /** No escaped quote comes before a signature name. */
  lemma NotEscaped(a: string, document: string, signature: string, p: int, q: int)
    requires Spliced(a, document, SignatureMember(signature), p) && Unsigned(a) && Plain(signature)
    requires 0 < q && At(document, q, NameOf("signature"))
    ensures q <= |document| && document[q - 1] != '\\'
  {
    hide Spliced, At, NameOf, Plain, SignatureMember;
    var part := SignatureMember(signature);
    SplicedPart(a, document, part, p);
    SignatureName();
    AtChar(document, q, NameOf("signature"), 0);
    if q <= p {
      FirstName(a, document, signature, p, q);
    } else if q - 1 < p + |part| {
      InsidePart(document, signature, p, q - 1);
    } else {
      SplicedAt(a, document, part, p, q, NameOf("signature"));
    }
  }

  lemma NamesUnambiguous(a: string, w: Json, signature: string, p: int)
    requires Spliced(a, Flat(w), SignatureMember(signature), p) && Unsigned(a) && Plain(signature)
    ensures Unambiguous(Names(w), "signature")
  {
    hide Spliced, Flat, NameOf, Names, EndsQuoted, SignatureMember, Unsigned, Searchable;
    TopLevelKeys();
    SearchableIsPlain("signature");
    forall n | n in Names(w) ensures !EndsQuoted(n, "signature") {
      if EndsQuoted(n, "signature") {
        assert At(Flat(w), 0, Flat(w));
        var q := QuotedNameStands(Flat(w), 0, w, "signature", n);
        NotEscaped(a, Flat(w), signature, p, q);
      }
    }
  }

  lemma SearchableIsPlain(k: string)
    requires Searchable(k)
    ensures Plain(k)
  {
  }

  lemma SameSignature(text: string, i: int, m: Member, signature: string)
    requires At(text, i, FlatMember(m)) && m.0 == "signature"
    requires At(text, i, FlatMember(("signature", Str(signature))))
    ensures m == ("signature", Str(signature))
  {
    hide At, Flat, Quote;
    MemberSplit(text, i, m);
    MemberSplit(text, i, ("signature", Str(signature)));
    var j := i + |Quote("signature")| + 1;
    FirstChar(m.1);
    FirstChar(Str(signature));
    AtChar(text, j, Flat(m.1), 0);
    AtChar(text, j, Flat(Str(signature)), 0);
    StringTexts(text, j, m.1.text, signature);
  }

  lemma StringTexts(text: string, j: int, s: string, t: string)
    requires At(text, j, Flat(Str(s))) && At(text, j, Flat(Str(t)))
    ensures s == t
  {
    hide At, Quote;
    QuotedTextDetermines(text, j, s, t);
  }

  lemma SameText(v: Json, w: Json)
    requires Flat(v) == Flat(w)
    ensures v == w
  {
    hide Flat;
    assert At(Flat(v), 0, Flat(v)) && Ends(Flat(v), |Flat(v)|);
    TextDetermines(Flat(v), 0, v, w);
  }

  /** A tree whose text is that of another with the signature member put in is that other with the member put in. */
  lemma SplicedTree(v: Json, w: Json, signature: string, p: int)
    requires Spliced(Flat(v), Flat(w), SignatureMember(signature), p) && Unsigned(Flat(v)) && Plain(signature)
    ensures Inserted(v, w, ("signature", Str(signature)))
  {
    hide Spliced, Flat, FlatMember, At, NameOf, Names, Inserted, MemberAt, Unambiguous, Unsigned, Plain, Searchable,
         SignatureMember;
    var text, m: Member := Flat(w), ("signature", Str(signature));
    SplicedNames(Flat(v), text, signature, p);
    NamesUnambiguous(Flat(v), w, signature, p);
    TopLevelKeys();
    NameStandsExactlyAtMembers(w, "signature", p + 1);
    WholeText(w);
    SplicedPart(Flat(v), text, SignatureMember(signature), p);
    var x, n := TakenOut(text, 0, w, "signature", p + 1);
    SplicedPart(Flat(x), text, MemberPart(n), p);
    SignaturePart(signature);
    AtConcat(text, p, ",", FlatMember(n));
    AtConcat(text, p, ",", FlatMember(m));
    SameSignature(text, p + 1, n, signature);
    SameBefore(Flat(v), Flat(x), text, MemberPart(m), p);
    SameText(v, x);
  }

  lemma WholeText(w: Json)
    ensures At(Flat(w), 0, Flat(w))
  {
    hide Flat;
  }

  lemma SameBefore(x: string, y: string, z: string, part: string, p: int)
    requires Spliced(x, z, part, p) && Spliced(y, z, part, p)
    ensures x == y
  {
    SplicedPart(x, z, part, p);
    SplicedPart(y, z, part, p);
    assert x == x[..p] + x[p..] && y == y[..p] + y[p..];
  }

  /**
   The cut on compact JSON, exactly: it leaves the text of a tree without signature names from exactly the trees that
   are this tree with the signature member put in behind some member of some object, at any depth.
   */
  lemma CutsTreeExactly(v: Json, w: Json, signature: string)
    requires Unsigned(Flat(v)) && Plain(signature)
    ensures ReconstructSigned(Flat(w)) == Some((Flat(v), signature))
       <==> Inserted(v, w, ("signature", Str(signature)))
  {
    hide Spliced, Flat, ReconstructSigned, Inserted, Unsigned, Plain, QuoteFree, SignatureMember, MemberPart;
    ReconstructsExactly(Flat(v), signature, Flat(w));
    PlainIsQuoteFree(signature);
    SignaturePart(signature);
    if p :| Spliced(Flat(v), Flat(w), SignatureMember(signature), p) { SplicedTree(v, w, signature, p); }
    if Inserted(v, w, ("signature", Str(signature))) {
      var p := InsertedText(v, w, ("signature", Str(signature)));
      assert Spliced(Flat(v), Flat(w), SignatureMember(signature), p);
    }
  }
}

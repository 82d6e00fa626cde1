/**
 What the verifier accepts under an export's signature: exactly the signed text with the signature member put in at
 any place where the gates still read. Put in between the two top-level members or behind them, the document says what
 was signed; put in deeper, it says something else and is accepted all the same.
 */
module AcceptedDocuments {
  import opened Wrappers
  import opened Ordering
  import Corpora
  import opened CanonicalJson
  import opened Scanners
  import opened CanonicalLexing
  import opened CanonicalForm
  import opened SignedExport
  import opened ExportTheorems
  import opened VerifyExport
  import opened SignatureRemoval
  import opened AlteredExports

  // ----- what a member put into a tree keeps

  lemma {:induction false} InsertedNames(v: Json, w: Json, m: Member)
    requires Inserted(v, w, m)
    ensures Names(w) == Names(v) + NamesOfMember(m)
    decreases v, 0
  {
    hide NamesOfMember;
    match v
    case Array(a) => InsertedNamesOfItems(a, w.items, m);
    case Object(a) => InsertedNamesOfMembers(a, w.members, "", m);
  }

  lemma {:induction false} InsertedNamesOfItems(a: seq<Json>, b: seq<Json>, m: Member)
    requires InsertedItems(a, b, m)
    ensures NamesOfItems(b) == NamesOfItems(a) + NamesOfMember(m)
    decreases a, 0
  {
    hide Names, NamesOfMember, Inserted;
    if Inserted(a[0], b[0], m) && a[1..] == b[1..] {
      InsertedNames(a[0], b[0], m);
    } else {
      InsertedNamesOfItems(a[1..], b[1..], m);
    }
  }

  lemma {:induction false} InsertedNamesOfMembers(a: seq<Member>, b: seq<Member>, lead: string, m: Member)
    requires InsertedMembers(a, b, lead, m)
    ensures NamesOfMembers(b) == NamesOfMembers(a) + NamesOfMember(m)
    decreases a, 0
  {
    hide NamesOfMember, InsertedMember;
    if lead == "," && b == [m] + a {
      assert b[0] == m && b[1..] == a;
    } else if InsertedMember(a[0], b[0], m) && a[1..] == b[1..] {
      InsertedNamesOfMember(a[0], b[0], m);
    } else {
      InsertedNamesOfMembers(a[1..], b[1..], ",", m);
    }
  }

  lemma {:induction false} InsertedNamesOfMember(x: Member, y: Member, m: Member)
    requires InsertedMember(x, y, m)
    ensures NamesOfMember(y) == NamesOfMember(x) + NamesOfMember(m)
    decreases x, 1
  {
    hide Names, Inserted;
    InsertedNames(x.1, y.1, m);
    assert {x.0} + (Names(x.1) + NamesOfMember(m)) == ({x.0} + Names(x.1)) + NamesOfMember(m);
  }

  /** `w` is `v`, or `v` with `m` put in. */
  ghost predicate Grown(v: Json, w: Json, m: Member) {
    v == w || Inserted(v, w, m)
  }

  ghost predicate GrownMember(x: Member, y: Member, m: Member) {
    x.0 == y.0 && Grown(x.1, y.1, m)
  }

  lemma GrownNames(x: Member, y: Member, m: Member)
    requires GrownMember(x, y, m)
    ensures NamesOfMember(y) <= NamesOfMember(x) + NamesOfMember(m)
    ensures Names(y.1) <= Names(x.1) + NamesOfMember(m)
  {
    hide Inserted;
    if Inserted(x.1, y.1, m) { InsertedNames(x.1, y.1, m); }
  }

  /** A name used once is used once afterwards too. */
  lemma {:induction false} KeepsOnlyName(a: seq<Member>, b: seq<Member>, lead: string, m: Member, k: string, i: nat)
    returns (j: nat)
    requires InsertedMembers(a, b, lead, m) && OnlyName(a, k, i) && k !in NamesOfMember(m)
    ensures OnlyName(b, k, j) && GrownMember(a[i], b[j], m)
    decreases a, 1
  {
    hide Names, Inserted, NamesOfMembers;
    if lead == "," && b == [m] + a {
      j := i + 1;
      HasOwnName(m);
    } else if InsertedMember(a[0], b[0], m) && a[1..] == b[1..] {
      j := i;
      GrownNames(a[0], b[0], m);
      forall h | 0 < h < |b| ensures b[h] == a[h] { assert b[1..][h - 1] == a[1..][h - 1]; }
      assert |b| == |a|;
      hide NamesOfMember;
      assert OnlyName(b, k, j);
    } else {
      j := KeepsOnlyNameBehind(a, b, m, k, i);
    }
  }

  lemma {:induction false} KeepsOnlyNameBehind(a: seq<Member>, b: seq<Member>, m: Member, k: string, i: nat)
    returns (j: nat)
    requires |a| > 0 && |b| > 0 && a[0] == b[0] && InsertedMembers(a[1..], b[1..], ",", m)
    requires OnlyName(a, k, i) && k !in NamesOfMember(m)
    ensures OnlyName(b, k, j) && GrownMember(a[i], b[j], m)
    decreases a, 0
  {
    hide Names, Inserted, NamesOfMembers, InsertedMembers, NamesOfMember;
    if i == 0 {
      j := 0;
      InsertedNamesOfMembers(a[1..], b[1..], ",", m);
      NameInMembers(a[1..], k);
      NameInMembers(b[1..], k);
      forall h | 0 < h < |b| ensures k !in NamesOfMember(b[h]) { assert b[1..][h - 1] == b[h]; }
    } else {
      OnlyNameOfRest(a, k, i);
      var n := KeepsOnlyName(a[1..], b[1..], ",", m, k, i - 1);
      j := n + 1;
      forall h | 0 <= h < |b| && h != j ensures k !in NamesOfMember(b[h]) {
        if h > 0 { assert b[1..][h - 1] == b[h]; }
      }
      assert b[1..][n] == b[j];
    }
  }

  lemma OnlyNameOfRest(a: seq<Member>, k: string, i: nat)
    requires OnlyName(a, k, i) && i > 0
    ensures OnlyName(a[1..], k, i - 1)
  {
    hide Names, NamesOfMember;
    forall h | 0 <= h < |a[1..]| && h != i - 1 ensures k !in NamesOfMember(a[1..][h]) { assert a[1..][h] == a[h + 1]; }
  }

  /** The first member of another name is still the first, with the member put in or not. */
  lemma {:induction false} KeepsFirstNamed(a: seq<Member>, b: seq<Member>, lead: string, m: Member, k: string)
    requires InsertedMembers(a, b, lead, m) && FirstNamed(a, k).Some? && m.0 != k
    ensures FirstNamed(b, k).Some?
    ensures GrownMember(a[FirstNamed(a, k).value], b[FirstNamed(b, k).value], m)
    decreases a
  {
    hide Inserted;
    if lead == "," && b == [m] + a {
      assert b[1..] == a;
    } else if InsertedMember(a[0], b[0], m) && a[1..] == b[1..] {
    } else {
      if a[0].0 != k { KeepsFirstNamed(a[1..], b[1..], ",", m, k); }
    }
  }

  // ----- the gates of any tree

  /** Where the names the verifier searches for are used once, the version gate reads the schema block. */
  lemma SchemaReads(top: seq<Member>, i: nat, j: nat, n: Int64)
    requires PlainKeysMembers(top) && OnlyName(top, "payload", i) && top[i].1.Object?
    requires OnlyName(top[i].1.members, "schema", j) && top[i].1.members[j].1.Object?
    requires var schema := top[i].1.members[j].1.members;
             FirstNamed(schema, "schema_version").Some? && n >= 0
             && schema[FirstNamed(schema, "schema_version").value].1 == Int(n)
    ensures DeclaredSchemaVersion(Flat(Object(top))) == Some(n)
  {
    hide Flat, PlainKeys, PlainKeysMembers, Names, ObjectMember, IntMember, Searchable;
    TopLevelKeys();
    SchemaKey();
    ObjectMemberFindsOnlyName(top, "payload", i);
    var payload := top[i].1;
    PlainMemberValue(top, i);
    ObjectMemberFindsOnlyName(payload.members, "schema", j);
    PlainMemberValue(payload.members, j);
    IntMemberReads(payload.members[j].1.members, "schema_version");
  }

  lemma {:induction false} PlainMemberValue(members: seq<Member>, i: nat)
    requires PlainKeysMembers(members) && i < |members|
    ensures PlainKeys(members[i].1) && (members[i].1.Object? ==> PlainKeysMembers(members[i].1.members))
    decreases members
  {
    if i > 0 { PlainMemberValue(members[1..], i - 1); }
  }

  /** And the verifier reads the strings of the verification block. */
  lemma BlockReads(top: seq<Member>, i: nat, name: string, value: string)
    requires PlainKeysMembers(top) && OnlyName(top, "verification", i) && top[i].1.Object?
    requires Searchable(name) && Plain(value)
    requires var block := top[i].1.members;
             FirstNamed(block, name).Some? && block[FirstNamed(block, name).value].1 == Str(value)
    ensures VerificationMember(Flat(Object(top)), name) == Some(value)
  {
    hide Flat, PlainKeys, PlainKeysMembers, Names, ObjectMember, StringMember, Searchable, Plain, Escape;
    TopLevelKeys();
    ObjectMemberFindsOnlyName(top, "verification", i);
    PlainMemberValue(top, i);
    StringMemberReads(top[i].1.members, name);
    PlainEscape(value);
  }

  // ----- the signed tree

  /** The tree whose text an export's signature covers. */
  function SignedTree(crypto: Crypto, payload: Json, key: Bytes): Json
    requires crypto.Lawful()
  {
    Canonical(Content(payload, VerificationBlock(crypto, key)))
  }

  lemma SignedTreeIs(crypto: Crypto, payload: Json, key: Bytes)
    requires crypto.Lawful() && Signable(payload)
    ensures var v, c := SignedTree(crypto, payload, key), Canonical(payload);
            var b := Canonical(VerificationBlock(crypto, key));
            && v == Object([("payload", c), ("verification", b)]) && IsPart(c) && IsPart(b) && c.Object? && b.Object?
            && Flat(v) == SignedText(crypto, payload, key)
  {
    hide Names, PlainKeys, Canonical, Flat, VerificationBlock;
    CanonicalContent(payload, VerificationBlock(crypto, key));
    SignableIsPart(payload);
    BlockIsPart(crypto, key);
    CanonicalPart(payload);
    CanonicalPart(VerificationBlock(crypto, key));
    CanonicalObject(payload);
    BlockIsObject(crypto, key);
    CanonicalObject(VerificationBlock(crypto, key));
  }

  lemma BlockIsObject(crypto: Crypto, key: Bytes)
    requires crypto.Lawful()
    ensures VerificationBlock(crypto, key).Object?
  {
  }

  lemma TwoTopNames(c: Json, b: Json)
    requires IsPart(c) && IsPart(b)
    ensures var top := [("payload", c), ("verification", b)];
            && OnlyName(top, "payload", 0) && OnlyName(top, "verification", 1)
            && PlainKeysMembers(top) && PlainKeys(Object(top)) && "signature" !in Names(Object(top))
  {
    hide PlainKeys, Names, Plain, Searchable, KeyLess;
    var top: seq<Member> := [("payload", c), ("verification", b)];
    PlainTopKeys();
    TopKeysDiffer();
    assert top[1..] == [top[1]] && [top[1]][1..] == [];
    assert PlainMember(top[0]) && PlainMember(top[1]);
    assert PlainKeysMembers([top[1]]);
    PlainObjectOf(top);
    assert "payload" !in NamesOfMember(top[1]) && "verification" !in NamesOfMember(top[0]);
    assert OnlyName(top, "payload", 0);
    assert OnlyName(top, "verification", 1);
    if "signature" in NamesOfMembers(top) { NameInMembers(top, "signature"); }
  }

  lemma PlainObjectOf(members: seq<Member>)
    ensures PlainKeys(Object(members)) <==> PlainKeysMembers(members)
    ensures Names(Object(members)) == NamesOfMembers(members)
  {
  }

  /** The signed text has no signature name in it. */
  lemma SignedTextIsUnsigned(crypto: Crypto, payload: Json, key: Bytes)
    requires crypto.Lawful() && Signable(payload)
    ensures Unsigned(SignedText(crypto, payload, key))
  {
    hide Names, PlainKeys, Canonical, Flat, VerificationBlock, Signable, Unsigned;
    SignedTreeIs(crypto, payload, key);
    var v := SignedTree(crypto, payload, key);
    TwoTopNames(v.members[0].1, v.members[1].1);
    PlainIsUnambiguous(v, "signature");
    UnsignedTree(v);
  }

  function SignatureIn(signature: string): Member {
    ("signature", Str(signature))
  }

  lemma SignatureNames(signature: string)
    ensures NamesOfMember(SignatureIn(signature)) == {"signature"}
  {
  }

  /** The schema block is read back from the payload, with the signature member put in or not. */
  lemma GrownSchema(payload: Json, c: Json, signature: string) returns (j: nat)
    requires Signable(payload) && Grown(Canonical(payload), c, SignatureIn(signature))
    ensures c.Object? && OnlyName(c.members, "schema", j) && c.members[j].1.Object?
    ensures var schema := c.members[j].1.members;
            FirstNamed(schema, "schema_version").Some?
            && schema[FirstNamed(schema, "schema_version").value].1 == Int(SCHEMA_VERSION)
  {
    hide Names, PlainKeys, Canonical, Sort, SchemaBlock, InsertedMembers;
    var m := SignatureIn(signature);
    SignatureNames(signature);
    CanonicalObject(payload);
    var h: nat :| OnlyName(payload.members, "schema", h) && payload.members[h].1 == SchemaBlock();
    var i := CanonicalOnlyName(payload.members, "schema", h);
    SchemaBlockForm();
    var a := Canonical(payload).members;
    if c == Canonical(payload) {
      j := i;
    } else {
      SchemaIsNotSignature();
      j := KeepsOnlyName(a, c.members, "", m, "schema", i);
    }
    OnlyNameIsThere(c.members, "schema", j);
    OnlyNameIsThere(a, "schema", i);
    GrownSchemaBlock(c.members[j].1, m);
  }

  lemma OnlyNameIsThere(members: seq<Member>, k: string, i: nat)
    requires OnlyName(members, k, i)
    ensures i < |members| && members[i].0 == k
  {
  }

  lemma SchemaIsNotSignature()
    ensures "schema" != "signature" && "schema_version" != "signature" && "algorithm" != "signature"
    ensures "public_key" != "signature"
  {
    assert "algorithm"[0] != "signature"[0];
  }

  lemma GrownSchemaBlock(s: Json, m: Member)
    requires Grown(SchemaBlock(), s, m) && m.0 == "signature"
    ensures s.Object? && FirstNamed(s.members, "schema_version").Some?
    ensures s.members[FirstNamed(s.members, "schema_version").value].1 == Int(SCHEMA_VERSION)
  {
    hide FirstNamed, InsertedMembers;
    var block := SchemaBlock().members;
    SchemaBlockForm();
    assert block[1].1 == Int(SCHEMA_VERSION);
    SchemaIsNotSignature();
    if s != SchemaBlock() { KeepsFirstNamed(block, s.members, "", m, "schema_version"); }
  }

  /** A string of the verification block stays the first of its name. */
  lemma GrownString(crypto: Crypto, key: Bytes, b: Json, m: Member, name: string, j: nat)
    requires crypto.Lawful() && Grown(Canonical(VerificationBlock(crypto, key)), b, m) && m.0 != name
    requires OnlyName(VerificationBlock(crypto, key).members, name, j)
    requires VerificationBlock(crypto, key).members[j].1.Str?
    ensures b.Object? && FirstNamed(b.members, name).Some?
    ensures b.members[FirstNamed(b.members, name).value].1 == VerificationBlock(crypto, key).members[j].1
  {
    hide Names, PlainKeys, Canonical, Sort, VerificationBlock, InsertedMembers, FirstNamed;
    var block := VerificationBlock(crypto, key);
    BlockIsObject(crypto, key);
    CanonicalObject(block);
    var i := CanonicalOnlyName(block.members, name, j);
    CanonicalString(block.members[j].1.text);
    var a := Canonical(block).members;
    if b != Canonical(block) { KeepsFirstNamed(a, b.members, "", m, name); }
  }

  /** Wherever the signature member is put into the signed tree, both gates pass and the signer's key is read. */
  lemma InsertedGates(crypto: Crypto, payload: Json, key: Bytes, w: Json, signature: string)
    requires crypto.Lawful() && Signable(payload)
    requires Inserted(SignedTree(crypto, payload, key), w, SignatureIn(signature))
    ensures GatesRead(Flat(w)) && EmbeddedPublicKey(Flat(w)) == Some(Hex(key))
  {
    hide Names, PlainKeys, PlainKeysMembers, Canonical, Flat, VerificationBlock, Signable, OnlyName, InsertedMembers,
         SignedTree, Hex, FirstNamed, ObjectMember, IntMember, VerificationMember, IsPart, Searchable, Plain;
    SignedTreeIs(crypto, payload, key);
    var v, m, b := SignedTree(crypto, payload, key), SignatureIn(signature), w.members;
    TwoTopNames(v.members[0].1, v.members[1].1);
    PlainInserted(v, w, signature);
    SignatureNames(signature);
    TopKeysDiffer();
    var i := KeepsOnlyName(v.members, b, "", m, "payload", 0);
    OnlyNameIsThere(b, "payload", i);
    var j := GrownSchema(payload, b[i].1, signature);
    SchemaReads(b, i, j, SCHEMA_VERSION);
    var k := KeepsOnlyName(v.members, b, "", m, "verification", 1);
    OnlyNameIsThere(b, "verification", k);
    BlockStringsRead(crypto, key, b, k, m);
  }

  lemma PlainInserted(v: Json, w: Json, signature: string)
    requires Inserted(v, w, SignatureIn(signature)) && PlainKeys(v) && w.Object?
    ensures PlainKeysMembers(w.members)
  {
    hide Names, PlainKeys, PlainKeysMembers, Inserted, Plain;
    SignatureNames(signature);
    InsertedNames(v, w, SignatureIn(signature));
    PlainNamesArePlainKeys(v);
    PlainTopKeys();
    PlainNamesArePlainKeys(w);
    PlainObjectOf(w.members);
  }

  lemma BlockStringsRead(crypto: Crypto, key: Bytes, top: seq<Member>, i: nat, m: Member)
    requires crypto.Lawful() && PlainKeysMembers(top) && OnlyName(top, "verification", i) && m.0 == "signature"
    requires Grown(Canonical(VerificationBlock(crypto, key)), top[i].1, m)
    ensures VerificationMember(Flat(Object(top)), "algorithm") == Some(ALGORITHM)
    ensures VerificationMember(Flat(Object(top)), "public_key") == Some(Hex(key))
  {
    hide Names, PlainKeys, PlainKeysMembers, Canonical, Flat, Grown, Hex, FirstNamed, VerificationMember, Searchable,
         Plain;
    VerificationNames(crypto, key);
    SchemaIsNotSignature();
    PlainAlgorithm();
    HexRoundTrip(key);
    GrownString(crypto, key, top[i].1, m, "algorithm", 0);
    GrownString(crypto, key, top[i].1, m, "public_key", 2);
    BlockReads(top, i, "algorithm", ALGORITHM);
    BlockReads(top, i, "public_key", Hex(key));
  }

  // ----- documents under an export's signature

  function SignatureBytes(crypto: Crypto, payload: Json, seed: Bytes): Bytes
    requires crypto.Lawful()
  {
    crypto.sign(seed, crypto.textDigest(SignedText(crypto, payload, crypto.publicKey(seed))))
  }

  /** The first signature member of a document is hexadecimal for the signature made over a payload. */
  ghost predicate Carries(crypto: Crypto, payload: Json, seed: Bytes, document: string)
    requires crypto.Lawful()
  {
    match ReconstructSigned(document)
    case None => false
    case Some((rest, signature)) => DecodeFixed(signature, 64) == Some(SignatureBytes(crypto, payload, seed))
  }

  /** What is left of the document does not share the signed digest, nor does a key take the signature for its own. */
  ghost predicate Unbroken(crypto: Crypto, payload: Json, seed: Bytes, document: string)
    requires crypto.Lawful()
  {
    var a := SignedText(crypto, payload, crypto.publicKey(seed));
    match ReconstructSigned(document)
    case None => true
    case Some((rest, signature)) =>
      !Collision(crypto, a, rest)
      && forall key :: !Forged(crypto, seed, crypto.textDigest(a), key, crypto.textDigest(rest))
  }

  predicate GatesRead(document: string) {
    DeclaredSchemaVersion(document) == Some(SCHEMA_VERSION) && DeclaredAlgorithm(document) == Some(ALGORITHM)
  }

  /** The key in the document accepts a signature for a digest. */
  predicate KeyAccepts(crypto: Crypto, document: string, digest: Bytes, signature: Bytes) {
    match EmbeddedPublicKey(document)
    case None => false
    case Some(hex) =>
      match DecodeFixed(hex, 32)
      case None => false
      case Some(key) => crypto.verifies(key, digest, signature)
  }

  /** The document is the signed text with the signature member put in somewhere. */
  ghost predicate SignatureSpliced(crypto: Crypto, payload: Json, seed: Bytes, document: string)
    requires crypto.Lawful()
  {
    exists signature, p ::
      DecodeFixed(signature, 64) == Some(SignatureBytes(crypto, payload, seed))
      && Spliced(SignedText(crypto, payload, crypto.publicKey(seed)), document, SignatureMember(signature), p)
  }

  lemma {:induction false} DecodedIsPlain(hex: string)
    requires FromHex(hex).Some?
    ensures Plain(hex)
  {
    if |hex| > 1 {
      DecodedIsPlain(hex[2..]);
      PlainPair(hex[0], hex[1]);
      assert hex == [hex[0], hex[1]] + hex[2..];
    }
  }

  lemma PlainPair(a: char, b: char)
    requires ParseHexPair(a, b).Some?
    ensures PlainChar(a) && PlainChar(b)
  {
  }

  /** Which documents leave the signed text behind with its signature. */
  lemma LeavesSigned(crypto: Crypto, payload: Json, seed: Bytes, document: string)
    requires crypto.Lawful() && Signable(payload)
    ensures SignatureSpliced(crypto, payload, seed, document)
       <==> Carries(crypto, payload, seed, document)
            && ReconstructSigned(document).value.0 == SignedText(crypto, payload, crypto.publicKey(seed))
  {
    hide SignedText, Signable, ReconstructSigned, FromHex, Spliced, Unsigned, SignatureMember, QuoteFree, Plain;
    var a := SignedText(crypto, payload, crypto.publicKey(seed));
    SignedTextIsUnsigned(crypto, payload, crypto.publicKey(seed));
    if signature, p :| DecodeFixed(signature, 64) == Some(SignatureBytes(crypto, payload, seed))
                       && Spliced(a, document, SignatureMember(signature), p)
    {
      DecodedIsPlain(signature);
      PlainIsQuoteFree(signature);
      ReconstructsExactly(a, signature, document);
    }
    if Carries(crypto, payload, seed, document) && ReconstructSigned(document).value.0 == a {
      ReconstructsExactly(a, ReconstructSigned(document).value.1, document);
    }
  }

  /**
   Acceptance under an export's signature, for every text: a document that carries the signature is accepted exactly
   when it is the signed text with the signature member put in at some place, both gates read, and the key in it
   accepts the signature for the signed digest.
   */
  lemma AcceptedTextsExactly(crypto: Crypto, payload: Json, seed: Bytes, document: string)
    requires crypto.Lawful() && Signable(payload) && Unbroken(crypto, payload, seed, document)
    ensures var digest := crypto.textDigest(SignedText(crypto, payload, crypto.publicKey(seed)));
            Carries(crypto, payload, seed, document) && Verify(crypto, document) == Ok(())
            <==> SignatureSpliced(crypto, payload, seed, document) && GatesRead(document)
                 && KeyAccepts(crypto, document, digest, SignatureBytes(crypto, payload, seed))
  {
    hide SignedText, Signable, ReconstructSigned, DecodeFixed, DeclaredSchemaVersion, DeclaredAlgorithm,
         EmbeddedPublicKey, SignatureSpliced;
    LeavesSigned(crypto, payload, seed, document);
    var a := SignedText(crypto, payload, crypto.publicKey(seed));
    if Carries(crypto, payload, seed, document) && Verify(crypto, document) == Ok(()) {
      var (rest, signature) := ReconstructSigned(document).value;
      var key := DecodeFixed(EmbeddedPublicKey(document).value, 32).value;
      assert crypto.verifies(key, crypto.textDigest(rest), SignatureBytes(crypto, payload, seed));
      assert !Forged(crypto, seed, crypto.textDigest(a), key, crypto.textDigest(rest));
      assert rest == a;
    }
  }

  /** The tree is the signed one with the signature member put in behind some member of some object. */
  ghost predicate SignatureInserted(crypto: Crypto, payload: Json, seed: Bytes, w: Json)
    requires crypto.Lawful()
  {
    exists signature ::
      DecodeFixed(signature, 64) == Some(SignatureBytes(crypto, payload, seed))
      && Inserted(SignedTree(crypto, payload, crypto.publicKey(seed)), w, SignatureIn(signature))
  }

  /** Every such tree's text is accepted. */
  lemma InsertedIsAccepted(crypto: Crypto, payload: Json, seed: Bytes, w: Json, signature: string)
    requires crypto.Lawful() && Signable(payload)
    requires DecodeFixed(signature, 64) == Some(SignatureBytes(crypto, payload, seed))
    requires Inserted(SignedTree(crypto, payload, crypto.publicKey(seed)), w, SignatureIn(signature))
    ensures Verify(crypto, Flat(w)) == Ok(()) && Carries(crypto, payload, seed, Flat(w))
  {
    hide SignedText, Signable, ReconstructSigned, FromHex, DeclaredSchemaVersion, DeclaredAlgorithm, SignedTree,
         EmbeddedPublicKey, Inserted, Unsigned, Flat, Hex, Plain;
    var key := crypto.publicKey(seed);
    SignedTreeIs(crypto, payload, key);
    SignedTextIsUnsigned(crypto, payload, key);
    DecodedIsPlain(signature);
    CutsTreeExactly(SignedTree(crypto, payload, key), w, signature);
    InsertedGates(crypto, payload, key, w, signature);
    HexRoundTrip(key);
  }

  /**
   Acceptance under an export's signature, for compact JSON with its members in any order: exactly the signed tree
   with the signature member put in behind some member of some object, at any depth.
   */
  lemma AcceptedTreesExactly(crypto: Crypto, payload: Json, seed: Bytes, w: Json)
    requires crypto.Lawful() && Signable(payload) && Unbroken(crypto, payload, seed, Flat(w))
    ensures Carries(crypto, payload, seed, Flat(w)) && Verify(crypto, Flat(w)) == Ok(())
       <==> SignatureInserted(crypto, payload, seed, w)
  {
    hide SignedText, Signable, ReconstructSigned, FromHex, Verify, SignedTree, Inserted, Unsigned, Flat, Unbroken,
         SignatureSpliced, GatesRead, KeyAccepts, Plain;
    var key := crypto.publicKey(seed);
    if signature :| DecodeFixed(signature, 64) == Some(SignatureBytes(crypto, payload, seed))
                    && Inserted(SignedTree(crypto, payload, key), w, SignatureIn(signature))
    {
      InsertedIsAccepted(crypto, payload, seed, w, signature);
    }
    if Carries(crypto, payload, seed, Flat(w)) && Verify(crypto, Flat(w)) == Ok(()) {
      var signature := ReconstructSigned(Flat(w)).value.1;
      AcceptedTextsExactly(crypto, payload, seed, Flat(w));
      LeavesSigned(crypto, payload, seed, Flat(w));
      SignedTreeIs(crypto, payload, key);
      SignedTextIsUnsigned(crypto, payload, key);
      DecodedIsPlain(signature);
      CutsTreeExactly(SignedTree(crypto, payload, key), w, signature);
    }
  }

  // ----- what an accepted document says

  function WithoutSignatures(members: seq<Member>): seq<Member> {
    if |members| == 0 then []
    else (if members[0].0 == "signature" then [] else [members[0]]) + WithoutSignatures(members[1..])
  }

  /** Apart from its own signature members, the document is the value that was signed. */
  ghost predicate SaysSigned(crypto: Crypto, payload: Json, seed: Bytes, w: Json)
    requires crypto.Lawful()
  {
    w.Object? && SameValue(Object(WithoutSignatures(w.members)), SignedTree(crypto, payload, crypto.publicKey(seed)))
  }

  lemma {:induction false} SameValueNames(v: Json, w: Json)
    requires SameValue(v, w)
    ensures Names(v) <= Names(w)
    decreases v, 0
  {
    match (v, w)
    case (Array(a), Array(b)) => SameItemsNames(a, b);
    case (Object(a), Object(b)) =>
      forall k | k in NamesOfMembers(a) ensures k in NamesOfMembers(b) {
        NameInMembers(a, k);
        var i :| 0 <= i < |a| && k in NamesOfMember(a[i]);
        SameMemberNames(a[i], b, k);
      }
    case _ =>
  }

  lemma {:induction false} SameItemsNames(a: seq<Json>, b: seq<Json>)
    requires |a| == |b| && forall i :: 0 <= i < |a| ==> SameValue(a[i], b[i])
    ensures NamesOfItems(a) <= NamesOfItems(b)
    decreases a, 0
  {
    hide SameValue, Names;
    if |a| > 0 {
      SameValueNames(a[0], b[0]);
      SameItemsNames(a[1..], b[1..]);
    }
  }

  lemma {:induction false} SameMemberNames(m: Member, members: seq<Member>, k: string)
    requires MemberIn(m, members) && k in NamesOfMember(m)
    ensures k in NamesOfMembers(members)
    decreases m, 1
  {
    hide SameValue, Names;
    var j :| 0 <= j < |members| && members[j].0 == m.0 && SameValue(m.1, members[j].1);
    SameValueNames(m.1, members[j].1);
    NameInMembers(members, k);
    assert k in NamesOfMember(members[j]);
  }

  /** Put in behind one of two members, or into the value of one of them. */
  lemma InsertedInTwo(x: Member, y: Member, b: seq<Member>, m: Member)
    requires InsertedMembers([x, y], b, "", m)
    ensures || b == [x, m, y]
            || b == [x, y, m]
            || (|b| == 2 && InsertedMember(x, b[0], m) && b[1] == y)
            || (|b| == 2 && b[0] == x && InsertedMember(y, b[1], m))
  {
    hide InsertedMember;
    assert [x, y][1..] == [y];
    assert b == [b[0]] + b[1..];
    if b[0] == x && InsertedMembers([y], b[1..], ",", m) { InsertedAtOne(y, b[1..], m); }
  }

  lemma InsertedAtOne(y: Member, b: seq<Member>, m: Member)
    requires InsertedMembers([y], b, ",", m)
    ensures b == [m, y] || b == [y, m] || (|b| == 1 && InsertedMember(y, b[0], m))
  {
    hide InsertedMember;
    assert [y][1..] == [];
    if b != [m] + [y] {
      assert b == [b[0]] + b[1..];
      assert InsertedMembers([], b[1..], ",", m) ==> b[1..] == [m] + [];
    }
  }

  lemma NoSignatures(x: Member, y: Member)
    requires x.0 != "signature" && y.0 != "signature"
    ensures WithoutSignatures([x, y]) == [x, y]
    ensures forall m: Member :: m.0 == "signature" ==>
              WithoutSignatures([x, m, y]) == [x, y] && WithoutSignatures([x, y, m]) == [x, y]
  {
    assert [x, y][1..] == [y] && [y][1..] == [];
    assert WithoutSignatures([y]) == [y];
    forall m: Member | m.0 == "signature"
      ensures WithoutSignatures([x, m, y]) == [x, y] && WithoutSignatures([x, y, m]) == [x, y]
    {
      assert [x, m, y][1..] == [m, y] && [m, y][1..] == [y];
      assert [x, y, m][1..] == [y, m] && [y, m][1..] == [m] && [m][1..] == [];
      assert WithoutSignatures([m]) == [] && WithoutSignatures([y, m]) == [y] + [];
      assert WithoutSignatures([m, y]) == [] + [y];
    }
  }

  /** The signature member stands in the payload or in the verification block of the document. */
  ghost predicate IsInside(v: Json, w: Json, m: Member)
    requires v.Object? && |v.members| == 2
  {
    var x, y := v.members[0], v.members[1];
    || (exists z :: w == Object([z, y]) && InsertedMember(x, z, m))
    || (exists z :: w == Object([x, z]) && InsertedMember(y, z, m))
  }

  /**
   With the signature member put in, the document says what was signed exactly when the member is one of the document's
   own, between payload and block or behind them; everywhere else it stands inside one of these and changes it.
   */
  lemma SaysSignedExactly(crypto: Crypto, payload: Json, seed: Bytes, w: Json, signature: string)
    requires crypto.Lawful() && Signable(payload)
    requires Inserted(SignedTree(crypto, payload, crypto.publicKey(seed)), w, SignatureIn(signature))
    ensures var v, m := SignedTree(crypto, payload, crypto.publicKey(seed)), SignatureIn(signature);
            && v.Object? && |v.members| == 2
            && (SaysSigned(crypto, payload, seed, w)
                <==> w == Object([v.members[0], m, v.members[1]]) || w == Object([v.members[0], v.members[1], m]))
            && (SaysSigned(crypto, payload, seed, w) <==> !IsInside(v, w, m))
  {
    hide Names, PlainKeys, Canonical, Flat, VerificationBlock, Signable, SignedTree, SameValue, InsertedMember,
         WithoutSignatures;
    SignedTreeIs(crypto, payload, crypto.publicKey(seed));
    var v, m := SignedTree(crypto, payload, crypto.publicKey(seed)), SignatureIn(signature);
    var x, y, b := v.members[0], v.members[1], w.members;
    TopKeysDiffer();
    TwoTopNames(x.1, y.1);
    InsertedInTwo(x, y, b, m);
    if b == [x, m, y] || b == [x, y, m] {
      NoSignatures(x, y);
      SameCanonicalSameValue(v, v);
      assert b != [b[0], b[1]];
    } else {
      assert b == [b[0], b[1]];
      InsertedKeepsName(x, b[0], m);
      InsertedKeepsName(y, b[1], m);
      NoSignatures(b[0], b[1]);
      SaysOther(v, w, m);
    }
  }

  lemma InsertedKeepsName(x: Member, y: Member, m: Member)
    ensures InsertedMember(x, y, m) ==> x.0 == y.0
  {
  }

  /** A tree with a name that the other does not have is another value. */
  lemma SaysOther(v: Json, w: Json, m: Member)
    requires Inserted(v, w, m) && m.0 !in Names(v)
    ensures !SameValue(w, v)
  {
    hide Names, SameValue, Inserted, NamesOfMember;
    InsertedNames(v, w, m);
    HasOwnName(m);
    if SameValue(w, v) { SameValueNames(w, v); }
  }

  /** The exported document has the signature member behind the payload, and no other place gives this document. */
  lemma ExportIsOnePlace(crypto: Crypto, payload: Json, seed: Bytes, document: string, p: int)
    requires crypto.Lawful() && Signable(payload)
    requires Spliced(SignedText(crypto, payload, crypto.publicKey(seed)), document,
                     SignatureMember(SignatureHex(crypto, payload, seed)), p)
    ensures document == SignDocument(crypto, payload, seed) <==> p == 1 + |FlatMember(("payload", Canonical(payload)))|
  {
    hide Signable, Canonical, Flat, FlatMember, VerificationBlock, SignatureHex, Spliced, Unsigned, SignatureMember,
         Plain;
    var key, signature := crypto.publicKey(seed), SignatureHex(crypto, payload, seed);
    var x: Member, m: Member, y: Member := ("payload", Canonical(payload)), SignatureIn(signature),
                                           ("verification", Canonical(VerificationBlock(crypto, key)));
    var a, q := SignedText(crypto, payload, key), 1 + |FlatMember(x)|;
    DocumentIsCanonical(payload, signature, VerificationBlock(crypto, key));
    DocumentText(x, m, y);
    SignatureText(crypto, payload, seed);
    SignaturePart(signature);
    SplicedBetween("{" + FlatMember(x), MemberPart(m), "," + FlatMember(y) + "}");
    SignedTextIsUnsigned(crypto, payload, key);
    if document == SignDocument(crypto, payload, seed) { OnePlace(a, document, signature, p, q); }
    if p == q { SamePlace(a, document, SignDocument(crypto, payload, seed), SignatureMember(signature), p); }
  }

  lemma SplicedBetween(before: string, part: string, after: string)
    ensures Spliced(before + after, before + part + after, part, |before|)
  {
    assert (before + after)[..|before|] == before && (before + after)[|before|..] == after;
  }

  lemma SamePlace(x: string, y: string, z: string, part: string, p: int)
    requires Spliced(x, y, part, p) && Spliced(x, z, part, p)
    ensures y == z
  {
  }

  /** The signature member, moved into the payload or into the verification block. */
  ghost predicate SignatureMoved(crypto: Crypto, payload: Json, seed: Bytes, w: Json)
    requires crypto.Lawful()
  {
    var v := SignedTree(crypto, payload, crypto.publicKey(seed));
    v.Object? && |v.members| == 2
    && exists signature ::
         DecodeFixed(signature, 64) == Some(SignatureBytes(crypto, payload, seed))
         && IsInside(v, w, SignatureIn(signature))
  }

  lemma InsideIsInserted(v: Json, w: Json, m: Member)
    requires v.Object? && |v.members| == 2 && IsInside(v, w, m)
    ensures Inserted(v, w, m)
  {
    hide InsertedMember;
    var x, y, b := v.members[0], v.members[1], w.members;
    assert v.members == [x, y] && v.members[1..] == [y] && b == [b[0], b[1]] && b[1..] == [b[1]];
    assert [y][1..] == [] && [b[1]][1..] == [];
    assert InsertedMember(y, b[1], m) ==> InsertedMembers([y], [b[1]], ",", m);
  }

  /**
   Which altered documents are accepted: of all compact JSON documents that carry an export's signature, those accepted
   though they do not say what was signed are exactly those whose signature member was moved into the payload or into
   the verification block.
   */
  lemma AlteredDocumentsExactly(crypto: Crypto, payload: Json, seed: Bytes, w: Json)
    requires crypto.Lawful() && Signable(payload) && Unbroken(crypto, payload, seed, Flat(w))
    ensures Carries(crypto, payload, seed, Flat(w)) && Verify(crypto, Flat(w)) == Ok(())
            && !SaysSigned(crypto, payload, seed, w)
       <==> SignatureMoved(crypto, payload, seed, w)
  {
    hide Signable, FromHex, Verify, SignedTree, Inserted, Flat, Unbroken, Carries, SaysSigned, IsInside;
    var key := crypto.publicKey(seed);
    var v := SignedTree(crypto, payload, key);
    AcceptedTreesExactly(crypto, payload, seed, w);
    if Carries(crypto, payload, seed, Flat(w)) && Verify(crypto, Flat(w)) == Ok(()) {
      var signature :| DecodeFixed(signature, 64) == Some(SignatureBytes(crypto, payload, seed))
                       && Inserted(v, w, SignatureIn(signature));
      SaysSignedExactly(crypto, payload, seed, w, signature);
    }
    if SignatureMoved(crypto, payload, seed, w) {
      var signature :| DecodeFixed(signature, 64) == Some(SignatureBytes(crypto, payload, seed))
                       && IsInside(v, w, SignatureIn(signature));
      InsideIsInserted(v, w, SignatureIn(signature));
      SaysSignedExactly(crypto, payload, seed, w, signature);
    }
  }

  /** An object with the signature member behind its last member. */
  function SignedLast(v: Json, signature: string): Json
    requires v.Object?
  {
    Object(v.members + [SignatureIn(signature)])
  }

  lemma {:induction false} LastIsInserted(a: seq<Member>, lead: string, m: Member)
    requires |a| > 0 || lead == ","
    ensures InsertedMembers(a, a + [m], lead, m)
    decreases |a|
  {
    hide InsertedMember;
    if |a| == 0 {
      assert a + [m] == [m] + a;
    } else {
      assert (a + [m])[0] == a[0] && (a + [m])[1..] == a[1..] + [m];
      LastIsInserted(a[1..], ",", m);
    }
  }

  /**
   The verifier does not reject every change: the signature member of any export, moved from the document to the end of
   the payload or to the end of the verification block, changes the one or the other, and the document is accepted.
   */
  lemma MovedSignatureIsAccepted(crypto: Crypto, corpus: Corpora.Corpus, score: EnvironmentScore, seed: Bytes)
    requires crypto.Lawful()
    ensures var payload, key := Payload(corpus, score), crypto.publicKey(seed);
            var c, b := Canonical(payload), Canonical(VerificationBlock(crypto, key));
            var signature := SignatureHex(crypto, payload, seed);
            && c.Object? && b.Object?
            && Verify(crypto, Flat(Content(SignedLast(c, signature), b))) == Ok(())
            && Verify(crypto, Flat(Content(c, SignedLast(b, signature)))) == Ok(())
            && !SameValue(SignedLast(c, signature), c) && !SameValue(SignedLast(b, signature), b)
  {
    hide Signable, Payload, VerificationBlock, Canonical, Flat, SameValue, Names, PlainKeys, DecodeFixed, SignatureHex,
         Verify, SignedTree, Inserted, Carries;
    var payload, key := Payload(corpus, score), crypto.publicKey(seed);
    var signature := SignatureHex(crypto, payload, seed);
    PayloadIsSignable(corpus, score);
    SignedTreeIs(crypto, payload, key);
    SignatureText(crypto, payload, seed);
    var v := SignedTree(crypto, payload, key);
    var c, b := Canonical(payload), Canonical(VerificationBlock(crypto, key));
    var m := SignatureIn(signature);
    CanonicalNotEmpty(crypto, payload, key);
    EndIsInserted(c, m);
    EndIsInserted(b, m);
    SaysOther(c, SignedLast(c, signature), m);
    SaysOther(b, SignedLast(b, signature), m);
    InsideOf(v, ("payload", SignedLast(c, signature)), ("verification", SignedLast(b, signature)), m);
    InsertedIsAccepted(crypto, payload, seed, Content(SignedLast(c, signature), b), signature);
    InsertedIsAccepted(crypto, payload, seed, Content(c, SignedLast(b, signature)), signature);
  }

  lemma EndIsInserted(v: Json, m: Member)
    requires v.Object? && |v.members| > 0
    ensures Inserted(v, Object(v.members + [m]), m)
  {
    hide InsertedMembers;
    LastIsInserted(v.members, "", m);
  }

  lemma InsideOf(v: Json, x: Member, y: Member, m: Member)
    requires v.Object? && |v.members| == 2
    requires InsertedMember(v.members[0], x, m) && InsertedMember(v.members[1], y, m)
    ensures Inserted(v, Object([x, v.members[1]]), m) && Inserted(v, Object([v.members[0], y]), m)
  {
    hide InsertedMember, Inserted;
    InsideIsInserted(v, Object([x, v.members[1]]), m);
    InsideIsInserted(v, Object([v.members[0], y]), m);
  }

  lemma CanonicalNotEmpty(crypto: Crypto, payload: Json, key: Bytes)
    requires crypto.Lawful() && Signable(payload)
    ensures Canonical(payload).Object? && |Canonical(payload).members| > 0
    ensures Canonical(VerificationBlock(crypto, key)).Object? && |Canonical(VerificationBlock(crypto, key)).members| > 0
  {
    hide Names, PlainKeys, Canonical, Sort;
    CanonicalObject(payload);
    var h: nat :| OnlyName(payload.members, "schema", h) && payload.members[h].1 == SchemaBlock();
    var i := CanonicalOnlyName(payload.members, "schema", h);
    CanonicalObject(VerificationBlock(crypto, key));
    VerificationNames(crypto, key);
    var j := CanonicalOnlyName(VerificationBlock(crypto, key).members, "algorithm", 0);
  }

  /**
   Every other change is rejected, for every text: a document that carries an export's signature and is not the signed
   text with the signature member put in is not accepted; where the gates read and there is a key, the signature is
   invalid.
   */
  lemma AlteredExportRejected(
    crypto: Crypto, corpus: Corpora.Corpus, score: EnvironmentScore, seed: Bytes, document: string)
    requires crypto.Lawful() && Unbroken(crypto, Payload(corpus, score), seed, document)
    requires Carries(crypto, Payload(corpus, score), seed, document)
    requires !SignatureSpliced(crypto, Payload(corpus, score), seed, document)
    ensures Verify(crypto, document).Err?
    ensures GatesRead(document) && EmbeddedPublicKey(document).Some? ==>
              Verify(crypto, document) == Err(InvalidSignature)
  {
    hide Payload, Signable, Unbroken, Carries, SignatureSpliced, KeyAccepts, DeclaredSchemaVersion, DeclaredAlgorithm,
         EmbeddedPublicKey, ReconstructSigned, DecodeFixed;
    PayloadIsSignable(corpus, score);
    AcceptedTextsExactly(crypto, Payload(corpus, score), seed, document);
  }
}

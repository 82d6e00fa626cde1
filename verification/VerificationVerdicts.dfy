/** The verifier's verdict on a document, error by error, in terms of the values that stand in it. */
module VerificationVerdicts {
  import opened Wrappers
  import opened Ordering
  import opened CanonicalJson
  import opened Scanners
  import opened CanonicalLexing
  import opened CanonicalForm
  import opened SignedExport
  import opened ExportTheorems
  import opened VerifyExport
  import opened AlteredExports

  /** The value of the first member called `name`. */
  function FirstValue(members: seq<Member>, name: string): Option<Json> {
    match FirstNamed(members, name)
    case None => None
    case Some(i) => Some(members[i].1)
  }

  // ----- the first member of a name, whatever the order of writing

  lemma {:induction false} FirstValueIs(members: seq<Member>, name: string)
    ensures FirstValue(members, name)
         == var named := WithKey(members, MemberKey, [name]); if |named| == 0 then None else Some(named[0].1)
    decreases |members|
  {
    if |members| > 0 {
      var rest := members[1..];
      assert members == [members[0]] + rest;
      FirstValueIs(rest, name);
      WithKeyConcat([members[0]], rest, MemberKey, [name]);
      assert [members[0]][..0] == [];
      assert MemberKey(members[0]) == [name] <==> members[0].0 == name;
    }
  }

  lemma CanonicalFirstValue(members: seq<Member>, name: string)
    ensures FirstValue(CanonicalMembers(members), name)
         == match FirstValue(members, name) case None => None case Some(w) => Some(Canonical(w))
  {
    hide Canonical, CanonicalMembers;
    var written := CanonicalMembers(members);
    assert FirstNamed(written, name) == FirstNamed(members, name);
    match FirstNamed(members, name)
    case None =>
    case Some(i) => CanonicalMembersAt(members, i);
  }

  /** In canonical order the first member of a name is the one it was before. */
  lemma WrittenFirstValue(members: seq<Member>, name: string)
    ensures FirstValue(Sort(CanonicalMembers(members), MemberKey), name)
         == match FirstValue(members, name) case None => None case Some(w) => Some(Canonical(w))
  {
    hide Canonical, CanonicalMembers, Sort, FirstValue, WithKey;
    var sorted := Sort(members, MemberKey);
    SortCanonicalMembers(members);
    CanonicalFirstValue(sorted, name);
    FirstValueIs(sorted, name);
    FirstValueIs(members, name);
    SortIsStable(members, MemberKey, [name]);
  }

  // ----- what the gates read

  /** The version as the verifier reads it: a natural number. */
  function VersionRead(schema: Json): Option<Int64>
    requires schema.Object?
  {
    match FirstValue(schema.members, "schema_version")
    case Some(Int(n)) => if n >= 0 then Some(n) else None
    case _ => None
  }

  /** A string of the verification block as it is written. */
  function BlockRead(block: Json, name: string): Option<string>
    requires block.Object?
  {
    match FirstValue(block.members, name)
    case Some(Str(text)) => Some(Escape(text))
    case _ => None
  }

  lemma VersionIsRead(schema: Json)
    requires schema.Object? && PlainKeysMembers(Sort(CanonicalMembers(schema.members), MemberKey))
    ensures IntMember(Flat(Canonical(schema)), "schema_version") == VersionRead(schema)
  {
    hide Flat, IntMember, CanonicalMembers, Sort, PlainKeysMembers;
    var written := Sort(CanonicalMembers(schema.members), MemberKey);
    CanonicalObject(schema);
    IntMemberReads(written, "schema_version");
    WrittenFirstValue(schema.members, "schema_version");
  }

  lemma BlockIsRead(block: Json, name: string)
    requires block.Object? && PlainKeysMembers(Sort(CanonicalMembers(block.members), MemberKey))
    ensures StringMember(Flat(Canonical(block)), name) == BlockRead(block, name)
  {
    hide Flat, StringMember, CanonicalMembers, Sort, PlainKeysMembers;
    var written := Sort(CanonicalMembers(block.members), MemberKey);
    CanonicalObject(block);
    StringMemberReads(written, name);
    WrittenFirstValue(block.members, name);
  }

  lemma CanonicalIsPlain(v: Json)
    requires v.Object? && PlainKeys(v)
    ensures PlainKeysMembers(Sort(CanonicalMembers(v.members), MemberKey))
  {
    hide PlainKeys, PlainKeysMembers, Canonical, CanonicalMembers, Sort, Names;
    NamesOfCanonical(v);
    PlainNamesArePlainKeys(v);
    PlainNamesArePlainKeys(Canonical(v));
    CanonicalObject(v);
    PlainObject(Canonical(v));
  }

  /** The version gate reads the payload's schema block, wherever it stands. */
  lemma VersionDeclared(payload: Json, block: Json, signature: string, i: nat)
    requires IsPart(payload) && IsPart(block) && payload.Object?
    requires OnlyName(payload.members, "schema", i) && payload.members[i].1.Object? && PlainKeys(payload.members[i].1)
    ensures DeclaredSchemaVersion(Document(payload, block, signature)) == VersionRead(payload.members[i].1)
  {
    hide Flat, PlainKeys, PlainKeysMembers, Names, ObjectMember, IntMember, Canonical, Sort, Searchable, CanonicalText,
         VersionRead, CanonicalMembers;
    var schema := payload.members[i].1;
    CanonicalPart(payload);
    CanonicalPart(block);
    DocumentIsCanonical(payload, signature, block);
    var top := TopMembers(Canonical(payload), signature, Canonical(block));
    TopNames(Canonical(payload), signature, Canonical(block));
    TopLevelKeys();
    CanonicalObject(payload);
    CanonicalObject(schema);
    ObjectMemberFindsOnlyName(top, "payload", 0);
    var j := CanonicalOnlyName(payload.members, "schema", i);
    CanonicalIsPlain(payload);
    SchemaKey();
    ObjectMemberFindsOnlyName(Canonical(payload).members, "schema", j);
    CanonicalIsPlain(schema);
    VersionIsRead(schema);
  }

  /** The other gates read the strings of the verification block. */
  lemma BlockDeclared(payload: Json, block: Json, signature: string, name: string)
    requires IsPart(payload) && IsPart(block) && block.Object?
    ensures VerificationMember(Document(payload, block, signature), name) == BlockRead(block, name)
  {
    hide Flat, PlainKeys, PlainKeysMembers, Names, ObjectMember, StringMember, Canonical, Sort, Searchable,
         CanonicalText, OnlyName, BlockRead, CanonicalMembers;
    CanonicalPart(payload);
    CanonicalPart(block);
    DocumentIsCanonical(payload, signature, block);
    var top := TopMembers(Canonical(payload), signature, Canonical(block));
    TopNames(Canonical(payload), signature, Canonical(block));
    TopLevelKeys();
    CanonicalObject(block);
    ObjectMemberFindsOnlyName(top, "verification", 2);
    CanonicalIsPlain(block);
    BlockIsRead(block, name);
  }

  // ----- the verdict

  /** Key and signature decode to their sizes, and the key accepts the signature for the digest of the content. */
  predicate SignatureHolds(crypto: Crypto, payload: Json, block: Json, keyHex: string, signature: string) {
    match (DecodeFixed(keyHex, 32), DecodeFixed(signature, 64))
    case (Some(key), Some(bytes)) =>
      crypto.verifies(key, crypto.textDigest(CanonicalText(Content(payload, block))), bytes)
    case _ => false
  }

  /**
   The verdict on every document of a payload with a schema block, a verification block and a signature: each error
   exactly when its check is the first to fail, in this order.
   */
  lemma VerdictIs(crypto: Crypto, payload: Json, block: Json, signature: string, i: nat)
    requires IsPart(payload) && IsPart(block) && Plain(signature) && payload.Object? && block.Object?
    requires OnlyName(payload.members, "schema", i) && payload.members[i].1.Object? && PlainKeys(payload.members[i].1)
    ensures var verdict := Verify(crypto, Document(payload, block, signature));
            var version := FirstValue(payload.members[i].1.members, "schema_version");
            var algorithm, key := FirstValue(block.members, "algorithm"), FirstValue(block.members, "public_key");
            if version != Some(Int(1)) then verdict == Err(UnsupportedVersion)
            else if algorithm != Some(Str("Ed25519")) then verdict == Err(UnsupportedAlgorithm)
            else match key
              case Some(Str(hex)) =>
                if SignatureHolds(crypto, payload, block, Escape(hex), signature) then verdict == Ok(())
                else verdict == Err(InvalidSignature)
              case _ => verdict == Err(MissingVerificationKey)
  {
    hide Document, DeclaredSchemaVersion, VerificationMember, ReconstructSigned, FirstValue, DecodeFixed, Escape,
         CanonicalText, Content, IsPart, OnlyName, PlainKeys, Plain;
    VersionDeclared(payload, block, signature, i);
    BlockDeclared(payload, block, signature, "algorithm");
    BlockDeclared(payload, block, signature, "public_key");
    Reconstructs(payload, block, signature);
    match FirstValue(block.members, "algorithm") {
      case Some(Str(text)) => WrittenAlgorithm(text);
      case _ =>
    }
  }

  lemma WrittenAlgorithm(text: string)
    ensures Escape(text) == ALGORITHM <==> text == "Ed25519"
  {
    hide Escape;
    PlainAlgorithm();
    PlainEscape(ALGORITHM);
    if Escape(text) == ALGORITHM { EscapedTextDetermines(Escape(text) + "\"", 0, text, ALGORITHM); }
  }
}

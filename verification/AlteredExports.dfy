/**
 Signed documents in their own form, with the signature member behind the payload: acceptance is the signature check
 over payload and block, and another payload under the old signature is rejected.
 */
module AlteredExports {
  import opened Wrappers
  import opened Ordering
  import opened CanonicalJson
  import opened CanonicalLexing
  import opened CanonicalForm
  import opened SignedExport
  import opened ExportTheorems
  import opened VerifyExport

  /** What a signature covers. */
  function Content(payload: Json, verification: Json): Json {
    Object([("payload", payload), ("verification", verification)])
  }

  /** A canonical document with any payload, verification block and signature text. */
  function Document(payload: Json, verification: Json, signature: string): string {
    CanonicalText(Object([("payload", payload), ("verification", verification), ("signature", Str(signature))]))
  }

  /** A part of a document in which the names of the document's own members are not used. */
  ghost predicate IsPart(v: Json) {
    PlainKeys(v) && forall k :: k in {"payload", "signature", "verification"} ==> k !in Names(v)
  }

  /** Two texts with one digest. */
  predicate Collision(crypto: Crypto, a: string, b: string) {
    a != b && crypto.textDigest(a) == crypto.textDigest(b)
  }

  /** A signature made for the digest `m` that a key accepts for another digest `n`. */
  predicate Forged(crypto: Crypto, seed: Bytes, m: Bytes, key: Bytes, n: Bytes) {
    m != n && crypto.verifies(key, n, crypto.sign(seed, m))
  }

  lemma CanonicalPart(v: Json)
    requires IsPart(v)
    ensures IsPart(Canonical(v))
  {
    hide Names, PlainKeys, Canonical;
    NamesOfCanonical(v);
    PlainNamesArePlainKeys(v);
    PlainNamesArePlainKeys(Canonical(v));
  }

  /** The verifier takes a document apart into the text its signature should cover and the signature. */
  lemma Reconstructs(payload: Json, verification: Json, signature: string)
    requires IsPart(payload) && IsPart(verification) && Plain(signature)
    ensures ReconstructSigned(Document(payload, verification, signature))
         == Some((CanonicalText(Content(payload, verification)), signature))
  {
    hide Names, PlainKeys, Canonical, CanonicalText, ReconstructSigned, Flat, Plain;
    CanonicalPart(payload);
    CanonicalPart(verification);
    DocumentIsCanonical(payload, signature, verification);
    ReconstructsSigned(Canonical(payload), signature, Canonical(verification));
  }

  lemma SignableIsPart(payload: Json)
    requires Signable(payload)
    ensures IsPart(payload)
  {
    hide Names, PlainKeys;
  }

  lemma BlockIsPart(crypto: Crypto, key: Bytes)
    requires crypto.Lawful()
    ensures IsPart(VerificationBlock(crypto, key))
  {
    hide Names, PlainKeys, VerificationBlock;
    VerificationNames(crypto, key);
  }

  /** Both gates pass on a signable payload behind the exporter's verification block. */
  lemma GatesPass(crypto: Crypto, payload: Json, signature: string, key: Bytes)
    requires crypto.Lawful() && Signable(payload)
    ensures var document := Document(payload, VerificationBlock(crypto, key), signature);
            && DeclaredSchemaVersion(document) == Some(SCHEMA_VERSION)
            && DeclaredAlgorithm(document) == Some(ALGORITHM)
            && EmbeddedPublicKey(document) == Some(Hex(key))
  {
    hide Names, PlainKeys, Canonical, CanonicalText, Flat, VerificationBlock, DeclaredSchemaVersion,
         DeclaredAlgorithm, EmbeddedPublicKey, Hex;
    var block := VerificationBlock(crypto, key);
    SignableIsPart(payload);
    BlockIsPart(crypto, key);
    CanonicalPart(payload);
    CanonicalPart(block);
    DocumentIsCanonical(payload, signature, block);
    VersionGate(payload, signature, Canonical(block));
    VerificationGates(crypto, Canonical(payload), signature, key);
  }

  /**
   Acceptance is the signature: a document with a signable payload and the exporter's block for `key` is accepted
   exactly when key and signature have their sizes and the key accepts the signature for the digest of the
   content; every other one is an invalid signature.
   */
  lemma AcceptedExactly(crypto: Crypto, payload: Json, signature: string, key: Bytes)
    requires crypto.Lawful() && Signable(payload) && Plain(signature)
    ensures var bytes := DecodeFixed(signature, 64);
            Verify(crypto, Document(payload, VerificationBlock(crypto, key), signature))
            == if |key| == 32 && bytes.Some?
                  && crypto.verifies(key, crypto.textDigest(SignedText(crypto, payload, key)), bytes.value)
               then Ok(()) else Err(InvalidSignature)
  {
    hide IsPart, Signable, Document, ReconstructSigned, VerificationBlock, DeclaredSchemaVersion, DeclaredAlgorithm,
         EmbeddedPublicKey, Hex, FromHex, Plain, CanonicalText;
    SignableIsPart(payload);
    BlockIsPart(crypto, key);
    Reconstructs(payload, VerificationBlock(crypto, key), signature);
    GatesPass(crypto, payload, signature, key);
    HexRoundTrip(key);
  }

  lemma SignatureText(crypto: Crypto, payload: Json, seed: Bytes)
    requires crypto.Lawful()
    ensures Plain(SignatureHex(crypto, payload, seed))
    ensures DecodeFixed(SignatureHex(crypto, payload, seed), 64)
         == Some(crypto.sign(seed, crypto.textDigest(SignedText(crypto, payload, crypto.publicKey(seed)))))
  {
    hide SignedText, Hex, FromHex, Plain;
    HexRoundTrip(crypto.sign(seed, crypto.textDigest(SignedText(crypto, payload, crypto.publicKey(seed)))));
  }

  /** Payloads signed as the same text are the same value. */
  lemma SameTextSamePayload(payload: Json, altered: Json, block: Json)
    requires CanonicalText(Content(payload, block)) == CanonicalText(Content(altered, block))
    ensures SameValue(payload, altered)
  {
    hide Canonical, SameValue;
    CanonicalTextDetermines(Content(payload, block), Content(altered, block));
    CanonicalContent(payload, block);
    CanonicalContent(altered, block);
    SameCanonicalSameValue(payload, altered);
  }

  lemma CanonicalContent(payload: Json, block: Json)
    ensures Canonical(Content(payload, block))
         == Object([("payload", Canonical(payload)), ("verification", Canonical(block))])
  {
    hide KeyLess;
    var p, v: Member := ("payload", payload), ("verification", block);
    TopLevelKeys();
    CanonicalOfTwo(p, v);
    SortTwo(CanonicalMember(p), CanonicalMember(v));
  }

  /** And the other way round, if no object of theirs has a name twice. */
  lemma SamePayloadSameText(payload: Json, altered: Json, block: Json)
    requires DistinctNames(payload) && SameValue(payload, altered)
    ensures CanonicalText(Content(payload, block)) == CanonicalText(Content(altered, block))
  {
    hide Canonical, SameValue, DistinctNames, Flat;
    SameValueSameCanonical(payload, altered);
    CanonicalContent(payload, block);
    CanonicalContent(altered, block);
  }

  /** An altered payload under the old signature and block. */
  lemma OldSignature(crypto: Crypto, payload: Json, altered: Json, seed: Bytes)
    requires crypto.Lawful() && Signable(altered)
    ensures var key := crypto.publicKey(seed);
            var a, b := SignedText(crypto, payload, key), SignedText(crypto, altered, key);
            Verify(crypto, Document(altered, VerificationBlock(crypto, key), SignatureHex(crypto, payload, seed)))
            == if a == b || Collision(crypto, a, b)
                  || Forged(crypto, seed, crypto.textDigest(a), key, crypto.textDigest(b))
               then Ok(()) else Err(InvalidSignature)
  {
    hide Signable, SignedText, SignatureHex, Document, Verify, VerificationBlock, DecodeFixed, Plain;
    var key := crypto.publicKey(seed);
    SignatureText(crypto, payload, seed);
    AcceptedExactly(crypto, altered, SignatureHex(crypto, payload, seed), key);
  }

  /**
   An altered payload under the old signature and block is accepted exactly when it is the same value, or the two
   signed texts collide, or the signature is accepted for a digest it was not made for. Otherwise it is an invalid
   signature.
   */
  lemma AlteredPayloadRejected(crypto: Crypto, payload: Json, altered: Json, seed: Bytes)
    requires crypto.Lawful() && Signable(altered) && DistinctNames(payload)
    ensures var key := crypto.publicKey(seed);
            var a, b := SignedText(crypto, payload, key), SignedText(crypto, altered, key);
            Verify(crypto, Document(altered, VerificationBlock(crypto, key), SignatureHex(crypto, payload, seed)))
            == if SameValue(payload, altered) || Collision(crypto, a, b)
                  || Forged(crypto, seed, crypto.textDigest(a), key, crypto.textDigest(b))
               then Ok(()) else Err(InvalidSignature)
  {
    hide Signable, DistinctNames, SameValue, CanonicalText, SignatureHex, Document, Verify, VerificationBlock;
    var key := crypto.publicKey(seed);
    var block := VerificationBlock(crypto, key);
    OldSignature(crypto, payload, altered, seed);
    if SameValue(payload, altered) { SamePayloadSameText(payload, altered, block); }
    if CanonicalText(Content(payload, block)) == CanonicalText(Content(altered, block)) {
      SameTextSamePayload(payload, altered, block);
    }
  }
}

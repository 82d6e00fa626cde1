/** The signed JSON export and its verifier (src/signed_json.rs). */
module SignedExport {
  import opened Wrappers
  import opened Texts
  import opened Ordering
  import opened Corpora
  import opened CanonicalJson
  import opened Scanners

  type Byte = x: int | 0 <= x < 256
  type Bytes = seq<Byte>

  /** The SDK's scores, already rendered: the exporter carries the ratios, it does not compute them. */
  datatype ControlScore = ControlScore(controlId: string, ruleId: string, ratio: string)
  datatype FrameworkScore = FrameworkScore(frameworkId: string, ratio: string, controls: seq<ControlScore>)
  datatype EnvironmentScore = EnvironmentScore(ratio: string, incomplete: bool, frameworks: seq<FrameworkScore>)

  /** The signature scheme and the content digest, as far as the exporter and verifier use them. */
  datatype Crypto = Crypto(
    publicKey: Bytes -> Bytes,
    sign: (Bytes, Bytes) -> Bytes,
    verifies: (Bytes, Bytes, Bytes) -> bool,
    textDigest: string -> Bytes,
    keyDigestHex: Bytes -> string)
  {
    /** Key and signature sizes, hex digests, and that a key's own signatures verify. */
    ghost predicate Lawful() {
      && (forall seed :: |publicKey(seed)| == 32)
      && (forall seed, digest :: |sign(seed, digest)| == 64)
      && (forall seed, digest :: verifies(publicKey(seed), digest, sign(seed, digest)))
      && (forall key :: |keyDigestHex(key)| >= KEY_ID_HEX_LEN)
    }
  }

  const SCHEMA_FORMAT := "sovri.compliance-export/v1"
  const SCHEMA_VERSION: Int64 := 1
  const ALGORITHM := "Ed25519"
  const KEY_ID_HEX_LEN: nat := 16

  // ----- the payload

  function JsonEach<T>(items: seq<T>, f: T -> Json): (r: seq<Json>)
    ensures |r| == |items| && forall i :: 0 <= i < |r| ==> r[i] == f(items[i])
  {
    if |items| == 0 then [] else [f(items[0])] + JsonEach(items[1..], f)
  }

  function FrameworkRecord(f: Framework): Json {
    Object([("id", Str(f.id)), ("version", Str(f.version)), ("source_url", Str(f.sourceUrl))])
  }

  function IdRecord(c: Control): Json {
    Object([("id", Str(c.id))])
  }

  function EvidenceMember(e: Evidence): Json {
    Object([
      ("id", Str(e.id)), ("integrity", Str(e.integrity)), ("locator", Str(e.location)),
      ("redaction_status", Str(RedactionStatus(e.classification))), ("type", Str(e.kind))])
  }

  function ScopeKey(scope: Option<string>): Key {
    match scope
    case None => []
    case Some(f) => [f]
  }

  /** By control id, then rule id, then framework, an unscoped result first. */
  function ScopedKey(s: ScopedResult): Key {
    [s.result.controlId, s.result.ruleId] + ScopeKey(s.frameworkId)
  }

  function OrderedScopedResults(results: seq<ScopedResult>): seq<ScopedResult> {
    Sort(results, ScopedKey)
  }

  function DerivedId(scope: Option<string>, r: ControlResult): string {
    match scope
    case Some(f) => f + ":" + r.controlId + ":" + r.ruleId
    case None => r.controlId + ":" + r.ruleId
  }

  function ResultMember(s: ScopedResult): Json {
    var members := [
      ("control_id", Str(s.result.controlId)), ("id", Str(DerivedId(s.frameworkId, s.result))),
      ("rule_id", Str(s.result.ruleId)), ("status", Str(Label(s.result.status)))];
    match s.frameworkId
    case None => Object(members)
    case Some(f) => Object(members + [("framework_id", Str(f))])
  }

  function CataloguedControl(controls: seq<Control>, frameworkId: string, controlId: string): (string, string) {
    if |controls| == 0 then ("", "")
    else if controls[0].frameworkId == frameworkId && controls[0].id == controlId
    then (controls[0].severity, controls[0].reference)
    else CataloguedControl(controls[1..], frameworkId, controlId)
  }

  function FrameworkSourceUrl(frameworks: seq<Framework>, frameworkId: string): string {
    if |frameworks| == 0 then ""
    else if frameworks[0].id == frameworkId then frameworks[0].sourceUrl
    else FrameworkSourceUrl(frameworks[1..], frameworkId)
  }

  function GapMember(gap: (string, ControlResult), controls: seq<Control>, frameworks: seq<Framework>): Json {
    var (f, r) := gap;
    var (severity, reference) := CataloguedControl(controls, f, r.controlId);
    Object([
      ("control_id", Str(r.controlId)), ("framework_id", Str(f)), ("id", Str(DerivedId(Some(f), r))),
      ("reference", Str(reference)), ("rule_id", Str(r.ruleId)), ("severity", Str(severity)),
      ("source_url", Str(FrameworkSourceUrl(frameworks, f))), ("status", Str(Label(r.status)))])
  }

  /** The gaps the export lists, in its order. */
  function ExportedGaps(results: seq<ScopedResult>): seq<(string, ControlResult)> {
    CollectGaps(OrderedScopedResults(results))
  }

  function FrameworkScoreRecord(f: FrameworkScore): Json {
    Object([("framework_id", Str(f.frameworkId)), ("score", Str(f.ratio))])
  }

  function ControlScoreRecord(c: ControlScore): Json {
    Object([("control_id", Str(c.controlId)), ("rule_id", Str(c.ruleId)), ("score", Str(c.ratio))])
  }

  function FrameworkScoreKey(f: FrameworkScore): Key {
    [f.frameworkId]
  }

  function ControlScoreKey(c: ControlScore): Key {
    [c.controlId, c.ruleId]
  }

  function AllControlScores(frameworks: seq<FrameworkScore>): seq<ControlScore> {
    if |frameworks| == 0 then [] else frameworks[0].controls + AllControlScores(frameworks[1..])
  }

  function ScoresObject(score: EnvironmentScore): Json {
    Object([
      ("control",
       Array(JsonEach(Sort(AllControlScores(score.frameworks), ControlScoreKey), ControlScoreRecord))),
      ("environment", Str(score.ratio)),
      ("framework", Array(JsonEach(Sort(score.frameworks, FrameworkScoreKey), FrameworkScoreRecord))),
      ("incomplete", Bool(score.incomplete))])
  }

  function SchemaBlock(): Json {
    Object([("format", Str(SCHEMA_FORMAT)), ("schema_version", Int(SCHEMA_VERSION))])
  }

  function Payload(corpus: Corpus, score: EnvironmentScore): Json {
    Object(PayloadMembers(corpus, score))
  }

  function PayloadMembers(corpus: Corpus, score: EnvironmentScore): seq<Member> {
    [("schema", SchemaBlock()),
     ("scan", Object([("executed_at", Str(corpus.executedAt)), ("id", Str(corpus.runId))])),
     ("frameworks", Array(JsonEach(corpus.frameworks, FrameworkRecord))),
     ("controls", Array(JsonEach(corpus.controls, IdRecord))),
     ("results", Array(JsonEach(OrderedScopedResults(corpus.results), ResultMember))),
     ("gaps", Array(JsonEach(ExportedGaps(corpus.results),
                             g => GapMember(g, corpus.controls, corpus.frameworks)))),
     ("evidence", Array(JsonEach(corpus.evidence, EvidenceMember))),
     ("scores", ScoresObject(score))]
  }

  // ----- hexadecimal

  function HexByte(b: Byte): string {
    [HexDigit(b / 16), HexDigit(b % 16)]
  }

  function Hex(bytes: Bytes): string {
    if |bytes| == 0 then "" else HexByte(bytes[0]) + Hex(bytes[1..])
  }

  method ToHex(bytes: Bytes) returns (out: string)
    ensures out == Hex(bytes)
  {
    out := "";
    for i := 0 to |bytes|
      invariant out == Hex(bytes[..i])
    {
      HexAppend(bytes[..i], bytes[i]);
      PrefixStep(bytes, i);
      out := out + [HexDigit(bytes[i] / 16)];
      out := out + [HexDigit(bytes[i] % 16)];
    }
    assert bytes[..|bytes|] == bytes;
  }

  lemma {:induction false} HexAppend(bytes: Bytes, b: Byte)
    ensures Hex(bytes + [b]) == Hex(bytes) + HexByte(b)
  {
    var all := bytes + [b];
    if |bytes| == 0 {
      assert all[1..] == [] && all[0] == b;
    } else {
      assert all[1..] == bytes[1..] + [b] && all[0] == bytes[0];
      HexAppend(bytes[1..], b);
    }
  }

  /** `u8::from_str_radix` on two characters: it also reads a sign followed by one digit. */
  function ParseHexPair(a: char, b: char): Option<Byte> {
    match HexValue(b)
    case None => None
    case Some(low) =>
      if a == '+' then Some(low)
      else match HexValue(a)
        case None => None
        case Some(high) => Some(16 * (high % 16) + low % 16)
  }

  function FromHex(hex: string): Option<Bytes> {
    if |hex| == 0 then Some([])
    else if |hex| == 1 then None
    else match ParseHexPair(hex[0], hex[1])
      case None => None
      case Some(b) =>
        match FromHex(hex[2..])
        case None => None
        case Some(rest) => Some([b] + rest)
  }

  function DecodeFixed(hex: string, n: nat): Option<Bytes> {
    match FromHex(hex)
    case None => None
    case Some(bytes) => if |bytes| == n then Some(bytes) else None
  }

  // ----- export

  function KeyFingerprint(crypto: Crypto, key: Bytes): string
    requires crypto.Lawful()
  {
    "sha256:" + crypto.keyDigestHex(key)[..KEY_ID_HEX_LEN]
  }

  function VerificationBlock(crypto: Crypto, key: Bytes): Json
    requires crypto.Lawful()
  {
    Object([
      ("algorithm", Str(ALGORITHM)), ("key_id", Str(KeyFingerprint(crypto, key))),
      ("public_key", Str(Hex(key)))])
  }

  /** The text the signature covers: payload and verification block, without the signature. */
  function SignedText(crypto: Crypto, payload: Json, key: Bytes): string
    requires crypto.Lawful()
  {
    CanonicalText(Object([("payload", payload), ("verification", VerificationBlock(crypto, key))]))
  }

  function SignatureHex(crypto: Crypto, payload: Json, seed: Bytes): string
    requires crypto.Lawful()
  {
    var key := crypto.publicKey(seed);
    Hex(crypto.sign(seed, crypto.textDigest(SignedText(crypto, payload, key))))
  }

  /** A payload signed and written out. */
  function SignDocument(crypto: Crypto, payload: Json, seed: Bytes): string
    requires crypto.Lawful()
  {
    var key := crypto.publicKey(seed);
    CanonicalText(Object([
      ("payload", payload), ("verification", VerificationBlock(crypto, key)),
      ("signature", Str(SignatureHex(crypto, payload, seed)))]))
  }

  function Export(crypto: Crypto, corpus: Corpus, score: EnvironmentScore, seed: Bytes): string
    requires crypto.Lawful()
  {
    SignDocument(crypto, Payload(corpus, score), seed)
  }

  // ----- verification

  datatype VerifyError =
    UnsupportedVersion | UnsupportedAlgorithm | InvalidSignature | MissingVerificationKey

  const SIGNATURE_ANCHOR := "\"signature\":\""

  /** The document without its signature member, and the signature's hex text. */
  function ReconstructSigned(document: string): Option<(string, string)> {
    match Find(document, SIGNATURE_ANCHOR, 0)
    case None => None
    case Some(p) =>
      var start := p + |SIGNATURE_ANCHOR|;
      match Find(document, "\"", start)
      case None => None
      case Some(end) =>
        var hex := document[start..end];
        Some((RemoveFirst(document, "," + SIGNATURE_ANCHOR + hex + "\""), hex))
  }

  function DeclaredSchemaVersion(document: string): Option<Int64> {
    match ObjectMember(document, "payload")
    case None => None
    case Some(payload) =>
      match ObjectMember(payload, "schema")
      case None => None
      case Some(schema) => IntMember(schema, "schema_version")
  }

  function VerificationMember(document: string, key: string): Option<string> {
    match ObjectMember(document, "verification")
    case None => None
    case Some(block) => StringMember(block, key)
  }

  function DeclaredAlgorithm(document: string): Option<string> {
    VerificationMember(document, "algorithm")
  }

  function EmbeddedPublicKey(document: string): Option<string> {
    VerificationMember(document, "public_key")
  }

  function VerifySignature(crypto: Crypto, document: string): Result<(), VerifyError> {
    match ReconstructSigned(document)
    case None => Err(InvalidSignature)
    case Some((signedText, signatureHex)) =>
      match EmbeddedPublicKey(document)
      case None => Err(MissingVerificationKey)
      case Some(keyHex) =>
        match (DecodeFixed(keyHex, 32), DecodeFixed(signatureHex, 64))
        case (Some(key), Some(signature)) =>
          if crypto.verifies(key, crypto.textDigest(signedText), signature) then Ok(())
          else Err(InvalidSignature)
        case _ => Err(InvalidSignature)
  }

  function Verify(crypto: Crypto, document: string): Result<(), VerifyError> {
    if DeclaredSchemaVersion(document) != Some(SCHEMA_VERSION) then Err(UnsupportedVersion)
    else if DeclaredAlgorithm(document) != Some(ALGORITHM) then Err(UnsupportedAlgorithm)
    else VerifySignature(crypto, document)
  }
}

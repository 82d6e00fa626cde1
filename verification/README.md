# Verification model of the compliance agent

This project models the parts of the agent in which hand-written, stateful code has to agree with something simpler,
and proves that it does.

* **Canonical JSON and its verifier** (`CanonicalJson`, `Scanners`, `CanonicalLexing`, `CanonicalForm`,
  `SignedExport`, `ExportTheorems`, `VerifyExport`, `VerificationVerdicts`, `SignatureRemoval`, `AlteredExports`,
  `AcceptedDocuments`, `PayloadContents`, `ParsedExport`). The exporter writes a tree with sorted keys; the verifier
  never parses it but searches the text and cuts a member out. The lexical theorem says exactly when that is sound;
  the main results are that verification accepts every export, and exactly which texts it accepts under an export's
  signature; those of them that are compact JSON say what was signed, or have the signature member moved into the
  payload or the verification block. What an export says of its corpus is stated by member names, and carried to what
  a JSON parser reads from its text.
* **The JSON reader** (`JsonValues`, `JsonReader`, `JsonGrammar`, `JsonCompleteness`, `JsonSoundness`,
  `JsonRoundTrip`). A class with a moving position is proved equal to a specification, which accepts exactly the
  derivations of RFC 8259 without surrogate escapes and undoes the canonical writer. The grammar is written by code
  points and uses nothing of the reader.
* **The local database** (`Database`, `LocalDatabases`, `WriteTwice`, `RunIsolation`, `RunRoundTrip`,
  `EvidenceFields`, `RunReadBack`, `WriteOrder`, `ScoreAgreement`, `DerivedTables`, `GapAgreement`, `RowIds`,
  `Folds`). Tables are maps by primary key, one transaction is one step. The methods of the database class are proved
  equal to table functions, about which idempotence, isolation of runs, the exact round trip, what any other corpus
  reads back as, order independence and the agreement of derived tables are proved, for every reachable state.
* **Migrations** (`Migrations`, `MigrationEffects`, `MigrationPasses`, `MigrationProtocol`, `MigrationUpgrade`). Eight
  guarded steps over schema, ledger and version; a pass, which takes a database that has the columns of its version to
  version 8; and a system of any number of processes that check, lock, check again and apply.
* **The SQL tokeniser** (`SqlTokens`, `SqlRenderings`, `SqlDestruction`). Every text is a rendering of its tokens, and
  a migration is refused exactly when those contain a destructive statement on a protected table.
* **The PDF report** (`Pdf`, `PdfStreams`, `PdfFile`, `PdfObjects`, `PdfReader`, `PdfPages`). What the writer emits is
  read back from its bytes alone by a reader that follows the cross-reference table, the trailer, the page tree, the
  stream lengths and the text operators (sections 7.3, 7.5 and 7.7 of ISO 32000-1).

`Texts`, `Ordering`, `Corpora` and `Wrappers` hold what the parts share.

Conventions. Texts are sequences of Unicode scalar values; positions in them count characters, and only row ids and
PDF output count bytes. The loops of the program are methods with invariants; each is tied to a function of its
inputs, and the theorems are about those functions. Signing is a record of functions with the law that a signature
made with a seed verifies under its public key; the SDK is a record of its status descriptions and its validation of
results.

Where the code and its documentation differ, the code is followed: the length parsers of row ids accept a plus sign
and leading zeros, so an id that decodes need not be the one its components encode to; a result scoped to an empty
framework shares its row id with an unscoped one; only the first evidence reference of a result is stored; the gap
table deletes by an older id that can equal a current one when a rule id contains colons; the reporting order is
documented not to depend on the order of supply, but results of one control and rule keep the order they came in; the
verifier is documented to reject any change to the payload or the verification metadata, but the signature member is
cut out wherever it stands, so it may be moved into either.

## Model

| member | source | states |
|---|---|---|
| CanonicalJson.WriteValue | src/signed_json.rs:754-762 | Appends exactly the canonical text of the value: members in key order at every depth, arrays in order, no white space. |
| CanonicalJson.WriteObject | src/signed_json.rs:738-751 | Appends the canonical text of the object, whatever order its members are given in. |
| CanonicalJson.WriteArray | src/signed_json.rs:767-776 | Appends the canonical texts of the items, separated by commas. |
| CanonicalJson.WriteString | src/signed_json.rs:779-798 | Appends the string in quotes with each character escaped as the writer's table says. |
| CanonicalJson.SortCanonicalMembers | src/signed_json.rs:738-751 | Sorting members by key before canonicalising their values, as the writer does, or after gives the same members. |
| CanonicalForm.CanonicalTextIsTheValue | src/signed_json.rs:730-798 | For a tree with distinct names: two trees have the same canonical text if and only if they are the same value up to member order. |
| CanonicalForm.TextDetermines | src/signed_json.rs:754-798 | Two trees written at the same place of a text, each followed by its end or a delimiter, are the same tree. |
| CanonicalForm.EscapesAre | src/signed_json.rs:779-798 | By code point: quote, backslash, line feed, carriage return and tab have a two-character escape, other characters below space are `\u00` and two lower-case digits, every other one stands for itself. |
| CanonicalLexing.NameStandsExactlyAtMembers | src/signed_json.rs:730-798 | For a searchable key (no escapes, not starting with a comma, a closing bracket or a colon) and a tree in which no name ends in a quote and that key: the characters `"k":` stand at a position of the text if and only if a member named k starts there, whatever the string values contain. |
| CanonicalLexing.SearchIsExact | src/signed_json.rs:206-211 | The lexical theorem, with its exact condition: for a searchable key the characters stand exactly where members of that name start if and only if no member name anywhere ends in a quote and the key. |
| ExportTheorems.EscapedNameMisleads | src/signed_json.rs:206-211 | Where the condition fails the search goes wrong: in an object whose one name is a quote and k, the search for k returns that member's object, though nothing is named k. |
| CanonicalLexing.ValueEndsWhereWritten | src/signed_json.rs:306-317 | For every tree and any text behind it (a delimiter or the end behind a scalar), the value scanner started at the tree's first character stops at its last one. |
| CanonicalLexing.ContainerEndsWhereWritten | src/signed_json.rs:321-352 | The depth and in-string scan of a container ends exactly where the recursive writer closed it. |
| CanonicalLexing.StringEndsAtQuote | src/signed_json.rs:285-303 | Scanning an escaped string finds the closing quote the writer wrote and no earlier one. |
| Scanners.CompactContainerEnd | src/signed_json.rs:321-352 | The scan loop with its depth, in-string and escaped variables computes the scanner function, for any text. |
| Scanners.CompactStringAt | src/signed_json.rs:285-303 | The loop returns the raw content and closing quote of the string at a position, or nothing. |
| Scanners.CompactObjectStringMember | src/signed_json.rs:215-245 | The cursor loop finds the first direct member with the key and returns it if it is a string, for any text. |
| Scanners.CompactObjectIntMember | src/signed_json.rs:249-281 | The cursor loop finds the first direct member with the key and returns it if it is an unsigned run of digits that fits a signed 64-bit integer. |
| ExportTheorems.ObjectMemberFindsOnlyName | src/signed_json.rs:206-211 | In a canonical object where a name is used once in the whole tree, the text search returns that member's object. |
| ExportTheorems.StringMemberReads | src/signed_json.rs:215-245 | On canonical text the cursor loop returns the first direct member of that name, and only if it is a string. |
| ExportTheorems.IntMemberReads | src/signed_json.rs:249-281 | On canonical text the cursor loop reads back the first direct integer member of that name. |
| SignedExport.ToHex | src/signed_json.rs:810-822 | The loop writes two lower-case hexadecimal digits for each byte. |
| VerifyExport.HexRoundTrip | src/signed_json.rs:356-370 | Decoding the hexadecimal text of any bytes gives the bytes back. |
| VerifyExport.FromHexExactly | src/signed_json.rs:360-370 | A text decodes to bytes if and only if it is two characters for each byte, and each pair is two digits of either case, or a plus sign and one digit, with that value. |
| VerifyExport.ReconstructsSigned | src/signed_json.rs:176-184 | Taking the signature member out of a signed document leaves exactly the text that was signed, and the signature's text is what was written. |
| VerifyExport.VersionGate | src/signed_json.rs:379-383 | The version gate reads back schema version 1 from a signed document. |
| VerifyExport.VerificationGates | src/signed_json.rs:188-202 | The algorithm and the public key are read back from the verification block. |
| VerifyExport.PayloadIsSignable | src/signed_json.rs:60-98 | Every corpus and score gives a payload in which the names the verifier searches for stand only where they must; what the payload says is the subject of `PayloadContents`. |
| VerifyExport.SignedDocumentVerifies | src/signed_json.rs:132-166 | Every document signed over a payload of that kind verifies. |
| VerifyExport.ExportVerifies | src/signed_json.rs:60-184 | Verification undoes export: for every corpus, score and seed the signed text, the signature text, the version, the algorithm and the signer's key are read back and `verify` accepts, under a sign/verify law. |
| VerificationVerdicts.VerdictIs | src/signed_json.rs:132-166 | The verdict on every document with a payload that has one schema block, a verification block and a signature, by the values that stand in it: unsupported version unless `schema_version` is 1, else unsupported algorithm unless `algorithm` is Ed25519, else a missing key unless `public_key` is a string, else accepted exactly when the signature holds. |
| PayloadContents.ResultsAreSaid | src/signed_json.rs:576-589 | By member names: item i of `results` has the control, rule and derived id of the i-th result in reporting order, its own status as a label the database reads back as that status, and its framework, or no `framework_id` when unscoped, and no other member. |
| PayloadContents.GapsAreSaid | src/signed_json.rs:595-613 | Item j of `gaps` has the identifiers and status of the j-th gap, severity and reference of the first control catalogued under its framework and id, the source of the first framework of its id, empty texts where there is none. |
| PayloadContents.GapsAreResults | src/signed_json.rs:518-533 | The gaps listed are the framework-scoped results that failed or warned, at strictly rising places of the list of results, and every such place is among them. |
| PayloadContents.CatalogueIsSaid | src/signed_json.rs:448-501 | `evidence` has id, integrity, locator, type and `redacted` exactly for secret and sensitive items; `frameworks` id, version and source; `controls` the id; one record each, in the corpus's order. |
| PayloadContents.ScoresAreSaid | src/signed_json.rs:656-712 | `scores` has the environment's ratio and flag, every framework's ratio ordered by framework id, and every control's ordered by control id, then rule id. |
| PayloadContents.HeadIsSaid | src/signed_json.rs:69-83 | `schema` names format and version 1, `scan` the corpus's run id and time. |
| PayloadContents.VerificationIsSaid | src/signed_json.rs:90-94 | The verification block has Ed25519, the public key in hexadecimal, and `sha256:` with the first sixteen digits of the key's digest. |
| PayloadContents.ReportingOrder | src/signed_json.rs:538-555 | The results are listed once each, none after one that precedes it by control id, rule id and framework id with unscoped first. |
| PayloadContents.SpreadsheetOrder | src/matrix.rs:854-863 | The spreadsheet lists them once each, none after one that precedes it by control id and rule id. |
| PayloadContents.SuppliedOrderShowsExactly | src/matrix.rs:850-863 | That reporting order does not depend on the order of supply holds exactly where no two different results have one control and rule; in the signed export exactly where none have one control, rule and scope. |
| ParsedExport.PathsAreRead | src/signed_json.rs:730-798 | For every tree with distinct names: reading its canonical form at a path of names and places gives what the tree has there. |
| ParsedExport.ExportIsRead | src/signed_json.rs:60-98 | A JSON parser reads the text of every export, and finds at every path under `payload` exactly what the payload has there. |
| ParsedExport.ResultsAreRead | src/signed_json.rs:60-98 | From the text of an export a JSON parser reads, for the i-th result in reporting order, its control id, its rule id and the label of its own status. |
| AlteredExports.AcceptedExactly | src/signed_json.rs:132-164 | A document with a signable payload and the exporter's block for a key is accepted if and only if key and signature have their sizes and the key accepts the signature for the digest of payload and block; else it is an invalid signature. |
| AlteredExports.AlteredPayloadRejected | src/signed_json.rs:110-122 | Another signable payload (one that has the schema block and does not use the names of the document's own members) in its own form under the old signature and block is accepted if and only if it is the same value, or the two signed texts have one digest, or the signature is accepted for a digest it was not made for; else it is an invalid signature. |
| SignatureRemoval.ReconstructsExactly | src/signed_json.rs:168-184 | The cut, for every text: it leaves a text without signature names, with a given signature, from exactly the documents that are this text with the signature member put in at some place. |
| SignatureRemoval.CutsTreeExactly | src/signed_json.rs:168-184 | The cut, for compact JSON: it leaves the text of a tree from exactly the trees that are this tree with the signature member put in behind some member of some object, at any depth. |
| AcceptedDocuments.AcceptedTextsExactly | src/signed_json.rs:110-166 | For every text, digest and scheme not failing: it carries an export's signature and is accepted if and only if it is the signed text with the signature member put in somewhere, both gates read, and the key in it accepts the signature for the signed digest. |
| AcceptedDocuments.AcceptedTreesExactly | src/signed_json.rs:132-184 | For compact JSON with members in any order: carrying the signature and being accepted is exactly being the signed tree with the signature member put in behind some member of some object; the gates then always read. |
| AcceptedDocuments.SaysSignedExactly | src/signed_json.rs:110-122 | Such a document says what was signed if and only if the signature member is one of its own, between payload and block or behind them; else it stands inside one of the two and changes it. |
| AcceptedDocuments.AlteredDocumentsExactly | src/signed_json.rs:121-122 | Which changed documents are accepted: of the compact JSON documents that carry an export's signature, those accepted although they do not say what was signed are exactly those whose signature member was moved into the payload or into the verification block. |
| AcceptedDocuments.MovedSignatureIsAccepted | src/signed_json.rs:121-122 | That any change is rejected is not so: for every export, its signature member moved to the end of the payload, or of the verification block, changes that part, and the document is accepted. |
| AcceptedDocuments.ExportIsOnePlace | src/signed_json.rs:158-166 | Of the documents with the signature member put in, the export itself is the one that has it right behind the payload. |
| AcceptedDocuments.AlteredExportRejected | src/signed_json.rs:110-166 | For every export and every text that carries its signature and is not the signed text with the signature member put in: it is not accepted, and it is an invalid signature where the gates read and a key is found. |
| JsonReader.JsonParser.ParseValue | src/scanners/docker.rs:943-955 | The method reads exactly the value the specification reads at the position, advances past it, and fails where the specification fails. |
| JsonReader.JsonParser.ParseNumber | src/scanners/docker.rs:966-1013 | Numbers: no leading zeros, digits after a point and after an exponent. |
| JsonReader.JsonParser.ParseString | src/scanners/docker.rs:1015-1029 | Strings: the decoded text and the position after the closing quote. |
| JsonReader.JsonParser.ParseEscape | src/scanners/docker.rs:1031-1051 | Escapes: the two-character ones and `\u` with four hexadecimal digits that name a scalar value. |
| JsonReader.JsonParser.ParseArray | src/scanners/docker.rs:1053-1073 | Arrays: the items up to the closing bracket, no trailing comma. |
| JsonReader.JsonParser.ParseObject | src/scanners/docker.rs:1075-1104 | Objects: names, colons and values up to the closing brace, no trailing comma. |
| JsonReader.ValueAt | src/scanners/docker.rs:943-955 | A value that is read ends strictly after its start and never past the end of the input, which is why the parser terminates. |
| JsonReader.Parse | src/scanners/docker.rs:910-923 | The whole input is one value with white space around it, or the parse fails. |
| JsonCompleteness.ReadsValue | src/scanners/docker.rs:943-955 | Completeness: the text of every derivation of the grammar is read with its meaning, in any context that can follow a value. |
| JsonSoundness.ValueAccepted | src/scanners/docker.rs:943-955 | Soundness: what the parser accepts at a position is the text of a derivation of the grammar. |
| JsonSoundness.ParserIsGrammar | src/scanners/docker.rs:910-1104 | A text parses to a value if and only if some derivation of RFC 8259, sections 2 to 7, renders to the text and denotes the value; the grammar is written by code points, with its own white space, escapes, digits and surrogates. |
| JsonSoundness.MeaningIsUnique | src/scanners/docker.rs:910-1104 | Two derivations of one text denote the same value, or neither denotes any. |
| JsonSoundness.SucceedsWithoutSurrogates | src/scanners/docker.rs:1031-1051 | On any JSON text the parser succeeds if and only if no `\u` escape names a surrogate. |
| JsonRoundTrip.ParseUndoesWrite | src/scanners/docker.rs:910-1104 | Parsing the canonical text of any tree consumes all of it and gives the tree back with members in key order and integers as numbers. |
| Ordering.SortSorts | src/signed_json.rs:538-546 | Sorting gives an ordered permutation. |
| Ordering.SortPermutation | src/signed_json.rs:538-546 | With distinct keys the sorted order does not depend on the order given. |
| Ordering.SortIsStable | src/matrix.rs:854-863 | Sorting keeps the order of items with one key. |
| Ordering.OrderForgottenExactly | src/matrix.rs:850-863 | The order of the input never shows after sorting if and only if items with one key are the same item. |
| Ordering.LessIsLexicographic | src/signed_json.rs:548-552 | One text is before another if and only if it is a proper prefix of it, or the first characters that differ decide by their code points. |
| Corpora.FromPersisted | src/matrix.rs:209-216 | A persisted classification name is read as the one classification it names. |
| DerivedTables.CollectedGaps | src/matrix.rs:966-970 | The collected gaps are exactly the framework-scoped results that failed or warned. |
| RowIds.ControlResultIdDecodes | src/local_db.rs:3211-3221 | Decoding an encoded result id gives the four components back for any content, and nothing when run, control or rule is empty. |
| RowIds.ComplianceGapIdDecodes | src/local_db.rs:3223-3234 | The same for gap ids, whose rule carries its length. |
| RowIds.TakesField | src/local_db.rs:3236-3242 | A length-prefixed field is taken whole, whatever colons or multi-byte characters it contains. |
| RowIds.LengthsAreRead | src/local_db.rs:3236-3242 | A length is read back exactly if it is below two to the power of 64. |
| RowIds.EncodingUndoesDecoding | src/local_db.rs:3211-3221 | For every id that decodes: encoding its components gives the id back if and only if its three lengths are written without sign and leading zero. |
| RowIds.GapEncodingUndoesDecoding | src/local_db.rs:3223-3234 | The same for gap ids and their four lengths. |
| RowIds.LaxLengthsDecode | src/local_db.rs:3236-3242 | Ids that do not come back exist for every identity: the id with a plus sign or a zero in front of it decodes to the same components. |
| RowIds.ControlResultRowIdInjective | src/local_db.rs:2171-2183 | Different result identities have different row ids, for any strings. |
| RowIds.ComplianceGapRowIdInjective | src/local_db.rs:2231-2244 | Different gap identities have different row ids, for any strings. |
| RowIds.ScoreSummaryRowIdInjective | src/local_db.rs:1461-1469 | Different pairs of run and framework have different row ids, for any strings. |
| RowIds.ScoreSummaryRowIdReads | src/local_db.rs:1461-1469 | A summary id says the byte length of the run before the run, and that of the framework before the framework. |
| RowIds.LegacyGapIdCollides | src/local_db.rs:2246-2252 | An older gap id equals a current one if and only if its framework and control are that id's run and framework and its rule spells out the rest, so never for a rule without a colon. |
| Database.ValidateCompletedCorpus | src/local_db.rs:1363-1409 | Names the frameworks that controls or results use and the corpus does not describe, else those described and not used, else accepts. |
| Database.ScoreSummaryCounts | src/local_db.rs:1471-1490 | The table of counts has each non-empty framework in use with the numbers of its passed, failed and warned results. |
| LocalDatabases.LocalDatabase.WriteCompletedCorpus | src/local_db.rs:1278-1409 | Accepts a corpus if and only if its run id is not blank and it describes exactly the frameworks its controls and results use; a refused corpus changes nothing, an accepted one changes every table as the write specification says. |
| LocalDatabases.LocalDatabase.WriteRunCatalog | src/local_db.rs:1785-1869 | Run stamp kept over an empty one, first framework version kept, the run's framework and control links replaced. |
| LocalDatabases.LocalDatabase.ClearRunOutcomes | src/local_db.rs:1871-1888 | A result or gap row is there afterwards if and only if it was there before and is not the run's, and it is unchanged. |
| LocalDatabases.LocalDatabase.WriteScoreSummaries | src/local_db.rs:1422-1459 | Replaces the run's summaries by the counts of the corpus. |
| LocalDatabases.LocalDatabase.WriteGapRows | src/local_db.rs:2185-2229 | Each gap's row under the older id goes and a row under its id stays or is added, in order. |
| LocalDatabases.LocalDatabase.WriteEvidenceRows | src/local_db.rs:2078-2169 | Metadata rows merge with what is there; each link is written over the metadata row as it is at that moment; which value each column gets is said by `EvidenceFields.StoredEvidence`. |
| LocalDatabases.LocalDatabase.BackfillScoreSummariesFromResults | src/local_db.rs:1663-1736 | Writes the recount of every run and framework with results and leaves other summaries, as `ScoreAgreement.BackfillIsExact` says row by row. |
| LocalDatabases.LocalDatabase.ReconstructExportCorpus | src/local_db.rs:1146-1213 | Reads a run back section by section in the order of the four queries; the first row that cannot be restored decides the error. |
| WriteTwice.StoredTwice | src/local_db.rs:1278-1360 | From any state and with duplicate keys, writing a corpus twice leaves what writing it once leaves. |
| WriteTwice.GapsTwice | src/local_db.rs:2185-2229 | The same for the gap table with its interleaved deletes and first-wins inserts. |
| WriteTwice.EvidenceTwice | src/local_db.rs:2089-2143 | The same for evidence metadata with its keep-old-locator and keep-digest-when-empty merges. |
| WriteTwice.LinkGet | src/local_db.rs:2144-2166 | There is a link of the run for exactly the evidence its items are about, of the last item over the evidence's final metadata row; column by column it is said by `EvidenceFields.StoredEvidence`. |
| EvidenceFields.StoredEvidence | src/local_db.rs:2089-2166 | Column by column, from any database: kind and locator of the link are those of the last item about the evidence; digest and classification, of link and metadata row, are those of the last item with a digest, else those that were there, else none and the first item's classification; the row keeps its owner and its locator, or takes the first one given. |
| EvidenceFields.EvidenceReadBack | src/local_db.rs:1181-1213 | After any write to any database the run reads back one evidence item for each id of the corpus, in order, with exactly these values, an unknown classification name as secret. |
| RunIsolation.ReplayedWellKeyed | src/local_db.rs:1278-1360 | In every database reached from a new one, each result row lies under the id that encodes it. |
| RunIsolation.WriteIsolated | src/local_db.rs:1146-1213 | Writing one run changes no other run's export, in any database in which no row of that run lies under an id that is written. |
| RunIsolation.OtherResultsExactly | src/local_db.rs:1290-1350 | In any database a write keeps all result rows of another run if and only if none of them lies under an id that is written. |
| RunIsolation.IsolatedExactly | src/local_db.rs:1146-1360 | In any database: a run that can be exported has the same export after another run's write if and only if none of its rows lies under an id that is written. |
| RunIsolation.WellKeyedLeavesRows | src/local_db.rs:2171-2183 | Where every row lies under the id that encodes it, as in every reachable database, no write meets a row of another run. |
| RunIsolation.OtherRunsKeepTheirExport | src/local_db.rs:1146-1360 | In every reachable database a run's export stays through any sequence of writes of other runs and backfills. |
| RunIsolation.MisplacedRowIsOverwritten | src/local_db.rs:1290-1350 | Without that it fails: a run with one restorable row under an id that another run writes is exported differently after the write. |
| RunRoundTrip.StorableComesBack | src/local_db.rs:1146-1213 | A storable corpus written to any database is read back with each section sorted. |
| RunRoundTrip.RoundTrip | src/local_db.rs:1146-1360 | Exactly the storable corpora (distinct keys, time stamps, no empty scope, at most one non-empty evidence reference, reasons where due and never blank, digests) come back from every database. |
| RunRoundTrip.LastWriteIsExported | src/local_db.rs:1146-1360 | After any history a run exports its last storable write, whatever happened to other runs since. |
| RunRoundTrip.StorableIsReadBack | src/local_db.rs:2018-2063 | A storable result that the SDK accepts is restored field by field. |
| RunReadBack.AnyCorpusIsReadBack | src/local_db.rs:1146-1213 | Any corpus, storable or not, from any database: the run reads back its time or the one it had, the last framework and control of each id in order, and the last result of each control, rule and framework in order, or the error of the first one that cannot be read. |
| RunReadBack.ReadBackIsOrdered | src/local_db.rs:1890-2016 | What is read back has frameworks by id, controls by framework and id, results by control, rule and framework, each once. |
| RunReadBack.ResultIsRead | src/local_db.rs:2018-2063 | Every column of a result read back: an empty scope as none, the first evidence reference if it is not empty, the run's time for a missing one, the status's description for a reason of white space only unless the result passed; it fails exactly without any time or when the SDK refuses that result. |
| RunReadBack.VersionIsKept | src/local_db.rs:1812-1820 | A framework's version stays if the table has one, and is that of the corpus's first item of its id otherwise. |
| RunReadBack.CatalogueIsKept | src/local_db.rs:1785-1869 | The table of controls grows by the corpus's controls and loses none, and no other run's stamp changes. |
| WriteOrder.OrderDoesNotMatter | src/local_db.rs:1278-1360 | With distinct keys and no id collision the tables depend only on which records the corpus holds. |
| WriteOrder.OrderMattersOnlyByCollision | src/local_db.rs:2185-2229 | For distinct keys: the order of records never matters, in any database, if and only if no gap's older id is another gap's current id. |
| WriteOrder.ColonFreeRulesDoNotCollide | src/local_db.rs:2231-2252 | Rule ids without a colon rule such collisions out. |
| ScoreAgreement.ScoresAgreeExactly | src/local_db.rs:1422-1490 | A write keeps the summaries equal to the recount if and only if no counted result comes before another with the same control, rule and framework. |
| ScoreAgreement.TallyCountsRows | src/local_db.rs:1471-1490 | The tally of a corpus is at least the number of rows left, and equal exactly when no counted result is overwritten. |
| ScoreAgreement.BackfillChangesNothing | src/local_db.rs:1663-1736 | Where the summaries agree with the results, the backfill changes nothing. |
| ScoreAgreement.BackfillIsExact | src/local_db.rs:1663-1736 | In every database: after a backfill each run and framework that stored results name has the recount under its id, no summary under another id changes, and all summaries agree if and only if none was stored under another id. |
| DerivedTables.DerivedTablesAgree | src/local_db.rs:1422-1490 | In every database reached by regular writes and backfills: summaries equal the recount, gap rows are exactly the framework-scoped failed and warned results, and a backfill changes nothing. |
| DerivedTables.SameGapsEverywhere | src/signed_json.rs:518-533 | After a regular write the gaps the signed export lists, those the spreadsheet lists and the run's gap rows agree. |
| DerivedTables.ListedGapColumns | src/local_db.rs:2185-2229 | The row of each listed gap has its run, its status as a label the database reads back, and its severity, control and rule. |
| DerivedTables.NoOtherGapRows | src/local_db.rs:2185-2229 | And the run has no gap row that the exports do not list. |
| GapAgreement.GapsAgreeExactly | src/local_db.rs:2185-2229 | A write keeps the gap rows in agreement with the results if and only if the gap rows that stay are those of the last results under their keys, no older id takes the row of such a result away, and none is the id of another run's gap row. |
| GapAgreement.AgreeThroughout | src/local_db.rs:1422-1490 | Summaries and gap rows agree with the results after every step of a history if and only if every accepted corpus meets, in the database it is written to, the conditions of the two exact results. |
| Migrations.CurrentPackagedSchemaVersion | src/local_db.rs:2287-2314 | Succeeds exactly on non-empty strictly ascending lists and returns their greatest version; an error names an adjacent pair that is out of order or equal. |
| Migrations.Connection.ApplyPackagedMigration | src/local_db.rs:2602-2666 | One migration: skipped when recorded, else schema, rows, ledger and version change together or not at all; what each does to the schema is said by `MigrationEffects`. |
| Migrations.Connection.ApplyPackagedMigrations | src/local_db.rs:2258-2270 | The loop is the sequential pass: each turn checks the ledger and the guard, and the first failure ends it. |
| Migrations.Connection.Open | src/local_db.rs:659-675 | Refuses newer databases, applies the pass, then checks the recorded version and its required columns. |
| MigrationEffects.BringsExactly | src/local_db.rs:2837-2980 | What each of the migrations 2 to 8 does to a schema, by tables and columns: afterwards exactly the columns it exists for are there besides those that were, and exactly its tables. |
| MigrationEffects.FailsExactly | src/local_db.rs:2837-2980 | Its schema changes fail exactly when a table it alters is missing, or, for the seventh, its column is there. |
| MigrationUpgrade.RequiredIs | src/local_db.rs:220-345 | The required columns of each schema version, written out by the version that first requires them. |
| MigrationUpgrade.EnabledExactly | src/local_db.rs:2514-2600 | In a database in order with the columns of its version: each migration is enabled exactly when it is above the version, its columns are not all there, and those it builds on are. |
| MigrationUpgrade.EveryVersionUpgrades | src/local_db.rs:659-675 | From every database in order at a version from 1 to 7 that has the columns of its version and lacks some of the last one, a pass in which rows stop no migration ends at version 8 with all required columns and every column there was, and the database opens. |
| MigrationUpgrade.OpenVerdict | src/local_db.rs:659-675 | What opening answers, for every database: refusal of a newer one, which stays as it is, a failed pass, and after a pass that went through exactly one of an unrecorded version, version zero, missing columns or no error. |
| MigrationUpgrade.FirstLayoutUpgrades | tests/local_db_r03_write_completed_corpus.rs:822-837 | So does a version 1 database in the older layout, with an owner column and no locators, classifications or link tables. |
| MigrationPasses.StaysDisabled | src/local_db.rs:2514-2600 | No later migration makes a guard true again that was false at its turn. |
| MigrationPasses.SecondPassChangesNothing | src/local_db.rs:2258-2270 | After a pass that went through, from any database, a second pass applies nothing. |
| MigrationPasses.ReopeningChangesNothing | src/local_db.rs:659-675 | A database that opened opens again, unchanged. |
| MigrationPasses.VersionsRiseExactly | src/local_db.rs:2653-2662 | From any database whose version is the highest recorded one: no turn that goes through lowers the version if and only if every first-enabled migration up to the version fails. |
| MigrationPasses.InOrderExactly | src/local_db.rs:2653-2662 | In a pass that goes through: no turn lowers the version if and only if no migration up to the version is enabled. |
| MigrationPasses.OutOfOrderVersionFalls | src/local_db.rs:2653-2662 | Out of order it falls: a valid database at version 8 with 1 and 8 recorded, whose complete schema still has the older owner column of the evidence table, opens and stands at version 6, with 1, 8, 2, 6 recorded. |
| MigrationProtocol.RunStaysOnTrajectory | src/local_db.rs:2602-2666 | In every interleaving of checks, commits, crashes and new processes the database stands on the one sequential trajectory. |
| MigrationProtocol.NothingRecordedTwice | src/local_db.rs:2618-2625 | No interleaving records a migration twice. |
| MigrationProtocol.DoneMeansOnePass | src/local_db.rs:2258-2270 | Once a process is done, schema, ledger, version and rows are those of one sequential pass. |
| MigrationProtocol.FailureMeansFailedPass | src/local_db.rs:2258-2270 | Once a process failed, the database is what the sequential pass leaves when it fails. |
| MigrationProtocol.VersionIsHighestRecorded | src/local_db.rs:2653-2662 | From a database in order, in every interleaving the version is the highest recorded one and never falls. |
| MigrationProtocol.NewDatabaseRuns | src/local_db.rs:2258-2270 | From a new database, in every interleaving the database is untouched or holds exactly what the first migration made, with version 1 recorded once and no other version ever. |
| SqlTokens.TokenizeSql | src/local_db.rs:2739-2780 | The loop over characters returns the tokens of the text. |
| SqlTokens.CollectQuotedIdentifier | src/local_db.rs:2805-2825 | The loop returns the identifier up to its terminator, a doubled quote standing for one, and where it ends. |
| SqlTokens.SkipBlockComment | src/local_db.rs:2796-2803 | The loop stops behind the first `*/`, or at the end. |
| SqlRenderings.TokensAreMeaning | src/local_db.rs:2739-2825 | For every proper rendering, with any comments, white space and quoting styles, the tokens are exactly those it stands for. |
| SqlRenderings.EveryTextIsRendered | src/local_db.rs:2739-2825 | Every text is a proper rendering, unclosed quotes and comments included, so the tokens of every text are settled. |
| SqlDestruction.CanonicalNames | src/local_db.rs:2831-2835 | A token's canonical name is a given table's if and only if the token is that name apart from the case of ASCII letters and quote characters around it, both by code point. |
| SqlDestruction.ProtectedAreSchemaTables | src/local_db.rs:3445-3450 | The protected names are exactly those of the tables that the migrations create in a new database. |
| SqlDestruction.OperationIffDestroys | src/local_db.rs:2668-2723 | At each token the search hits if and only if a DROP TABLE [IF EXISTS], ALTER TABLE … DROP (not CONSTRAINT) or ALTER TABLE … RENAME of a protected table starts there. |
| SqlDestruction.DestructiveMigrationOperation | src/local_db.rs:2668-2723 | Returns nothing if and only if the tokens contain no destructive statement on a protected table, else the description of the first one. |
| SqlDestruction.SpellingHidesNothing | src/local_db.rs:2668-2723 | Comments, spacing and quoting neither hide nor fake a destructive statement. |
| Pdf.CountingWriter.WriteEscapedPdfText | src/report.rs:1249-1269 | Appends the escaped text and counts its bytes. |
| Pdf.CountingWriter.WritePageContent | src/report.rs:1217-1235 | Appends the page's content stream. |
| Pdf.EscapedCharLen | src/report.rs:1241-1247 | The length table agrees with the bytes the escape writes, for every character. |
| Pdf.PageContentLen | src/report.rs:1200-1215 | The precomputed length is the number of bytes the content writer will emit. |
| Pdf.WritePdf | src/report.rs:1081-1143 | Writes the file whose objects, offsets and trailer the file specification gives, or nothing when the object count overflows. |
| PdfStreams.ReadsLine | src/report.rs:1249-1269 | A reader of literal strings gets each line back as its UTF-8 bytes, control characters without an escape as spaces. |
| PdfStreams.Utf8Injective | src/report.rs:1335-1338 | Different texts have different UTF-8 bytes, so a line read back is the line. |
| PdfStreams.PageShowsLines | src/report.rs:1217-1235 | A reader that obeys the text operators shows every line of a page, in order, from the left margin and in the selected font and size, each one line height below the one before. |
| PdfStreams.PagesShowLines | src/report.rs:1145-1152 | The streams of all pages together show every line of the report, in order, once. |
| PdfStreams.BaselinesAboveMargin | src/report.rs:1154-1159 | With the top baseline at or above the bottom margin no page shows a text below that margin, or left or right of the left one. |
| PdfStreams.BuiltInSettings | src/report.rs:1355-1369 | The built-in settings meet the conditions of the results on streams, margins and fonts: regular font names, the top baseline above the margin; a page has 50 lines. |
| PdfFile.XrefLeadsToObjects | src/report.rs:1129-1143 | For every k, cross-reference entry k is 20 bytes and holds the position where `k 0 obj` starts. |
| PdfFile.ReadsXrefTable | src/report.rs:1129-1143 | The position after `startxref` is that of `xref`, and the table says how many entries it has. |
| PdfFile.PageNumbersArePages | src/report.rs:1095-1127 | An object is a page if and only if its number is one of those the page tree lists. |
| PdfObjects.ReadsObject | src/report.rs:1081-1143 | A parser of names, integers, references, arrays and dictionaries gives every object back from its text, whatever follows that does not turn a number into a reference. |
| PdfReader.ReadsTrailer | src/report.rs:1129-1143 | The trailer is read behind the table, with `/Root` and a `/Size` that is the table's number of entries. |
| PdfReader.ReadsPages | src/report.rs:1095-1103 | From the trailer a reader gets to the catalogue, the page tree, its `/Kids` in order, and a `/Count` that is their number. |
| PdfPages.PageHasSizeAndFont | src/report.rs:1104-1117 | A reader finds on every page the page size as its media box, the page tree as its parent, and under the font name its texts select the Type 1 font of the settings. |
| PdfReader.StreamReads | src/report.rs:1118-1126 | Taking as many bytes as `/Length` says gives exactly the page content, with `endstream` behind it. |
| PdfReader.ReportReadsBack | src/report.rs:1081-1143 | Reading undoes writing: a reader that has the bytes only, and follows `startxref`, table, trailer, `/Root`, `/Pages`, `/Kids`, `/Contents` and `/Length`, gets every line of the report, in order and nothing else. |

## Left out

- SQLite itself: connections, busy time-outs, locking primitives, type affinity and failed statements; a transaction is one step or no step.
- The one-row reading steps of a guard: a guard's check is one atomic step, as is a transaction.
- Ties in `ORDER BY`: rows equal in every sort column come in the order of their row ids, which SQLite does not promise; such rows exist only outside the databases the program itself fills.
- Row effects of migrations 2, 5, 6 and 8 (their backfills): a function of the rows, the same for every process, that may also fail; only the schema effects are written out.
- The texts of the packaged migrations, and that the destructive-statement check lets them pass; the step of one migration starts behind that check.
- Caller-supplied migration lists: the pass is over the eight packaged ones.
- The older layout of `score_summaries` (missing or nullable columns and their repair), beyond the recount itself.
- Counts wider than 32 bits, which the program would not store; counts are unbounded here.
- `validate_corpus_reconstruction`, `read_linked_evidence` and the query methods over stored rows: each is a filter or a lookup in a table.
- Evidence store, scoring ratios and the validation inside the SDK: the SDK is not part of this model; scores are opaque data in the export.
- Ed25519, SHA-256 and the key fingerprint: functions with a law, not computations.
- Recursion depth: the writer and the reader recurse as deep as the tree, and running out of stack is not modelled.
- The order of an object's members of one name, which the program's unstable sort leaves open; it writes no such object, and the model keeps the order given.
- Wording of error messages; errors carry what the message names.
- Input and output errors of the PDF sink and of files; the counting writer's sink takes every byte.
- PDF settings with a line height of zero, on which pagination would divide by zero; the built-in settings have 14.
- SpreadsheetML layout and XML escaping, the corpus PDF's own list of gaps (it also lists unscoped results), command lines, and host scanners.
- MigrationUpgrade.EveryVersionUpgrades: asks that tables have their ids, that a table with the columns a guard looks at has that whole group, and that link tables have their keys; where a layout lacks these, only what single migrations do is said.
- DerivedTables.DerivedTablesAgree: for the gap table it asks distinct result keys, no empty framework scope and no colon in rule ids; the exact conditions are those of GapAgreement.AgreeThroughout.
- PdfStreams.PageShowsLines: asks a font resource name of regular characters, as a PDF name needs; the built-in one is F1.
- PdfPages.PageHasSizeAndFont: asks the same of the base font's name; the built-in one is Helvetica.
- AcceptedDocuments.AcceptedTextsExactly: is about documents that carry an export's signature; a document signed anew with another key is accepted by design, since the key is read from the document.
- AcceptedDocuments.AlteredDocumentsExactly: what a document says is defined for compact JSON; of other texts it is only said which are accepted.
- PdfObjects.ReadsObject: literal and hexadecimal strings, reals, booleans and comments are not part of the parser; the writer puts none of them into a dictionary.

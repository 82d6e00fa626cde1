/** What a JSON parser reads from a signed export: every value of the document stands under its path of names. */
module ParsedExport {
  import opened Wrappers
  import opened Ordering
  import opened Corpora
  import opened CanonicalJson
  import opened CanonicalForm
  import opened SignedExport
  import opened PayloadContents
  import opened JsonRoundTrip
  import Values = JsonValues
  import Reader = JsonReader

  /** One step into a document: the member of a name, or the item at a place. */
  datatype Step = Under(name: string) | Nth(index: nat)

  /** The value a document has at a path. */
  function Reach(v: Json, path: seq<Step>): Option<Json>
    decreases path
  {
    if |path| == 0 then Some(v)
    else match (v, path[0])
      case (Object(members), Under(name)) =>
        (match Named(members, name)
         case None => None
         case Some(w) => Reach(w, path[1..]))
      case (Array(items), Nth(i)) => if i < |items| then Reach(items[i], path[1..]) else None
      case _ => None
  }

  function EntryNamed(entries: seq<(string, Values.JsonValue)>, name: string): Option<Values.JsonValue> {
    if |entries| == 0 then None
    else if entries[0].0 == name then Some(entries[0].1)
    else EntryNamed(entries[1..], name)
  }

  /** The value a parsed text has at a path. */
  function Follow(v: Values.JsonValue, path: seq<Step>): Option<Values.JsonValue>
    decreases path
  {
    if |path| == 0 then Some(v)
    else match (v, path[0])
      case (Object(entries), Under(name)) =>
        (match EntryNamed(entries, name)
         case None => None
         case Some(w) => Follow(w, path[1..]))
      case (Array(items), Nth(i)) => if i < |items| then Follow(items[i], path[1..]) else None
      case _ => None
  }

  function Read(found: Option<Json>): Option<Values.JsonValue> {
    match found
    case None => None
    case Some(w) => Some(Seen(Canonical(w)))
  }

  lemma DistinctAreOwn(members: seq<Member>)
    ensures DistinctKeys(members, MemberKey) <==> OwnNames(members)
  {
    if DistinctKeys(members, MemberKey) {
      forall i, j | 0 <= i < j < |members| ensures members[i].0 != members[j].0 {
        assert MemberKey(members[i]) != MemberKey(members[j]);
      }
    } else {
      var i, j :| 0 <= i < j < |members| && MemberKey(members[i]) == MemberKey(members[j]);
      assert MemberKey(members[i])[0] == MemberKey(members[j])[0];
    }
  }

  lemma {:induction false} SeenNames(members: seq<Member>, name: string)
    ensures EntryNamed(SeenMembers(members), name)
            == match Named(members, name) case None => None case Some(w) => Some(Seen(w))
  {
    hide Seen;
    if |members| > 0 { SeenNames(members[1..], name); }
  }

  lemma {:induction false} CanonicalNames(members: seq<Member>, name: string)
    ensures Named(CanonicalMembers(members), name)
            == match Named(members, name) case None => None case Some(w) => Some(Canonical(w))
  {
    hide Canonical;
    if |members| > 0 { CanonicalNames(members[1..], name); }
  }

  lemma {:induction false} NamedIsMember(members: seq<Member>, name: string)
    ensures match Named(members, name)
            case Some(w) => (name, w) in members
            case None => forall w :: (name, w) !in members
  {
    if |members| > 0 {
      assert members == [members[0]] + members[1..];
      if members[0].0 != name { NamedIsMember(members[1..], name); }
    }
  }

  /** With each name once, looking up does not depend on the order. */
  lemma NamedPermutation(a: seq<Member>, b: seq<Member>, name: string)
    requires multiset(a) == multiset(b) && OwnNames(b)
    ensures Named(a, name) == Named(b, name)
  {
    NamedIsMember(a, name);
    match Named(a, name)
    case Some(w) =>
      assert (name, w) in multiset(b);
      var i :| 0 <= i < |b| && b[i] == (name, w);
      NamedAt(b, i);
    case None =>
      NamedIsMember(b, name);
      forall w ensures (name, w) !in b { assert (name, w) !in multiset(a); }
  }

  lemma SortedNames(members: seq<Member>, name: string)
    requires DistinctKeys(members, MemberKey)
    ensures Named(Sort(CanonicalMembers(members), MemberKey), name)
            == match Named(members, name) case None => None case Some(w) => Some(Canonical(w))
  {
    hide Canonical, Sort;
    var c := CanonicalMembers(members);
    CanonicalKeepsDistinct(members);
    DistinctAreOwn(c);
    SortSorts(c, MemberKey);
    NamedPermutation(Sort(c, MemberKey), c, name);
    CanonicalNames(members, name);
  }

  lemma {:induction false} SeenItemsAt(items: seq<Json>, i: nat)
    ensures |SeenItems(items)| == |items|
    ensures i < |items| ==> SeenItems(items)[i] == Seen(items[i])
  {
    if |items| > 0 { SeenItemsAt(items[1..], if i == 0 then 0 else i - 1); }
  }

  /** A parser finds at every path what the document has there, whatever order the members were given in. */
  lemma {:induction false} PathsAreRead(v: Json, path: seq<Step>)
    requires DistinctNames(v)
    ensures Follow(Seen(Canonical(v)), path) == Read(Reach(v, path))
    decreases path
  {
    hide Sort, DistinctKeys;
    if |path| > 0 {
      match (v, path[0])
      case (Object(members), Under(name)) =>
        var sorted := Sort(CanonicalMembers(members), MemberKey);
        SortedNames(members, name);
        SeenNames(sorted, name);
        NamedIsMember(members, name);
        if Named(members, name).Some? {
          var w := Named(members, name).value;
          var i :| 0 <= i < |members| && members[i] == (name, w);
          assert DistinctInMember(members[i]);
          PathsAreRead(w, path[1..]);
        }
      case (Array(items), Nth(i)) =>
        SeenItemsAt(CanonicalItems(items), i);
        if i < |items| {
          CanonicalItemsAt(items, i);
          PathsAreRead(items[i], path[1..]);
        }
      case _ =>
    }
  }

  // ----- the document of an export

  lemma RecordIsDistinct(members: seq<Member>)
    requires OwnNames(members) && forall m :: m in members ==> m.1.Str? || m.1.Bool? || m.1.Int?
    ensures DistinctNames(Object(members))
  {
    DistinctAreOwn(members);
    forall i | 0 <= i < |members| ensures DistinctInMember(members[i]) { assert members[i] in members; }
  }

  lemma RecordsAreDistinct<T(!new)>(items: seq<T>, f: T -> Json)
    requires forall x :: DistinctNames(f(x))
    ensures DistinctNames(Array(JsonEach(items, f)))
  {
  }

  lemma OutcomesAreDistinct(s: ScopedResult, gap: (string, ControlResult), corpus: Corpus)
    ensures DistinctNames(ResultMember(s)) && DistinctNames(GapMember(gap, corpus.controls, corpus.frameworks))
  {
    hide DistinctNames, OwnNames;
    ResultOwnNames(s);
    GapNames(gap, corpus.controls, corpus.frameworks);
    RecordIsDistinct(ResultMember(s).members);
    RecordIsDistinct(GapMember(gap, corpus.controls, corpus.frameworks).members);
  }

  lemma ResultOwnNames(s: ScopedResult)
    ensures OwnNames(ResultMember(s).members)
  {
    hide DerivedId, Label;
    var m := ResultMember(s).members;
    assert m[0].0 == "control_id" && m[1].0 == "id" && m[2].0 == "rule_id" && m[3].0 == "status";
    if s.frameworkId.Some? { assert m[4].0 == "framework_id"; }
  }

  lemma CatalogueIsDistinct(e: Evidence, f: Framework, c: Control)
    ensures DistinctNames(EvidenceMember(e)) && DistinctNames(FrameworkRecord(f)) && DistinctNames(IdRecord(c))
  {
    hide DistinctNames;
    var m, n := EvidenceMember(e).members, FrameworkRecord(f).members;
    assert m[0].0 == "id" && m[1].0 == "integrity" && m[2].0 == "locator" && m[3].0 == "redaction_status"
           && m[4].0 == "type";
    assert n[0].0 == "id" && n[1].0 == "version" && n[2].0 == "source_url";
    RecordIsDistinct(m);
    RecordIsDistinct(n);
    RecordIsDistinct(IdRecord(c).members);
  }

  lemma ScoresAreDistinct(f: FrameworkScore, c: ControlScore)
    ensures DistinctNames(FrameworkScoreRecord(f)) && DistinctNames(ControlScoreRecord(c))
  {
    hide DistinctNames;
    var m, n := FrameworkScoreRecord(f).members, ControlScoreRecord(c).members;
    assert m[0].0 == "framework_id" && m[1].0 == "score";
    assert n[0].0 == "control_id" && n[1].0 == "rule_id" && n[2].0 == "score";
    RecordIsDistinct(m);
    RecordIsDistinct(n);
  }

  lemma ObjectIsDistinct(members: seq<Member>)
    requires OwnNames(members) && forall m :: m in members ==> DistinctNames(m.1)
    ensures DistinctNames(Object(members))
  {
    DistinctAreOwn(members);
    forall i | 0 <= i < |members| ensures DistinctInMember(members[i]) { assert members[i] in members; }
  }

  lemma ScoreObjectIsDistinct(score: EnvironmentScore)
    ensures DistinctNames(ScoresObject(score))
  {
    hide DistinctNames, FrameworkScoreRecord, ControlScoreRecord;
    forall f ensures DistinctNames(FrameworkScoreRecord(f)) { ScoresAreDistinct(f, ControlScore("", "", "")); }
    forall c ensures DistinctNames(ControlScoreRecord(c)) { ScoresAreDistinct(FrameworkScore("", "", []), c); }
    RecordsAreDistinct(Sort(score.frameworks, FrameworkScoreKey), FrameworkScoreRecord);
    RecordsAreDistinct(Sort(AllControlScores(score.frameworks), ControlScoreKey), ControlScoreRecord);
    var m := ScoresObject(score).members;
    assert m[0].0 == "control" && m[1].0 == "environment" && m[2].0 == "framework" && m[3].0 == "incomplete";
    LeavesAreDistinct(score.ratio, score.incomplete, 0);
    ObjectIsDistinct(m);
  }

  lemma LeavesAreDistinct(text: string, flag: bool, number: Int64)
    ensures DistinctNames(Str(text)) && DistinctNames(Bool(flag)) && DistinctNames(Int(number))
  {
  }

  lemma PayloadIsDistinct(corpus: Corpus, score: EnvironmentScore)
    ensures DistinctNames(Payload(corpus, score))
  {
    hide DistinctNames, JsonEach, ScoresObject, SchemaBlock, OrderedScopedResults, ExportedGaps;
    HeadIsDistinct(corpus);
    OutcomeListsAreDistinct(corpus);
    CatalogueListsAreDistinct(corpus);
    ScoreObjectIsDistinct(score);
    var m := PayloadMembers(corpus, score);
    assert m[0].0 == "schema" && m[1].0 == "scan" && m[2].0 == "frameworks" && m[3].0 == "controls"
           && m[4].0 == "results" && m[5].0 == "gaps" && m[6].0 == "evidence" && m[7].0 == "scores";
    ObjectIsDistinct(m);
  }

  lemma HeadIsDistinct(corpus: Corpus)
    ensures DistinctNames(SchemaBlock())
    ensures DistinctNames(Object([("executed_at", Str(corpus.executedAt)), ("id", Str(corpus.runId))]))
  {
    hide DistinctNames;
    var m, n := SchemaBlock().members, [("executed_at", Str(corpus.executedAt)), ("id", Str(corpus.runId))];
    assert m[0].0 == "format" && m[1].0 == "schema_version" && n[0].0 == "executed_at" && n[1].0 == "id";
    RecordIsDistinct(m);
    RecordIsDistinct(n);
  }

  lemma OutcomeListsAreDistinct(corpus: Corpus)
    ensures DistinctNames(Array(JsonEach(OrderedScopedResults(corpus.results), ResultMember)))
    ensures DistinctNames(Array(JsonEach(ExportedGaps(corpus.results),
                                         g => GapMember(g, corpus.controls, corpus.frameworks))))
  {
    hide DistinctNames, JsonEach, OrderedScopedResults, ExportedGaps, ResultMember, GapMember;
    var gap := g => GapMember(g, corpus.controls, corpus.frameworks);
    forall s ensures DistinctNames(ResultMember(s)) { OutcomesAreDistinct(s, ("", s.result), corpus); }
    forall g ensures DistinctNames(gap(g)) { OutcomesAreDistinct(ScopedResult(None, g.1), g, corpus); }
    RecordsAreDistinct(OrderedScopedResults(corpus.results), ResultMember);
    RecordsAreDistinct(ExportedGaps(corpus.results), gap);
  }

  lemma CatalogueListsAreDistinct(corpus: Corpus)
    ensures DistinctNames(Array(JsonEach(corpus.frameworks, FrameworkRecord)))
    ensures DistinctNames(Array(JsonEach(corpus.controls, IdRecord)))
    ensures DistinctNames(Array(JsonEach(corpus.evidence, EvidenceMember)))
  {
    hide DistinctNames, JsonEach, FrameworkRecord, IdRecord, EvidenceMember;
    var e, f, c := Evidence("", "", "", "", Secret), Framework("", "", ""), Control("", "", "", "", 0, "");
    forall x ensures DistinctNames(FrameworkRecord(x)) { CatalogueIsDistinct(e, x, c); }
    forall x ensures DistinctNames(IdRecord(x)) { CatalogueIsDistinct(e, f, x); }
    forall x ensures DistinctNames(EvidenceMember(x)) { CatalogueIsDistinct(x, f, c); }
    RecordsAreDistinct(corpus.frameworks, FrameworkRecord);
    RecordsAreDistinct(corpus.controls, IdRecord);
    RecordsAreDistinct(corpus.evidence, EvidenceMember);
  }

  /** The members of a signed document. */
  function DocumentMembers(crypto: Crypto, payload: Json, seed: Bytes): seq<Member>
    requires crypto.Lawful()
  {
    [("payload", payload), ("verification", VerificationBlock(crypto, crypto.publicKey(seed))),
     ("signature", Str(SignatureHex(crypto, payload, seed)))]
  }

  lemma DocumentIsDistinct(crypto: Crypto, payload: Json, seed: Bytes)
    requires crypto.Lawful() && DistinctNames(payload)
    ensures DistinctNames(Object(DocumentMembers(crypto, payload, seed)))
    ensures Named(DocumentMembers(crypto, payload, seed), "payload") == Some(payload)
  {
    hide DistinctNames, Hex, KeyFingerprint, SignatureHex;
    var key := crypto.publicKey(seed);
    var v := VerificationBlock(crypto, key).members;
    assert v[0].0 == "algorithm" && v[1].0 == "key_id" && v[2].0 == "public_key";
    RecordIsDistinct(v);
    LeavesAreDistinct(SignatureHex(crypto, payload, seed), true, 0);
    var m := DocumentMembers(crypto, payload, seed);
    assert m[0].0 == "payload" && m[1].0 == "verification" && m[2].0 == "signature";
    ObjectIsDistinct(m);
  }

  /** A JSON parser reads the text of an export, and finds every value of the payload under its path. */
  lemma ExportIsRead(crypto: Crypto, corpus: Corpus, score: EnvironmentScore, seed: Bytes, path: seq<Step>)
    requires crypto.Lawful()
    ensures match Reader.ParseText(Export(crypto, corpus, score, seed))
            case None => false
            case Some(read) => Follow(read, [Under("payload")] + path) == Read(Reach(Payload(corpus, score), path))
  {
    hide Payload, DistinctNames, Canonical, Seen, DocumentMembers, Reader.ParseText, CanonicalText, Follow;
    var payload := Payload(corpus, score);
    PayloadIsDistinct(corpus, score);
    DocumentIsDistinct(crypto, payload, seed);
    var document := Object(DocumentMembers(crypto, payload, seed));
    ExportText(crypto, corpus, score, seed);
    ParseUndoesWrite(document);
    var whole := [Under("payload")] + path;
    PathsAreRead(document, whole);
    assert whole[1..] == path;
  }

  lemma ExportText(crypto: Crypto, corpus: Corpus, score: EnvironmentScore, seed: Bytes)
    requires crypto.Lawful()
    ensures Export(crypto, corpus, score, seed)
            == CanonicalText(Object(DocumentMembers(crypto, Payload(corpus, score), seed)))
  {
    hide Payload, VerificationBlock, SignatureHex, CanonicalText;
  }

  /** The path of a member of the record at place `i` of a payload section. */
  function FieldOf(list: string, i: nat, name: string): seq<Step> {
    [Under(list), Nth(i), Under(name)]
  }

  lemma UnderReached(v: Json, name: string, rest: seq<Step>)
    ensures Reach(v, [Under(name)] + rest)
            == match Get(v, name) case None => None case Some(w) => Reach(w, rest)
  {
    assert ([Under(name)] + rest)[1..] == rest;
  }

  lemma NthReached(items: seq<Json>, i: nat, rest: seq<Step>)
    requires i < |items|
    ensures Reach(Array(items), [Nth(i)] + rest) == Reach(items[i], rest)
  {
    assert ([Nth(i)] + rest)[1..] == rest;
  }

  lemma FieldIsReached(v: Json, list: string, i: nat, name: string)
    requires ListUnder(v, list).Some? && i < |ListUnder(v, list).value|
    ensures Reach(v, FieldOf(list, i, name)) == Get(ListUnder(v, list).value[i], name)
  {
    hide Reach, Get;
    var items := ListUnder(v, list).value;
    assert FieldOf(list, i, name) == [Under(list)] + ([Nth(i)] + ([Under(name)] + []));
    UnderReached(v, list, [Nth(i)] + ([Under(name)] + []));
    NthReached(items, i, [Under(name)] + []);
    UnderReached(items[i], name, []);
    forall w: Json ensures Reach(w, []) == Some(w) { NothingToReach(w); }
  }

  lemma NothingToReach(w: Json)
    ensures Reach(w, []) == Some(w)
  {
  }

  /** Reading an export back: every result, in reporting order, under its control and rule with its own status. */
  lemma ResultsAreRead(crypto: Crypto, corpus: Corpus, score: EnvironmentScore, seed: Bytes, i: nat)
    requires crypto.Lawful() && i < |corpus.results|
    ensures |OrderedScopedResults(corpus.results)| == |corpus.results|
    ensures var r := OrderedScopedResults(corpus.results)[i].result;
            match Reader.ParseText(Export(crypto, corpus, score, seed))
            case None => false
            case Some(read) =>
              && Follow(read, [Under("payload")] + FieldOf("results", i, "control_id")) == Some(Values.Str(r.controlId))
              && Follow(read, [Under("payload")] + FieldOf("results", i, "rule_id")) == Some(Values.Str(r.ruleId))
              && match Follow(read, [Under("payload")] + FieldOf("results", i, "status"))
                 case Some(Str(text)) => text in LABELS && LABELS[text] == r.status
                 case _ => false
  {
    hide Payload, Sort, Reader.ParseText, Export, Follow, Reach, Get;
    SortSorts(corpus.results, ScopedKey);
    ResultsAreSaid(corpus, score);
    var payload := Payload(corpus, score);
    FieldIsReached(payload, "results", i, "control_id");
    FieldIsReached(payload, "results", i, "rule_id");
    FieldIsReached(payload, "results", i, "status");
    ExportIsRead(crypto, corpus, score, seed, FieldOf("results", i, "control_id"));
    ExportIsRead(crypto, corpus, score, seed, FieldOf("results", i, "rule_id"));
    ExportIsRead(crypto, corpus, score, seed, FieldOf("results", i, "status"));
  }
}

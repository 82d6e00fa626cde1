/**
 What the payload of a signed export says about the corpus, by member names and literal values: nothing here uses the
 functions that build the payload, its records or its order, except to name what is described.
 */
module PayloadContents {
  import opened Wrappers
  import opened Ordering
  import opened Corpora
  import opened CanonicalJson
  import CanonicalForm
  import opened SignedExport
  import Database

  // ----- looking up by name

  /** The value of the first member called `name`. */
  function Named(members: seq<Member>, name: string): Option<Json> {
    if |members| == 0 then None
    else if members[0].0 == name then Some(members[0].1)
    else Named(members[1..], name)
  }

  function Get(v: Json, name: string): Option<Json> {
    match v
    case Object(members) => Named(members, name)
    case _ => None
  }

  predicate Says(v: Json, name: string, text: string) {
    Get(v, name) == Some(Str(text))
  }

  /** The items of the array under `name`; something else is no list. */
  function ListUnder(v: Json, name: string): Option<seq<Json>> {
    match Get(v, name)
    case Some(Array(items)) => Some(items)
    case _ => None
  }

  function MemberNames(v: Json): set<string> {
    match v
    case Object(members) => set m | m in members :: m.0
    case _ => {}
  }

  ghost predicate OwnNames(members: seq<Member>) {
    forall i, j :: 0 <= i < j < |members| ==> members[i].0 != members[j].0
  }

  lemma {:induction false} NamedAt(members: seq<Member>, i: nat)
    requires OwnNames(members) && i < |members|
    ensures Named(members, members[i].0) == Some(members[i].1)
  {
    if i > 0 { NamedAt(members[1..], i - 1); }
  }

  lemma {:induction false} NotNamed(members: seq<Member>, name: string)
    requires forall i :: 0 <= i < |members| ==> members[i].0 != name
    ensures Named(members, name) == None
  {
    if |members| > 0 { NotNamed(members[1..], name); }
  }

  lemma NamesFound(members: seq<Member>)
    requires OwnNames(members)
    ensures forall i :: 0 <= i < |members| ==> Get(Object(members), members[i].0) == Some(members[i].1)
  {
    forall i | 0 <= i < |members| ensures Get(Object(members), members[i].0) == Some(members[i].1) {
      NamedAt(members, i);
    }
  }

  // ----- what the records say

  const LABELS: map<string, Status> := map[
    "PASS" := Pass, "FAIL" := Fail, "WARNING" := Warning, "SKIPPED" := Skipped, "ERROR" := Error]

  /** The status of `v` is written as its label, and the database reads that label as the same status. */
  predicate SaysStatus(v: Json, status: Status) {
    match Get(v, "status")
    case Some(Str(text)) =>
      text in LABELS && LABELS[text] == status && Database.PersistedStatus(text) == Ok(status)
    case _ => false
  }

  predicate ResultSays(v: Json, s: ScopedResult) {
    && Says(v, "control_id", s.result.controlId) && Says(v, "rule_id", s.result.ruleId)
    && SaysStatus(v, s.result.status)
    && match s.frameworkId
       case None =>
         && MemberNames(v) == {"control_id", "id", "rule_id", "status"}
         && Says(v, "id", s.result.controlId + ":" + s.result.ruleId)
       case Some(f) =>
         && MemberNames(v) == {"control_id", "framework_id", "id", "rule_id", "status"}
         && Says(v, "framework_id", f) && Says(v, "id", f + ":" + s.result.controlId + ":" + s.result.ruleId)
  }

  /** Severity and reference of the first control of that framework and id, empty texts when there is none. */
  predicate Catalogues(controls: seq<Control>, f: string, c: string, severity: string, reference: string) {
    if exists k :: 0 <= k < |controls| && controls[k].frameworkId == f && controls[k].id == c then
      exists k :: 0 <= k < |controls| && controls[k].frameworkId == f && controls[k].id == c
        && (forall j :: 0 <= j < k ==> !(controls[j].frameworkId == f && controls[j].id == c))
        && severity == controls[k].severity && reference == controls[k].reference
    else severity == "" && reference == ""
  }

  /** The source of the first framework of that id, an empty text when there is none. */
  predicate Publishes(frameworks: seq<Framework>, f: string, url: string) {
    if exists k :: 0 <= k < |frameworks| && frameworks[k].id == f then
      exists k :: 0 <= k < |frameworks| && frameworks[k].id == f
        && (forall j :: 0 <= j < k ==> frameworks[j].id != f) && url == frameworks[k].sourceUrl
    else url == ""
  }

  predicate GapSays(v: Json, f: string, r: ControlResult, corpus: Corpus) {
    && MemberNames(v)
       == {"control_id", "framework_id", "id", "reference", "rule_id", "severity", "source_url", "status"}
    && Says(v, "control_id", r.controlId) && Says(v, "framework_id", f) && Says(v, "rule_id", r.ruleId)
    && Says(v, "id", f + ":" + r.controlId + ":" + r.ruleId)
    && SaysStatus(v, r.status)
    && (match (Get(v, "severity"), Get(v, "reference"), Get(v, "source_url"))
        case (Some(Str(severity)), Some(Str(reference)), Some(Str(url))) =>
          Catalogues(corpus.controls, f, r.controlId, severity, reference) && Publishes(corpus.frameworks, f, url)
        case _ => false)
  }

  predicate EvidenceSays(v: Json, e: Evidence) {
    && MemberNames(v) == {"id", "integrity", "locator", "redaction_status", "type"}
    && Says(v, "id", e.id) && Says(v, "integrity", e.integrity) && Says(v, "locator", e.location)
    && Says(v, "type", e.kind)
    && Says(v, "redaction_status",
            match e.classification case Secret => "redacted" case Sensitive => "redacted" case Unclassified => "none")
  }

  predicate FrameworkSays(v: Json, f: Framework) {
    && MemberNames(v) == {"id", "version", "source_url"}
    && Says(v, "id", f.id) && Says(v, "version", f.version) && Says(v, "source_url", f.sourceUrl)
  }

  predicate ControlSays(v: Json, c: Control) {
    MemberNames(v) == {"id"} && Says(v, "id", c.id)
  }

  predicate FrameworkScoreSays(v: Json, f: FrameworkScore) {
    MemberNames(v) == {"framework_id", "score"} && Says(v, "framework_id", f.frameworkId) && Says(v, "score", f.ratio)
  }

  predicate ControlScoreSays(v: Json, c: ControlScore) {
    && MemberNames(v) == {"control_id", "rule_id", "score"}
    && Says(v, "control_id", c.controlId) && Says(v, "rule_id", c.ruleId) && Says(v, "score", c.ratio)
  }

  /** The array under `name` describes `items` one by one, in this order. */
  ghost predicate Describes<T(!new)>(v: Json, name: string, items: seq<T>, says: (Json, T) -> bool) {
    match ListUnder(v, name)
    case Some(records) => |records| == |items| && forall i :: 0 <= i < |items| ==> says(records[i], items[i])
    case None => false
  }

  // ----- the order of the sections

  /** By control id, then rule id, then framework id; an unscoped result first. */
  predicate Before(a: ScopedResult, b: ScopedResult) {
    var x, y := a.result, b.result;
    || Less(x.controlId, y.controlId)
    || (x.controlId == y.controlId && Less(x.ruleId, y.ruleId))
    || (x.controlId == y.controlId && x.ruleId == y.ruleId && b.frameworkId.Some?
        && (a.frameworkId.None? || Less(a.frameworkId.value, b.frameworkId.value)))
  }

  lemma KeyIsReportingOrder(a: ScopedResult, b: ScopedResult)
    ensures KeyLess(ScopedKey(a), ScopedKey(b)) <==> Before(a, b)
  {
    var k, l := ScopedKey(a), ScopedKey(b);
    assert k[1..][0] == a.result.ruleId && l[1..][0] == b.result.ruleId;
    assert k[1..][1..] == ScopeKey(a.frameworkId) && l[1..][1..] == ScopeKey(b.frameworkId);
    assert KeyLess(k[1..], l[1..]) <==>
           Less(k[1..][0], l[1..][0]) || (k[1..][0] == l[1..][0] && KeyLess(k[1..][1..], l[1..][1..]));
  }

  /** The results in reporting order: the corpus's own, none after one it should stand before. */
  lemma ReportingOrder(results: seq<ScopedResult>)
    ensures var listed := OrderedScopedResults(results);
            && multiset(listed) == multiset(results)
            && (forall i, j :: 0 <= i < j < |listed| ==> !Before(listed[j], listed[i]))
  {
    hide Before, ScopedKey;
    SortSorts(results, ScopedKey);
    var listed := OrderedScopedResults(results);
    forall i, j | 0 <= i < j < |listed| ensures !Before(listed[j], listed[i]) {
      KeyIsReportingOrder(listed[j], listed[i]);
    }
  }

  /** The spreadsheet lists the same results by control id, then rule id. */
  lemma SpreadsheetOrder(results: seq<ScopedResult>)
    ensures var listed := ResultsInReportingOrder(results);
            && multiset(listed) == multiset(results)
            && (forall i, j :: 0 <= i < j < |listed| ==>
                  var a, b := listed[i].result, listed[j].result;
                  !Less(b.controlId, a.controlId) && (a.controlId == b.controlId ==> !Less(b.ruleId, a.ruleId)))
  {
    SortSorts(results, ReportingKey);
    var listed := ResultsInReportingOrder(results);
    forall i, j | 0 <= i < j < |listed|
      ensures var a, b := listed[i].result, listed[j].result;
              !Less(b.controlId, a.controlId) && (a.controlId == b.controlId ==> !Less(b.ruleId, a.ruleId))
    {
      ReportingKeyOrder(listed[j], listed[i]);
    }
  }

  lemma ReportingKeyOrder(a: ScopedResult, b: ScopedResult)
    ensures var x, y := a.result, b.result;
            KeyLess(ReportingKey(a), ReportingKey(b)) <==>
            Less(x.controlId, y.controlId) || (x.controlId == y.controlId && Less(x.ruleId, y.ruleId))
  {
    var k, l := ReportingKey(a), ReportingKey(b);
    assert k[1..] == [a.result.ruleId] && l[1..] == [b.result.ruleId];
    assert KeyLess(k[1..], l[1..]) <==>
           Less(k[1..][0], l[1..][0]) || (k[1..][0] == l[1..][0] && KeyLess([], []));
  }

  /** Two different results of one control and rule. */
  predicate Tied(results: seq<ScopedResult>) {
    exists i, j :: 0 <= i < |results| && 0 <= j < |results| && results[i] != results[j]
      && results[i].result.controlId == results[j].result.controlId
      && results[i].result.ruleId == results[j].result.ruleId
  }

  /** Two different results of one control and rule in one scope. */
  predicate TiedInScope(results: seq<ScopedResult>) {
    exists i, j :: 0 <= i < |results| && 0 <= j < |results| && results[i] != results[j]
      && results[i].result.controlId == results[j].result.controlId
      && results[i].result.ruleId == results[j].result.ruleId && results[i].frameworkId == results[j].frameworkId
  }

  /**
   The order the results were supplied in never shows in the spreadsheet exactly when none are tied, and never in the
   signed export exactly when none are tied in their scope.
   */
  lemma SuppliedOrderShowsExactly(results: seq<ScopedResult>)
    ensures (forall other :: multiset(other) == multiset(results) ==>
               ResultsInReportingOrder(other) == ResultsInReportingOrder(results)) <==> !Tied(results)
    ensures (forall other :: multiset(other) == multiset(results) ==>
               OrderedScopedResults(other) == OrderedScopedResults(results)) <==> !TiedInScope(results)
  {
    hide Sort, Tied, TiedInScope;
    TiesAreKeys(results);
    OrderForgottenExactly(results, ReportingKey);
    OrderForgottenExactly(results, ScopedKey);
    if Tied(results) {
      var other :| multiset(other) == multiset(results) && Sort(other, ReportingKey) != Sort(results, ReportingKey);
      assert ResultsInReportingOrder(other) != ResultsInReportingOrder(results);
    } else {
      forall other | multiset(other) == multiset(results)
        ensures ResultsInReportingOrder(other) == ResultsInReportingOrder(results)
      {
        SortForgetsOrder(results, other, ReportingKey);
      }
    }
    if TiedInScope(results) {
      var other :| multiset(other) == multiset(results) && Sort(other, ScopedKey) != Sort(results, ScopedKey);
      assert OrderedScopedResults(other) != OrderedScopedResults(results);
    } else {
      forall other | multiset(other) == multiset(results)
        ensures OrderedScopedResults(other) == OrderedScopedResults(results)
      {
        SortForgetsOrder(results, other, ScopedKey);
      }
    }
  }

  lemma TiesAreKeys(results: seq<ScopedResult>)
    ensures KeysIdentify(results, ReportingKey) <==> !Tied(results)
    ensures KeysIdentify(results, ScopedKey) <==> !TiedInScope(results)
  {
    forall a: ScopedResult, b: ScopedResult
      ensures ReportingKey(a) == ReportingKey(b) <==>
              a.result.controlId == b.result.controlId && a.result.ruleId == b.result.ruleId
      ensures ScopedKey(a) == ScopedKey(b) <==>
              a.result.controlId == b.result.controlId && a.result.ruleId == b.result.ruleId
              && a.frameworkId == b.frameworkId
    {
      SameKeys(a, b);
    }
  }

  lemma SameKeys(a: ScopedResult, b: ScopedResult)
    ensures ReportingKey(a) == ReportingKey(b) <==>
            a.result.controlId == b.result.controlId && a.result.ruleId == b.result.ruleId
    ensures ScopedKey(a) == ScopedKey(b) <==>
            a.result.controlId == b.result.controlId && a.result.ruleId == b.result.ruleId
            && a.frameworkId == b.frameworkId
  {
    var k, l, m, n := ReportingKey(a), ReportingKey(b), ScopedKey(a), ScopedKey(b);
    assert k == l <==> k[0] == l[0] && k[1] == l[1];
    if m == n {
      assert m[0] == n[0] && m[1] == n[1] && m[2..] == n[2..];
      assert m[2..] == ScopeKey(a.frameworkId) && n[2..] == ScopeKey(b.frameworkId);
      if a.frameworkId.Some? { assert m[2..][0] == n[2..][0]; }
    }
  }

  // ----- what the sections say

  lemma LabelSays(v: Json, status: Status)
    requires Says(v, "status", Label(status))
    ensures SaysStatus(v, status)
  {
  }

  lemma ResultRecord(s: ScopedResult)
    ensures ResultSays(ResultMember(s), s)
  {
    hide Get, SaysStatus, Label;
    var v := ResultMember(s);
    var m := v.members;
    NamesFound(m);
    assert m[0].0 == "control_id" && m[1].0 == "id" && m[2].0 == "rule_id" && m[3].0 == "status";
    LabelSays(v, s.result.status);
    if s.frameworkId.Some? { assert m[4].0 == "framework_id"; } else { NotNamed(m, "framework_id"); }
  }

  lemma EvidenceRecord(e: Evidence)
    ensures EvidenceSays(EvidenceMember(e), e)
  {
    hide Get;
    var m := EvidenceMember(e).members;
    NamesFound(m);
    assert m[0].0 == "id" && m[1].0 == "integrity" && m[2].0 == "locator" && m[3].0 == "redaction_status"
           && m[4].0 == "type";
  }

  lemma ControlIsCatalogued(controls: seq<Control>, f: string, c: string)
    ensures var (severity, reference) := CataloguedControl(controls, f, c);
            Catalogues(controls, f, c, severity, reference)
  {
    if |controls| > 0 && !(controls[0].frameworkId == f && controls[0].id == c) {
      var rest := controls[1..];
      ControlIsCatalogued(rest, f, c);
      forall k | 0 <= k < |rest| ensures controls[k + 1] == rest[k] {}
    }
  }

  lemma FrameworkIsListed(frameworks: seq<Framework>, f: string)
    ensures Publishes(frameworks, f, FrameworkSourceUrl(frameworks, f))
  {
    if |frameworks| > 0 && frameworks[0].id != f {
      var rest := frameworks[1..];
      FrameworkIsListed(rest, f);
      forall k | 0 <= k < |rest| ensures frameworks[k + 1] == rest[k] {}
    }
  }

  lemma GapNames(gap: (string, ControlResult), controls: seq<Control>, frameworks: seq<Framework>)
    ensures var v := GapMember(gap, controls, frameworks);
            var m := v.members;
            && OwnNames(m) && |m| == 8
            && m[0].0 == "control_id" && m[1].0 == "framework_id" && m[2].0 == "id" && m[3].0 == "reference"
            && m[4].0 == "rule_id" && m[5].0 == "severity" && m[6].0 == "source_url" && m[7].0 == "status"
  {
    hide DerivedId, CataloguedControl, FrameworkSourceUrl, Label;
    var m := GapMember(gap, controls, frameworks).members;
    assert m[0].0[0] != m[6].0[0];
    forall i: nat, j: nat | i < j < |m| ensures m[i].0 != m[j].0 {
      if i == 0 && j == 6 { assert m[i].0[0] != m[j].0[0]; } else { assert |m[i].0| != |m[j].0|; }
    }
  }

  lemma EightNames(m: seq<Member>)
    requires |m| == 8
    ensures MemberNames(Object(m)) == {m[0].0, m[1].0, m[2].0, m[3].0, m[4].0, m[5].0, m[6].0, m[7].0}
  {
  }

  lemma GapRecord(f: string, r: ControlResult, corpus: Corpus)
    ensures GapSays(GapMember((f, r), corpus.controls, corpus.frameworks), f, r, corpus)
  {
    hide Get, SaysStatus, Label, Catalogues, Publishes, MemberNames, OwnNames;
    var v := GapMember((f, r), corpus.controls, corpus.frameworks);
    var m := v.members;
    GapNames((f, r), corpus.controls, corpus.frameworks);
    NamesFound(m);
    EightNames(m);
    assert Get(v, m[0].0).Some? && Get(v, m[1].0).Some? && Get(v, m[2].0).Some? && Get(v, m[3].0).Some?
           && Get(v, m[4].0).Some? && Get(v, m[5].0).Some? && Get(v, m[6].0).Some? && Get(v, m[7].0).Some?;
    LabelSays(v, r.status);
    ControlIsCatalogued(corpus.controls, f, r.controlId);
    FrameworkIsListed(corpus.frameworks, f);
  }

  lemma FrameworkIsRecorded(f: Framework)
    ensures FrameworkSays(FrameworkRecord(f), f)
  {
    var m := FrameworkRecord(f).members;
    NamesFound(m);
    assert m[0].0 == "id" && m[1].0 == "version" && m[2].0 == "source_url";
  }

  lemma ScoresAreRecorded(f: FrameworkScore, c: ControlScore)
    ensures FrameworkScoreSays(FrameworkScoreRecord(f), f) && ControlScoreSays(ControlScoreRecord(c), c)
  {
    hide Get;
    var m, n := FrameworkScoreRecord(f).members, ControlScoreRecord(c).members;
    NamesFound(m);
    NamesFound(n);
    assert m[0].0 == "framework_id" && m[1].0 == "score";
    assert n[0].0 == "control_id" && n[1].0 == "rule_id" && n[2].0 == "score";
  }

  /** The sections of a payload, by name. */
  lemma SectionsFound(corpus: Corpus, score: EnvironmentScore)
    ensures var p := Payload(corpus, score);
            && MemberNames(p) == {"schema", "scan", "frameworks", "controls", "results", "gaps", "evidence", "scores"}
            && Get(p, "schema") == Some(SchemaBlock())
            && Get(p, "scan") == Some(Object([("executed_at", Str(corpus.executedAt)), ("id", Str(corpus.runId))]))
            && Get(p, "frameworks") == Some(Array(JsonEach(corpus.frameworks, FrameworkRecord)))
            && Get(p, "controls") == Some(Array(JsonEach(corpus.controls, IdRecord)))
            && Get(p, "results") == Some(Array(JsonEach(OrderedScopedResults(corpus.results), ResultMember)))
            && Get(p, "gaps") == Some(Array(JsonEach(ExportedGaps(corpus.results),
                                                     g => GapMember(g, corpus.controls, corpus.frameworks))))
            && Get(p, "evidence") == Some(Array(JsonEach(corpus.evidence, EvidenceMember)))
            && Get(p, "scores") == Some(ScoresObject(score))
  {
    hide SchemaBlock, JsonEach, OrderedScopedResults, ExportedGaps, ScoresObject, Get;
    var m := PayloadMembers(corpus, score);
    assert m[0].0 == "schema" && m[1].0 == "scan" && m[2].0 == "frameworks" && m[3].0 == "controls"
           && m[4].0 == "results" && m[5].0 == "gaps" && m[6].0 == "evidence" && m[7].0 == "scores";
    NamesFound(m);
  }

  /** An array with one record for each item. */
  lemma EachDescribed<T(!new)>(v: Json, name: string, items: seq<T>, f: T -> Json, says: (Json, T) -> bool)
    requires Get(v, name) == Some(Array(JsonEach(items, f))) && forall x :: says(f(x), x)
    ensures Describes(v, name, items, says)
  {
  }

  /** Every result, in reporting order. */
  lemma ResultsAreSaid(corpus: Corpus, score: EnvironmentScore)
    ensures Describes(Payload(corpus, score), "results", OrderedScopedResults(corpus.results), ResultSays)
  {
    hide ResultSays, ResultMember, OrderedScopedResults, Get, Payload;
    SectionsFound(corpus, score);
    forall s ensures ResultSays(ResultMember(s), s) { ResultRecord(s); }
    EachDescribed(Payload(corpus, score), "results", OrderedScopedResults(corpus.results), ResultMember, ResultSays);
  }

  /** Every gap, by the catalogue of the corpus. */
  lemma GapsAreSaid(corpus: Corpus, score: EnvironmentScore)
    ensures Describes(Payload(corpus, score), "gaps", ExportedGaps(corpus.results),
                      (v: Json, g: (string, ControlResult)) => GapSays(v, g.0, g.1, corpus))
  {
    hide GapSays, GapMember, ExportedGaps, Get, Payload;
    SectionsFound(corpus, score);
    forall g: (string, ControlResult)
      ensures GapSays(GapMember(g, corpus.controls, corpus.frameworks), g.0, g.1, corpus)
    {
      assert g == (g.0, g.1);
      GapRecord(g.0, g.1, corpus);
    }
  }

  /** Evidence, frameworks and controls, in the corpus's order. */
  lemma CatalogueIsSaid(corpus: Corpus, score: EnvironmentScore)
    ensures var p := Payload(corpus, score);
            && Describes(p, "evidence", corpus.evidence, EvidenceSays)
            && Describes(p, "frameworks", corpus.frameworks, FrameworkSays)
            && Describes(p, "controls", corpus.controls, ControlSays)
  {
    hide EvidenceSays, EvidenceMember, FrameworkSays, FrameworkRecord, Get, Payload;
    SectionsFound(corpus, score);
    var p := Payload(corpus, score);
    forall e ensures EvidenceSays(EvidenceMember(e), e) { EvidenceRecord(e); }
    forall f ensures FrameworkSays(FrameworkRecord(f), f) { FrameworkIsRecorded(f); }
    forall c ensures ControlSays(IdRecord(c), c) { ControlIsRecorded(c); }
    EachDescribed(p, "evidence", corpus.evidence, EvidenceMember, EvidenceSays);
    EachDescribed(p, "frameworks", corpus.frameworks, FrameworkRecord, FrameworkSays);
    EachDescribed(p, "controls", corpus.controls, IdRecord, ControlSays);
  }

  lemma ControlIsRecorded(c: Control)
    ensures ControlSays(IdRecord(c), c)
  {
  }

  lemma HeadIsSaid(corpus: Corpus, score: EnvironmentScore)
    ensures var p := Payload(corpus, score);
            match (Get(p, "schema"), Get(p, "scan"))
            case (Some(schema), Some(scan)) =>
              && MemberNames(schema) == {"format", "schema_version"}
              && Says(schema, "format", "sovri.compliance-export/v1") && Get(schema, "schema_version") == Some(Int(1))
              && MemberNames(scan) == {"executed_at", "id"}
              && Says(scan, "executed_at", corpus.executedAt) && Says(scan, "id", corpus.runId)
            case _ => false
  {
    hide Payload;
    SectionsFound(corpus, score);
    var m, n := SchemaBlock().members, [("executed_at", Str(corpus.executedAt)), ("id", Str(corpus.runId))];
    NamesFound(m);
    NamesFound(n);
    assert m[0].0 == "format" && m[1].0 == "schema_version" && n[0].0 == "executed_at" && n[1].0 == "id";
  }

  /** A key or signature is written with two lower-case digits for each byte. */
  lemma {:induction false} HexSays(bytes: Bytes, i: nat)
    requires i < |bytes|
    ensures |Hex(bytes)| == 2 * |bytes|
    ensures Hex(bytes)[2 * i] == CanonicalForm.LOWER_HEX[bytes[i] / 16]
    ensures Hex(bytes)[2 * i + 1] == CanonicalForm.LOWER_HEX[bytes[i] % 16]
  {
    var first, rest := HexByte(bytes[0]), Hex(bytes[1..]);
    if i > 0 {
      HexSays(bytes[1..], i - 1);
      assert (first + rest)[2 * i] == rest[2 * (i - 1)] && (first + rest)[2 * i + 1] == rest[2 * (i - 1) + 1];
    } else {
      CanonicalForm.HexDigitIs(bytes[0] / 16);
      CanonicalForm.HexDigitIs(bytes[0] % 16);
      if |bytes| > 1 { HexSays(bytes[1..], 0); }
    }
  }

  /** The block names the algorithm, the key, and the key's digest cut to sixteen digits. */
  lemma VerificationIsSaid(crypto: Crypto, key: Bytes)
    requires crypto.Lawful()
    ensures var v := VerificationBlock(crypto, key);
            && MemberNames(v) == {"algorithm", "key_id", "public_key"}
            && Says(v, "algorithm", "Ed25519") && Says(v, "public_key", Hex(key))
            && Says(v, "key_id", "sha256:" + crypto.keyDigestHex(key)[..16])
  {
    hide Hex;
    var m := VerificationBlock(crypto, key).members;
    assert m[0].0 == "algorithm" && m[1].0 == "key_id" && m[2].0 == "public_key";
    NamesFound(m);
  }

  /** All frameworks' scores, by framework id. */
  ghost predicate ListsFrameworkScores(listed: seq<FrameworkScore>, score: EnvironmentScore) {
    && multiset(listed) == multiset(score.frameworks)
    && (forall i, j :: 0 <= i < j < |listed| ==> !Less(listed[j].frameworkId, listed[i].frameworkId))
  }

  /** All frameworks' control scores, by control id, then rule id. */
  ghost predicate ListsControlScores(listed: seq<ControlScore>, score: EnvironmentScore) {
    && multiset(listed) == multiset(AllControlScores(score.frameworks))
    && (forall i, j :: 0 <= i < j < |listed| ==>
          && !Less(listed[j].controlId, listed[i].controlId)
          && (listed[i].controlId == listed[j].controlId ==> !Less(listed[j].ruleId, listed[i].ruleId)))
  }

  /** The control scores of frameworks in a row are those of each framework, one after the other. */
  lemma {:induction false} ControlScoresJoin(a: seq<FrameworkScore>, f: FrameworkScore)
    ensures AllControlScores([]) == [] && AllControlScores(a + [f]) == AllControlScores(a) + f.controls
  {
    if |a| > 0 {
      ControlScoresJoin(a[1..], f);
      assert (a + [f])[1..] == a[1..] + [f];
    }
  }

  lemma ScoreListsAreOrdered(score: EnvironmentScore)
    ensures ListsFrameworkScores(Sort(score.frameworks, FrameworkScoreKey), score)
    ensures ListsControlScores(Sort(AllControlScores(score.frameworks), ControlScoreKey), score)
  {
    hide AllControlScores, Sort, KeyLess;
    var f, c := Sort(score.frameworks, FrameworkScoreKey), Sort(AllControlScores(score.frameworks), ControlScoreKey);
    SortSorts(score.frameworks, FrameworkScoreKey);
    SortSorts(AllControlScores(score.frameworks), ControlScoreKey);
    forall i, j | 0 <= i < j < |f| ensures !Less(f[j].frameworkId, f[i].frameworkId) { OneColumn(f[j], f[i]); }
    forall i, j | 0 <= i < j < |c|
      ensures !Less(c[j].controlId, c[i].controlId)
      ensures c[i].controlId == c[j].controlId ==> !Less(c[j].ruleId, c[i].ruleId)
    {
      TwoColumns(c[j], c[i]);
    }
  }

  lemma OneColumn(a: FrameworkScore, b: FrameworkScore)
    ensures KeyLess(FrameworkScoreKey(a), FrameworkScoreKey(b)) <==> Less(a.frameworkId, b.frameworkId)
  {
  }

  lemma TwoColumns(a: ControlScore, b: ControlScore)
    ensures KeyLess(ControlScoreKey(a), ControlScoreKey(b)) <==>
            Less(a.controlId, b.controlId) || (a.controlId == b.controlId && Less(a.ruleId, b.ruleId))
  {
    var k, l := ControlScoreKey(a), ControlScoreKey(b);
    assert k[1..] == [a.ruleId] && l[1..] == [b.ruleId];
    assert KeyLess(k[1..], l[1..]) <==> Less(a.ruleId, b.ruleId) || (a.ruleId == b.ruleId && KeyLess([], []));
  }

  /** The posture scores: every framework's and every control's, ordered by their ids. */
  lemma ScoresAreSaid(corpus: Corpus, score: EnvironmentScore)
    ensures match Get(Payload(corpus, score), "scores")
            case None => false
            case Some(v) =>
              && MemberNames(v) == {"control", "environment", "framework", "incomplete"}
              && Says(v, "environment", score.ratio) && Get(v, "incomplete") == Some(Bool(score.incomplete))
              && (exists listed :: ListsFrameworkScores(listed, score)
                                   && Describes(v, "framework", listed, FrameworkScoreSays))
              && (exists listed :: ListsControlScores(listed, score)
                                   && Describes(v, "control", listed, ControlScoreSays))
  {
    hide Payload, ListsFrameworkScores, ListsControlScores, FrameworkScoreSays, ControlScoreSays, Describes,
         FrameworkScoreRecord, ControlScoreRecord;
    SectionsFound(corpus, score);
    var v := ScoresObject(score);
    var m := v.members;
    assert m[0].0 == "control" && m[1].0 == "environment" && m[2].0 == "framework" && m[3].0 == "incomplete";
    NamesFound(m);
    ScoreListsAreOrdered(score);
    forall f ensures FrameworkScoreSays(FrameworkScoreRecord(f), f) { ScoresAreRecorded(f, ControlScore("", "", "")); }
    forall c ensures ControlScoreSays(ControlScoreRecord(c), c) { ScoresAreRecorded(FrameworkScore("", "", []), c); }
    EachDescribed(v, "framework", Sort(score.frameworks, FrameworkScoreKey), FrameworkScoreRecord, FrameworkScoreSays);
    EachDescribed(v, "control", Sort(AllControlScores(score.frameworks), ControlScoreKey), ControlScoreRecord,
                  ControlScoreSays);
  }

  // ----- the gaps listed

  /** `at` are the places in `listed` of the scoped results that failed or warned, which `gaps` repeats in order. */
  ghost predicate ListsGaps(listed: seq<ScopedResult>, gaps: seq<(string, ControlResult)>, at: seq<nat>) {
    Repeats(listed, gaps, at) && Marks(listed, at)
  }

  ghost predicate Repeats(listed: seq<ScopedResult>, gaps: seq<(string, ControlResult)>, at: seq<nat>) {
    && |at| == |gaps|
    && (forall j, k :: 0 <= j < k < |at| ==> at[j] < at[k])
    && (forall j :: 0 <= j < |at| ==>
          at[j] < |listed| && listed[at[j]] == ScopedResult(Some(gaps[j].0), gaps[j].1))
  }

  ghost predicate Marks(listed: seq<ScopedResult>, at: seq<nat>) {
    forall i: nat :: i < |listed| ==>
      (i in at <==> listed[i].frameworkId.Some? && listed[i].result.status in {Fail, Warning})
  }

  function Moved(at: seq<nat>): (r: seq<nat>)
    ensures |r| == |at| && forall j :: 0 <= j < |at| ==> r[j] == at[j] + 1
    ensures 0 !in r && forall i: nat :: i + 1 in r <==> i in at
  {
    var r := seq(|at|, j requires 0 <= j < |at| => at[j] + 1);
    assert forall i: nat :: i in at ==> exists j :: 0 <= j < |at| && at[j] == i && r[j] == i + 1;
    r
  }

  lemma {:induction false} GapsAreResults(listed: seq<ScopedResult>) returns (at: seq<nat>)
    ensures ListsGaps(listed, CollectGaps(listed), at)
  {
    hide ListsGaps, GapOf;
    if |listed| == 0 {
      at := [];
      NoGaps();
    } else {
      var rest := GapsAreResults(listed[1..]);
      at := if GapOf(listed[0]).Some? then [0] + Moved(rest) else Moved(rest);
      OneMoreResult(listed, CollectGaps(listed[1..]), rest);
    }
  }

  lemma NoGaps()
    ensures ListsGaps([], [], [])
  {
  }

  lemma OneMoreResult(listed: seq<ScopedResult>, gaps: seq<(string, ControlResult)>, at: seq<nat>)
    requires |listed| > 0 && ListsGaps(listed[1..], gaps, at)
    ensures match GapOf(listed[0])
            case None => ListsGaps(listed, gaps, Moved(at))
            case Some(g) => ListsGaps(listed, [g] + gaps, [0] + Moved(at))
  {
    hide Repeats, Marks, GapOf;
    MarksMore(listed, at);
    RepeatsMore(listed, gaps, at);
  }

  lemma MarksMore(listed: seq<ScopedResult>, at: seq<nat>)
    requires |listed| > 0 && Marks(listed[1..], at)
    ensures Marks(listed, if GapOf(listed[0]).Some? then [0] + Moved(at) else Moved(at))
  {
    hide Moved;
    var moved := Moved(at);
    var now := if GapOf(listed[0]).Some? then [0] + moved else moved;
    forall i: nat | i < |listed|
      ensures i in now <==> listed[i].frameworkId.Some? && listed[i].result.status in {Fail, Warning}
    {
      if i > 0 {
        assert listed[i] == listed[1..][i - 1];
        assert i - 1 + 1 in moved <==> i - 1 in at;
      }
    }
  }

  lemma RepeatsMore(listed: seq<ScopedResult>, gaps: seq<(string, ControlResult)>, at: seq<nat>)
    requires |listed| > 0 && Repeats(listed[1..], gaps, at)
    ensures match GapOf(listed[0])
            case None => Repeats(listed, gaps, Moved(at))
            case Some(g) => Repeats(listed, [g] + gaps, [0] + Moved(at))
  {
    hide Moved;
    var first := [0] + Moved(at);
    forall j | 1 <= j < |first| ensures first[j] == at[j - 1] + 1 {}
  }
}

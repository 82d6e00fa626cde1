/** The run tables of the local database and the operations that write and read them (src/local_db.rs). */
module Database {
  import opened Wrappers
  import opened Ordering
  import opened Folds
  import opened Corpora
  import opened RowIds

  // ----- rows

  datatype ResultRow = ResultRow(
    runId: string, controlId: string, ruleId: string, status: string, evidenceId: string, frameworkId: string,
    severity: string, weight: UInt32, reason: Option<string>, executedAt: string, executionMetadata: string)

  datatype GapRow = GapRow(runId: string, status: string, severity: string, controlId: string, ruleId: string)

  datatype ScoreRow = ScoreRow(runId: string, frameworkId: string, counts: Counts)

  datatype Counts = Counts(pass: nat, fail: nat, warning: nat)

  /** `owner` is the `run_id` column that only databases of an older layout have. */
  datatype EvidenceRow = EvidenceRow(owner: Option<string>, digest: string, locator: string, classification: string)

  datatype EvidenceLink = EvidenceLink(kind: string, digest: string, locator: string, classification: string)

  datatype FrameworkLink = FrameworkLink(version: string, sourceUrl: string)

  datatype ControlLink = ControlLink(title: string, severity: string, weight: UInt32, reference: string)

  /** All tables a run writes, by primary key. */
  datatype Tables = Tables(
    legacyOwner: bool,
    scanRuns: map<string, string>,
    frameworks: map<string, string>,
    controls: set<string>,
    frameworkLinks: map<(string, string), FrameworkLink>,
    controlLinks: map<(string, string, string), ControlLink>,
    results: map<string, ResultRow>,
    gaps: map<string, GapRow>,
    scores: map<string, ScoreRow>,
    evidence: map<string, EvidenceRow>,
    evidenceLinks: map<(string, string), EvidenceLink>)

  const EMPTY := Tables(false, map[], map[], {}, map[], map[], map[], map[], map[], map[], map[])

  datatype DatabaseError =
    | BlankRunId
    | MissingFrameworks(ids: set<string>)
    | EmptyFrameworks(ids: set<string>)
    | MissingRun(id: string)
    | UnsupportedStatus(status: string)
    | MissingTimestamp(controlId: string, ruleId: string)
    | InvalidResult(controlId: string, ruleId: string)

  // ----- acceptance of a corpus

  /** Unicode `White_Space`. */
  predicate IsWhitespace(c: char) {
    var n := c as int;
    0x09 <= n <= 0x0d || n == 0x20 || n == 0x85 || n == 0xa0 || n == 0x1680 || 0x2000 <= n <= 0x200a
    || n == 0x2028 || n == 0x2029 || n == 0x202f || n == 0x205f || n == 0x3000
  }

  /** `text.trim().is_empty()` */
  predicate Blank(text: string) {
    forall i :: 0 <= i < |text| ==> IsWhitespace(text[i])
  }

  function Described(items: seq<Framework>): set<string> {
    set f | f in items :: f.id
  }

  function Controlled(items: seq<Control>): set<string> {
    set x | x in items :: x.frameworkId
  }

  function Scoped(items: seq<ScopedResult>): set<string> {
    set s | s in items && s.frameworkId.Some? :: s.frameworkId.value
  }

  lemma NothingNamed()
    ensures Described([]) == {} && Controlled([]) == {} && Scoped([]) == {}
  {
  }

  lemma DescribedStep(items: seq<Framework>, i: nat)
    requires i < |items|
    ensures Described(items[..i + 1]) == Described(items[..i]) + {items[i].id}
  {
    assert items[..i + 1] == items[..i] + [items[i]];
  }

  lemma ControlledStep(items: seq<Control>, i: nat)
    requires i < |items|
    ensures Controlled(items[..i + 1]) == Controlled(items[..i]) + {items[i].frameworkId}
  {
    assert items[..i + 1] == items[..i] + [items[i]];
  }

  lemma ScopedStep(items: seq<ScopedResult>, i: nat)
    requires i < |items|
    ensures Scoped(items[..i + 1])
         == Scoped(items[..i]) + if items[i].frameworkId.Some? then {items[i].frameworkId.value} else {}
  {
    assert items[..i + 1] == items[..i] + [items[i]];
  }

  function ControlIds(items: seq<Control>): set<string> {
    set x | x in items :: x.id
  }

  lemma NoControls()
    ensures ControlIds([]) == {}
  {
  }

  lemma ControlIdsStep(items: seq<Control>, i: nat)
    requires i < |items|
    ensures ControlIds(items[..i + 1]) == ControlIds(items[..i]) + {items[i].id}
  {
    assert items[..i + 1] == items[..i] + [items[i]];
  }

  function ReferencedFrameworks(c: Corpus): set<string> {
    Controlled(c.controls) + Scoped(c.results)
  }

  /** What is wrong with a corpus's framework catalogue, if anything. */
  function CatalogueProblem(c: Corpus): Option<DatabaseError> {
    var missing := ReferencedFrameworks(c) - Described(c.frameworks);
    if missing != {} then Some(MissingFrameworks(missing))
    else
      var unused := Described(c.frameworks) - ReferencedFrameworks(c);
      if unused != {} then Some(EmptyFrameworks(unused)) else None
  }

  /** Why a corpus is refused, if it is. */
  function Refusal(c: Corpus): Option<DatabaseError> {
    if Blank(c.runId) then Some(BlankRunId) else CatalogueProblem(c)
  }

  /** A corpus is accepted exactly when its run has a name and it describes the frameworks it uses and no others. */
  lemma AcceptedCorpora(c: Corpus)
    ensures Refusal(c) == None <==> !Blank(c.runId) && ReferencedFrameworks(c) == Described(c.frameworks)
  {
    hide Blank, Described, ReferencedFrameworks;
    var used, described := ReferencedFrameworks(c), Described(c.frameworks);
    if used - described == {} && described - used == {} {
      forall id ensures id in used <==> id in described {
        assert id !in used - described && id !in described - used;
      }
    }
  }

  method ValidateCompletedCorpus(c: Corpus) returns (r: Option<DatabaseError>)
    ensures r == CatalogueProblem(c)
  {
    hide Described, Controlled, Scoped;
    var described: set<string>, missing: set<string>, used: set<string> := {}, {}, {};
    NothingNamed();
    for i := 0 to |c.frameworks|
      invariant described == Described(c.frameworks[..i])
    {
      DescribedStep(c.frameworks, i);
      described := described + {c.frameworks[i].id};
    }
    assert c.frameworks[..|c.frameworks|] == c.frameworks;
    for i := 0 to |c.controls|
      invariant missing == Controlled(c.controls[..i]) - described
      invariant used == Controlled(c.controls[..i]) * described
    {
      ControlledStep(c.controls, i);
      var id := c.controls[i].frameworkId;
      if id in described { used := used + {id}; } else { missing := missing + {id}; }
    }
    assert c.controls[..|c.controls|] == c.controls;
    for i := 0 to |c.results|
      invariant missing == (Controlled(c.controls) + Scoped(c.results[..i])) - described
      invariant used == (Controlled(c.controls) + Scoped(c.results[..i])) * described
    {
      ScopedStep(c.results, i);
      if c.results[i].frameworkId.Some? {
        var id := c.results[i].frameworkId.value;
        if id in described { used := used + {id}; } else { missing := missing + {id}; }
      }
    }
    assert c.results[..|c.results|] == c.results;
    if missing != {} {
      return Some(MissingFrameworks(missing));
    }
    assert described - used == described - ReferencedFrameworks(c);
    if described - used != {} {
      return Some(EmptyFrameworks(described - used));
    }
    return None;
  }

  // ----- what each table holds after a write

  /** Which rows of a table belong to a run. */
  function OwnResult(run: string): (string, ResultRow) -> bool {
    (id: string, row: ResultRow) => row.runId == run
  }

  function OwnGap(run: string): (string, GapRow) -> bool {
    (id: string, row: GapRow) => row.runId == run
  }

  function OwnScore(run: string): (string, ScoreRow) -> bool {
    (id: string, row: ScoreRow) => row.runId == run
  }

  function OwnFramework(run: string): ((string, string), FrameworkLink) -> bool {
    (k: (string, string), row: FrameworkLink) => k.0 == run
  }

  function OwnControl(run: string): ((string, string, string), ControlLink) -> bool {
    (k: (string, string, string), row: ControlLink) => k.0 == run
  }

  function OwnEvidence(run: string): ((string, string), EvidenceLink) -> bool {
    (k: (string, string), row: EvidenceLink) => k.0 == run
  }

  function FrameworkId(): Framework -> string {
    (f: Framework) => f.id
  }

  function KeepVersion(): (Option<string>, Framework) -> string {
    (prior: Option<string>, f: Framework) => if prior.Some? then prior.value else f.version
  }

  function FrameworkLinkKey(run: string): Framework -> (string, string) {
    (f: Framework) => (run, f.id)
  }

  function FrameworkLinkRow(): (Option<FrameworkLink>, Framework) -> FrameworkLink {
    (prior: Option<FrameworkLink>, f: Framework) => FrameworkLink(f.version, f.sourceUrl)
  }

  function ControlLinkKey(run: string): Control -> (string, string, string) {
    (c: Control) => (run, c.frameworkId, c.id)
  }

  function ControlLinkRow(): (Option<ControlLink>, Control) -> ControlLink {
    (prior: Option<ControlLink>, c: Control) => ControlLink(c.title, c.severity, c.weight, c.reference)
  }

  function RunStamp(scanRuns: map<string, string>, run: string, executedAt: string): map<string, string> {
    scanRuns[run := if executedAt == "" && run in scanRuns then scanRuns[run] else executedAt]
  }

  function FrameworkLinksAfter(rows: map<(string, string), FrameworkLink>, run: string, items: seq<Framework>)
    : map<(string, string), FrameworkLink>
  {
    Upserts(Without(rows, OwnFramework(run)), items, FrameworkLinkKey(run), FrameworkLinkRow())
  }

  function ControlLinksAfter(rows: map<(string, string, string), ControlLink>, run: string, items: seq<Control>)
    : map<(string, string, string), ControlLink>
  {
    Upserts(Without(rows, OwnControl(run)), items, ControlLinkKey(run), ControlLinkRow())
  }

  function FrameworkOf(s: ScopedResult): string {
    if s.frameworkId.Some? then s.frameworkId.value else ""
  }

  function EvidenceRef(r: ControlResult): string {
    if |r.evidenceRefs| > 0 then r.evidenceRefs[0] else ""
  }

  function ResultId(run: string): ScopedResult -> string {
    (s: ScopedResult) => ControlResultRowId(run, FrameworkOf(s), s.result.controlId, s.result.ruleId)
  }

  function RowOf(run: string, s: ScopedResult): ResultRow {
    var r := s.result;
    ResultRow(run, r.controlId, r.ruleId, Label(r.status), EvidenceRef(r), FrameworkOf(s), r.severity, r.weight,
              r.reason, r.executedAt, r.executionMetadata)
  }

  function ResultRowMerge(run: string): (Option<ResultRow>, ScopedResult) -> ResultRow {
    (prior: Option<ResultRow>, s: ScopedResult) => RowOf(run, s)
  }

  function ResultsAfter(rows: map<string, ResultRow>, run: string, items: seq<ScopedResult>): map<string, ResultRow> {
    Upserts(Without(rows, OwnResult(run)), items, ResultId(run), ResultRowMerge(run))
  }

  // ----- score summaries

  /** How many results of a framework have a status. */
  function Tally(results: seq<ScopedResult>, framework: string, status: Status): nat {
    if |results| == 0 then 0
    else
      var last := results[|results| - 1];
      Tally(results[..|results| - 1], framework, status)
      + if last.frameworkId == Some(framework) && last.result.status == status then 1 else 0
  }

  function CountsOf(results: seq<ScopedResult>, framework: string): Counts {
    Counts(Tally(results, framework, Pass), Tally(results, framework, Fail), Tally(results, framework, Warning))
  }

  function Summaries(results: seq<ScopedResult>): map<string, Counts> {
    map f | f in Scoped(results) && f != "" :: CountsOf(results, f)
  }

  method ScoreSummaryCounts(results: seq<ScopedResult>) returns (m: map<string, Counts>)
    ensures m == Summaries(results)
  {
    hide Summaries;
    m := map[];
    NoSummaries();
    assert results[..0] == [];
    for i := 0 to |results|
      invariant m == Summaries(results[..i])
    {
      SummariesStep(results, i);
      if results[i].frameworkId.Some? && results[i].frameworkId.value != "" {
        var f := results[i].frameworkId.value;
        var counts := if f in m then m[f] else Counts(0, 0, 0);
        match results[i].result.status {
          case Pass => counts := counts.(pass := counts.pass + 1);
          case Fail => counts := counts.(fail := counts.fail + 1);
          case Warning => counts := counts.(warning := counts.warning + 1);
          case Skipped =>
          case Error =>
        }
        m := m[f := counts];
      }
    }
    assert results[..|results|] == results;
  }

  lemma NoSummaries()
    ensures Summaries([]) == map[]
  {
  }

  /** Counts with one more result. */
  function Counted(counts: Counts, status: Status): Counts {
    match status
    case Pass => counts.(pass := counts.pass + 1)
    case Fail => counts.(fail := counts.fail + 1)
    case Warning => counts.(warning := counts.warning + 1)
    case Skipped => counts
    case Error => counts
  }

  function Summarised(before: map<string, Counts>, s: ScopedResult): map<string, Counts> {
    match s.frameworkId
    case None => before
    case Some(f) =>
      if f == "" then before
      else before[f := Counted(if f in before then before[f] else Counts(0, 0, 0), s.result.status)]
  }

  lemma SummariesStep(results: seq<ScopedResult>, i: nat)
    requires i < |results|
    ensures Summaries(results[..i + 1]) == Summarised(Summaries(results[..i]), results[i])
  {
    var before, after := Summaries(results[..i]), Summaries(results[..i + 1]);
    ScopedStep(results, i);
    forall f | f in Scoped(results[..i + 1])
      ensures CountsOf(results[..i + 1], f)
           == if results[i].frameworkId == Some(f) then Counted(CountsOf(results[..i], f), results[i].result.status)
              else CountsOf(results[..i], f)
    {
      assert results[..i + 1][..i] == results[..i];
    }
    if results[i].frameworkId.Some? && results[i].frameworkId.value !in Scoped(results[..i]) {
      TallyOfNone(results[..i], results[i].frameworkId.value);
    }
  }

  lemma {:induction false} TallyOfNone(results: seq<ScopedResult>, f: string)
    requires f !in Scoped(results)
    ensures CountsOf(results, f) == Counts(0, 0, 0)
  {
    if |results| > 0 {
      var init, last := results[..|results| - 1], results[|results| - 1];
      assert last in results && forall s :: s in init ==> s in results;
      TallyOfNone(init, f);
    }
  }

  function IdKey(): string -> Key {
    (id: string) => [id]
  }

  /** The frameworks of a table of summaries, in order of their ids. */
  function SummaryOrder(summaries: map<string, Counts>): seq<string> {
    Ordered(summaries.Keys, IdKey())
  }

  lemma SummaryOrderListsKeys(summaries: map<string, Counts>)
    ensures forall f :: f in SummaryOrder(summaries) <==> f in summaries
  {
  }

  function ScoreId(run: string): string -> string {
    (f: string) => ScoreSummaryRowId(run, f)
  }

  function ScoreRowMerge(run: string, summaries: map<string, Counts>): (Option<ScoreRow>, string) -> ScoreRow {
    (prior: Option<ScoreRow>, f: string) =>
      ScoreRow(run, f, if f in summaries then summaries[f] else Counts(0, 0, 0))
  }

  function ScoresAfter(rows: map<string, ScoreRow>, run: string, items: seq<ScopedResult>): map<string, ScoreRow> {
    var m := Summaries(items);
    Upserts(Without(rows, OwnScore(run)), SummaryOrder(m), ScoreId(run), ScoreRowMerge(run, m))
  }

  // ----- gaps

  function GapId(run: string, framework: string, r: ControlResult): string {
    ComplianceGapRowId(run, framework, r.controlId, r.ruleId)
  }

  function LegacyId(framework: string, r: ControlResult): string {
    LegacyGapRowId(framework, r.controlId, r.ruleId)
  }

  function GapRowOf(run: string, r: ControlResult): GapRow {
    GapRow(run, Label(r.status), r.severity, r.controlId, r.ruleId)
  }

  /** One gap: its row under the older id goes, and a row under its id stays or is added. */
  function PutGap(rows: map<string, GapRow>, run: string, s: ScopedResult): map<string, GapRow> {
    match GapOf(s)
    case None => rows
    case Some((framework, r)) =>
      var kept := rows - {LegacyId(framework, r)};
      var id := GapId(run, framework, r);
      if id in kept then kept else kept[id := GapRowOf(run, r)]
  }

  function PutGaps(rows: map<string, GapRow>, run: string, items: seq<ScopedResult>): map<string, GapRow> {
    if |items| == 0 then rows else PutGap(PutGaps(rows, run, items[..|items| - 1]), run, items[|items| - 1])
  }

  function GapsAfter(rows: map<string, GapRow>, run: string, items: seq<ScopedResult>): map<string, GapRow> {
    PutGaps(Without(rows, OwnGap(run)), run, items)
  }

  // ----- evidence

  function EvidenceId(): Evidence -> string {
    (e: Evidence) => e.id
  }

  /** The metadata row of an evidence: only a write that carries a digest changes digest and classification. */
  function EvidenceMerge(owner: Option<string>): (Option<EvidenceRow>, Evidence) -> EvidenceRow {
    (prior: Option<EvidenceRow>, e: Evidence) =>
      match prior
      case None => EvidenceRow(owner, e.integrity, e.location, ClassificationName(e.classification))
      case Some(row) =>
        EvidenceRow(row.owner,
                    if e.integrity == "" then row.digest else e.integrity,
                    if row.locator == "" then e.location else row.locator,
                    if e.integrity == "" then row.classification else ClassificationName(e.classification))
  }

  function OwnerOf(legacyOwner: bool, run: string): Option<string> {
    if legacyOwner then Some(run) else None
  }

  function EvidenceAfter(rows: map<string, EvidenceRow>, owner: Option<string>, items: seq<Evidence>)
    : map<string, EvidenceRow>
  {
    Upserts(rows, items, EvidenceId(), EvidenceMerge(owner))
  }

  /** The link of an evidence takes digest and classification from the metadata row when it carries no digest. */
  function LinkOf(e: Evidence, row: EvidenceRow): EvidenceLink {
    EvidenceLink(e.kind,
                 if e.integrity == "" then row.digest else e.integrity,
                 e.location,
                 if e.integrity == "" then row.classification else ClassificationName(e.classification))
  }

  /** The links after the items, each written right after the metadata row of its evidence. */
  function PutLinks(links: map<(string, string), EvidenceLink>, run: string, rows: map<string, EvidenceRow>,
                    owner: Option<string>, items: seq<Evidence>): map<(string, string), EvidenceLink>
  {
    if |items| == 0 then links
    else
      var last := items[|items| - 1];
      PutLinks(links, run, rows, owner, items[..|items| - 1])
        [(run, last.id) := LinkOf(last, EvidenceAfter(rows, owner, items)[last.id])]
  }

  lemma NoEvidence(links: map<(string, string), EvidenceLink>, run: string, rows: map<string, EvidenceRow>,
                   owner: Option<string>, items: seq<Evidence>)
    ensures EvidenceAfter(rows, owner, items[..0]) == rows && PutLinks(links, run, rows, owner, items[..0]) == links
  {
  }

  lemma EvidenceStep(links: map<(string, string), EvidenceLink>, run: string, rows: map<string, EvidenceRow>,
                     owner: Option<string>, items: seq<Evidence>, i: nat)
    requires i < |items|
    ensures var before, after, e := EvidenceAfter(rows, owner, items[..i]), EvidenceAfter(rows, owner, items[..i + 1]),
                                    items[i];
            && after == before[e.id := EvidenceMerge(owner)(Get(before, e.id), e)]
            && PutLinks(links, run, rows, owner, items[..i + 1])
               == PutLinks(links, run, rows, owner, items[..i])[(run, e.id) := LinkOf(e, after[e.id])]
  {
    hide Upserts;
    UpsertsStep(rows, items, i, EvidenceId(), EvidenceMerge(owner));
    assert items[..i + 1][..i] == items[..i];
  }

  function EvidenceLinksAfter(links: map<(string, string), EvidenceLink>, run: string,
                              rows: map<string, EvidenceRow>, owner: Option<string>, items: seq<Evidence>)
    : map<(string, string), EvidenceLink>
  {
    PutLinks(Without(links, OwnEvidence(run)), run, rows, owner, items)
  }

  // ----- a whole write

  function Catalogued(t: Tables, c: Corpus): Tables {
    t.(scanRuns := RunStamp(t.scanRuns, c.runId, c.executedAt),
       frameworks := Upserts(t.frameworks, c.frameworks, FrameworkId(), KeepVersion()),
       controls := t.controls + ControlIds(c.controls),
       frameworkLinks := FrameworkLinksAfter(t.frameworkLinks, c.runId, c.frameworks),
       controlLinks := ControlLinksAfter(t.controlLinks, c.runId, c.controls))
  }

  function Stored(t: Tables, c: Corpus): Tables {
    var run, owner := c.runId, OwnerOf(t.legacyOwner, c.runId);
    Catalogued(t, c).(
      results := ResultsAfter(t.results, run, c.results),
      gaps := GapsAfter(t.gaps, run, c.results),
      scores := ScoresAfter(t.scores, run, c.results),
      evidence := EvidenceAfter(t.evidence, owner, c.evidence),
      evidenceLinks := EvidenceLinksAfter(t.evidenceLinks, run, t.evidence, owner, c.evidence))
  }

  // ----- the recount of score summaries from the stored results

  /** The runs and frameworks that stored results name. */
  function Groups(rows: map<string, ResultRow>): set<(string, string)> {
    set id | id in rows && rows[id].runId != "" && rows[id].frameworkId != "" :: (rows[id].runId, rows[id].frameworkId)
  }

  function CountedIds(rows: map<string, ResultRow>, group: (string, string), status: string): set<string> {
    set id | id in rows && rows[id].runId == group.0 && rows[id].frameworkId == group.1 && rows[id].status == status
  }

  function RowCount(rows: map<string, ResultRow>, group: (string, string), status: string): nat {
    |CountedIds(rows, group, status)|
  }

  function Recount(rows: map<string, ResultRow>, group: (string, string)): Counts {
    Counts(RowCount(rows, group, "PASS"), RowCount(rows, group, "FAIL"), RowCount(rows, group, "WARNING"))
  }

  function GroupKey(): ((string, string)) -> Key {
    (g: (string, string)) => [g.0, g.1]
  }

  function GroupOrder(rows: map<string, ResultRow>): seq<(string, string)> {
    Ordered(Groups(rows), GroupKey())
  }

  function GroupScoreId(): ((string, string)) -> string {
    (g: (string, string)) => ScoreSummaryRowId(g.0, g.1)
  }

  function RecountMerge(rows: map<string, ResultRow>): (Option<ScoreRow>, (string, string)) -> ScoreRow {
    (prior: Option<ScoreRow>, g: (string, string)) => ScoreRow(g.0, g.1, Recount(rows, g))
  }

  function Backfilled(t: Tables): Tables {
    t.(scores := Upserts(t.scores, GroupOrder(t.results), GroupScoreId(), RecountMerge(t.results)))
  }

  // ----- reading a run back

  /** The parts of the SDK that reconstruction calls: a status description and result validation. */
  datatype Sdk = Sdk(description: Status -> string, accepts: ControlResult -> bool)

  function FrameworkKey(): Framework -> Key {
    (f: Framework) => [f.id]
  }

  function ControlKey(): Control -> Key {
    (c: Control) => [c.frameworkId, c.id]
  }

  datatype EvidenceExport = EvidenceExport(id: string, link: EvidenceLink)

  function EvidenceExportKey(): EvidenceExport -> Key {
    (e: EvidenceExport) => [e.id]
  }

  /** A stored result and its row id; rows equal in every sort column come in the order of their ids. */
  datatype ResultExport = ResultExport(id: string, row: ResultRow)

  function ResultExportKey(): ResultExport -> Key {
    (e: ResultExport) => [e.row.controlId, e.row.ruleId, e.row.frameworkId, e.id]
  }

  function FrameworkSet(t: Tables, run: string): set<Framework> {
    set k | k in t.frameworkLinks && k.0 == run ::
      Framework(k.1, t.frameworkLinks[k].version, t.frameworkLinks[k].sourceUrl)
  }

  function ControlSet(t: Tables, run: string): set<Control> {
    set k | k in t.controlLinks && k.0 == run ::
      var l := t.controlLinks[k]; Control(k.1, k.2, l.title, l.severity, l.weight, l.reference)
  }

  function ResultSet(t: Tables, run: string): set<ResultExport> {
    set id | id in t.results && t.results[id].runId == run :: ResultExport(id, t.results[id])
  }

  function EvidenceSet(t: Tables, run: string): set<EvidenceExport> {
    set k | k in t.evidenceLinks && k.0 == run :: EvidenceExport(k.1, t.evidenceLinks[k])
  }

  /** The four queries of an export, each ordered as its `ORDER BY` says. */
  function FrameworkRows(t: Tables, run: string): seq<Framework> {
    Ordered(FrameworkSet(t, run), FrameworkKey())
  }

  function ControlRows(t: Tables, run: string): seq<Control> {
    Ordered(ControlSet(t, run), ControlKey())
  }

  function ResultRows(t: Tables, run: string): seq<ResultExport> {
    Ordered(ResultSet(t, run), ResultExportKey())
  }

  function EvidenceRows(t: Tables, run: string): seq<EvidenceExport> {
    Ordered(EvidenceSet(t, run), EvidenceExportKey())
  }

  function PersistedStatus(status: string): Result<Status, DatabaseError> {
    if status == "PASS" then Ok(Pass)
    else if status == "FAIL" then Ok(Fail)
    else if status == "WARNING" then Ok(Warning)
    else if status == "SKIPPED" then Ok(Skipped)
    else if status == "ERROR" then Ok(Error)
    else Err(UnsupportedStatus(status))
  }

  function RestoredReason(row: ResultRow, status: Status, sdk: Sdk): Option<string> {
    if row.reason.Some? && !Blank(row.reason.value) then row.reason
    else if status != Pass then Some(sdk.description(status))
    else None
  }

  function RestoredResult(row: ResultRow, runExecutedAt: string, sdk: Sdk): Result<ControlResult, DatabaseError> {
    match PersistedStatus(row.status)
    case Err(e) => Err(e)
    case Ok(status) =>
      var executedAt := if row.executedAt == "" then runExecutedAt else row.executedAt;
      if executedAt == "" then Err(MissingTimestamp(row.controlId, row.ruleId))
      else
        var r := ControlResult(row.controlId, row.ruleId, status, row.severity, row.weight,
                               RestoredReason(row, status, sdk), if row.evidenceId == "" then [] else [row.evidenceId],
                               executedAt, row.executionMetadata);
        if sdk.accepts(r) then Ok(r) else Err(InvalidResult(row.controlId, row.ruleId))
  }

  function RestoredScoped(row: ResultRow, runExecutedAt: string, sdk: Sdk): Result<ScopedResult, DatabaseError> {
    match RestoredResult(row, runExecutedAt, sdk)
    case Err(e) => Err(e)
    case Ok(r) => Ok(ScopedResult(if row.frameworkId == "" then None else Some(row.frameworkId), r))
  }

  /** The first row that cannot be restored decides the error. */
  function RestoredAll(rows: seq<ResultExport>, runExecutedAt: string, sdk: Sdk)
    : Result<seq<ScopedResult>, DatabaseError>
  {
    if |rows| == 0 then Ok([])
    else match RestoredAll(rows[..|rows| - 1], runExecutedAt, sdk)
      case Err(e) => Err(e)
      case Ok(init) =>
        match RestoredScoped(rows[|rows| - 1].row, runExecutedAt, sdk)
        case Err(e) => Err(e)
        case Ok(s) => Ok(init + [s])
  }

  /** A row that cannot be restored decides the outcome, whatever follows it. */
  lemma {:induction false} FirstErrorDecides(rows: seq<ResultExport>, n: nat, runExecutedAt: string, sdk: Sdk)
    requires n <= |rows| && RestoredAll(rows[..n], runExecutedAt, sdk).Err?
    ensures RestoredAll(rows, runExecutedAt, sdk) == RestoredAll(rows[..n], runExecutedAt, sdk)
  {
    if n == |rows| {
      assert rows[..n] == rows;
    } else {
      var init := rows[..|rows| - 1];
      assert init[..n] == rows[..n];
      FirstErrorDecides(init, n, runExecutedAt, sdk);
    }
  }

  function RestoredEvidence(e: EvidenceExport): Evidence {
    var c := FromPersisted(e.link.classification);
    Evidence(e.id, e.link.kind, e.link.locator, e.link.digest, if c.Some? then c.value else Secret)
  }

  function RestoredEvidences(rows: seq<EvidenceExport>): seq<Evidence> {
    if |rows| == 0 then []
    else RestoredEvidences(rows[..|rows| - 1]) + [RestoredEvidence(rows[|rows| - 1])]
  }

  function Reconstructed(t: Tables, run: string, sdk: Sdk): Result<Corpus, DatabaseError> {
    if run !in t.scanRuns then Err(MissingRun(run))
    else
      match RestoredAll(ResultRows(t, run), t.scanRuns[run], sdk)
      case Err(e) => Err(e)
      case Ok(results) =>
        Ok(Corpus(t.scanRuns[run], run, ControlRows(t, run), results, RestoredEvidences(EvidenceRows(t, run)),
                  FrameworkRows(t, run)))
  }
}

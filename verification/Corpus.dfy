/** The compliance corpus of one scan run (src/matrix.rs). */
module Corpora {
  import opened Wrappers
  import opened Ordering

  type UInt32 = x: int | 0 <= x < 0x1_0000_0000

  datatype Status = Pass | Fail | Warning | Skipped | Error

  function Label(status: Status): string {
    match status
    case Pass => "PASS"
    case Fail => "FAIL"
    case Warning => "WARNING"
    case Skipped => "SKIPPED"
    case Error => "ERROR"
  }

  /** A result as the SDK hands it over; the SDK's own validation is the `Accepts` of the database module. */
  datatype ControlResult = ControlResult(
    controlId: string, ruleId: string, status: Status, severity: string, weight: UInt32,
    reason: Option<string>, evidenceRefs: seq<string>, executedAt: string, executionMetadata: string)

  datatype ScopedResult = ScopedResult(frameworkId: Option<string>, result: ControlResult)

  datatype Framework = Framework(id: string, version: string, sourceUrl: string)

  datatype Control = Control(
    frameworkId: string, id: string, title: string, severity: string, weight: UInt32, reference: string)

  datatype Classification = Secret | Sensitive | Unclassified

  function ClassificationName(c: Classification): string {
    match c
    case Secret => "Secret"
    case Sensitive => "Sensitive"
    case Unclassified => "Unclassified"
  }

  function FromPersisted(value: string): (r: Option<Classification>)
    ensures forall c :: r == Some(c) <==> value == ClassificationName(c)
  {
    ClassificationNamesDiffer();
    if value == "Secret" then Some(Secret)
    else if value == "Sensitive" then Some(Sensitive)
    else if value == "Unclassified" then Some(Unclassified)
    else None
  }

  lemma ClassificationNamesDiffer()
    ensures forall c, d :: ClassificationName(c) == ClassificationName(d) ==> c == d
  {
    forall c, d | ClassificationName(c) == ClassificationName(d) ensures c == d {
      var x, y := ClassificationName(c), ClassificationName(d);
      assert x[1] == y[1] && x[2] == y[2];
    }
  }

  function RedactionStatus(c: Classification): string {
    if c == Unclassified then "none" else "redacted"
  }

  datatype Evidence = Evidence(
    id: string, kind: string, location: string, integrity: string, classification: Classification)

  datatype Corpus = Corpus(
    executedAt: string, runId: string, controls: seq<Control>, results: seq<ScopedResult>,
    evidence: seq<Evidence>, frameworks: seq<Framework>)
  {
    function WithRunId(id: string): Corpus { this.(runId := id) }
    function WithControl(c: Control): Corpus { this.(controls := controls + [c]) }
    function WithControlResult(frameworkId: string, r: ControlResult): Corpus {
      this.(results := results + [ScopedResult(Some(frameworkId), r)])
    }
    function WithUnscopedControlResult(r: ControlResult): Corpus {
      this.(results := results + [ScopedResult(None, r)])
    }
    function WithEvidence(e: Evidence): Corpus { this.(evidence := evidence + [e]) }
    function WithFramework(f: Framework): Corpus { this.(frameworks := frameworks + [f]) }
  }

  function NewCorpus(executedAt: string): Corpus {
    Corpus(executedAt, "", [], [], [], [])
  }

  predicate IsGapStatus(status: Status) {
    status == Fail || status == Warning
  }

  /** The framework and result of a compliance gap: a framework-scoped result that failed or warned. */
  function GapOf(scoped: ScopedResult): Option<(string, ControlResult)> {
    match scoped.frameworkId
    case None => None
    case Some(f) => if IsGapStatus(scoped.result.status) then Some((f, scoped.result)) else None
  }

  function ReportingKey(s: ScopedResult): Key {
    [s.result.controlId, s.result.ruleId]
  }

  /** Results by control id, then rule id, as the spreadsheet lists them. */
  function ResultsInReportingOrder(results: seq<ScopedResult>): seq<ScopedResult> {
    Sort(results, ReportingKey)
  }

  function CollectGaps(ordered: seq<ScopedResult>): seq<(string, ControlResult)> {
    if |ordered| == 0 then []
    else match GapOf(ordered[0])
      case None => CollectGaps(ordered[1..])
      case Some(g) => [g] + CollectGaps(ordered[1..])
  }
}

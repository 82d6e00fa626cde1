/** Writing one run never changes what another run exports. */
module RunIsolation {
  import opened Wrappers
  import opened Folds
  import opened Corpora
  import opened RowIds
  import opened Database
  import opened WriteTwice

  // ----- histories of a database

  datatype Operation = Write(corpus: Corpus) | Backfill

  function Applied(t: Tables, op: Operation): Tables {
    match op
    case Write(c) => if Refusal(c) == None then Stored(t, c) else t
    case Backfill => Backfilled(t)
  }

  /** The tables after a history of operations. */
  function Replayed(t: Tables, ops: seq<Operation>): Tables {
    if |ops| == 0 then t else Applied(Replayed(t, ops[..|ops| - 1]), ops[|ops| - 1])
  }

  /** A new database, of the current or of the older layout. */
  function Fresh(legacyOwner: bool): Tables {
    EMPTY.(legacyOwner := legacyOwner)
  }

  // ----- every result row lies under the id that encodes it

  function EncodedId(row: ResultRow): string {
    ControlResultRowId(row.runId, row.frameworkId, row.controlId, row.ruleId)
  }

  predicate WellKeyed(rows: map<string, ResultRow>) {
    forall id :: id in rows ==> id == EncodedId(rows[id])
  }

  /** What a write leaves under a result id. */
  lemma {:induction false} WrittenResult(prior: Option<ResultRow>, run: string, items: seq<ScopedResult>, id: string)
    ensures var row := Merged(prior, items, ResultId(run), ResultRowMerge(run), id);
            if HasKey(items, ResultId(run), id)
            then row.Some? && row.value.runId == run && EncodedId(row.value) == id
            else row == prior
  {
    hide ControlResultRowId;
    if !HasKey(items, ResultId(run), id) {
      NoKeyNoChange(prior, items, ResultId(run), ResultRowMerge(run), id);
    } else if ResultId(run)(items[|items| - 1]) != id {
      var init := items[..|items| - 1];
      var i :| 0 <= i < |items| && ResultId(run)(items[i]) == id;
      assert init[i] == items[i];
      WrittenResult(prior, run, init, id);
    }
  }

  lemma WellKeyedAfter(rows: map<string, ResultRow>, run: string, items: seq<ScopedResult>)
    requires WellKeyed(rows)
    ensures WellKeyed(ResultsAfter(rows, run, items))
  {
    hide EncodedId, Upserts;
    var cleared, after := Without(rows, OwnResult(run)), ResultsAfter(rows, run, items);
    forall id | id in after ensures id == EncodedId(after[id]) {
      UpsertsGet(cleared, items, ResultId(run), ResultRowMerge(run), id);
      WrittenResult(Get(cleared, id), run, items, id);
      assert Get(after, id) == Some(after[id]);
      assert HasKey(items, ResultId(run), id) || Get(cleared, id) == Some(after[id]);
    }
  }

  lemma {:induction false} ReplayedWellKeyed(legacyOwner: bool, ops: seq<Operation>)
    ensures WellKeyed(Replayed(Fresh(legacyOwner), ops).results)
  {
    hide WellKeyed, ResultsAfter, Refusal;
    if |ops| == 0 {
      NoRowsWellKeyed();
    } else {
      var before, last := Replayed(Fresh(legacyOwner), ops[..|ops| - 1]), ops[|ops| - 1];
      ReplayedWellKeyed(legacyOwner, ops[..|ops| - 1]);
      if last.Write? { WellKeyedAfter(before.results, last.corpus.runId, last.corpus.results); }
    }
  }

  lemma NoRowsWellKeyed()
    ensures WellKeyed(map[])
  {
  }

  // ----- isolation

  /** The corpus writes no row id under which a row of `other` lies. */
  predicate LeavesRowsOf(rows: map<string, ResultRow>, c: Corpus, other: string) {
    forall i :: 0 <= i < |c.results| ==>
      var id := ResultId(c.runId)(c.results[i]); id in rows ==> rows[id].runId != other
  }

  /** Where every row lies under the id that encodes it, no write meets a row of another run. */
  lemma WellKeyedLeavesRows(rows: map<string, ResultRow>, c: Corpus, other: string)
    requires WellKeyed(rows) && other != c.runId
    ensures LeavesRowsOf(rows, c, other)
  {
    hide ControlResultRowId;
    forall i | 0 <= i < |c.results| && ResultId(c.runId)(c.results[i]) in rows
      ensures rows[ResultId(c.runId)(c.results[i])].runId != other
    {
      var r, row := c.results[i].result, rows[ResultId(c.runId)(c.results[i])];
      if row.runId == other {
        ControlResultRowIdInjective((row.runId, row.frameworkId, row.controlId, row.ruleId),
                                    (c.runId, FrameworkOf(c.results[i]), r.controlId, r.ruleId));
      }
    }
  }

  /** A row of another run stays as it is, or is overwritten by a result written under its id. */
  lemma OtherRow(rows: map<string, ResultRow>, run: string, items: seq<ScopedResult>, id: string, other: string)
    requires other != run
    ensures var after := ResultsAfter(rows, run, items);
            (id in after && after[id].runId == other)
            == (id in rows && rows[id].runId == other && !HasKey(items, ResultId(run), id))
            && (id in after && after[id].runId == other ==> after[id] == rows[id])
  {
    hide ControlResultRowId, Upserts;
    var cleared, after := Without(rows, OwnResult(run)), ResultsAfter(rows, run, items);
    UpsertsGet(cleared, items, ResultId(run), ResultRowMerge(run), id);
    WrittenResult(Get(cleared, id), run, items, id);
    assert Get(after, id) == Merged(Get(cleared, id), items, ResultId(run), ResultRowMerge(run), id);
  }

  /** A row under an id that is not written stays, and no other row becomes one of that run. */
  lemma OtherResultsStay(t: Tables, c: Corpus, id: string, other: string)
    requires LeavesRowsOf(t.results, c, other) && other != c.runId
    ensures var after, rows := Stored(t, c).results, t.results;
            (id in after && after[id].runId == other) == (id in rows && rows[id].runId == other)
            && (id in rows && rows[id].runId == other ==> after[id] == rows[id])
  {
    hide ResultsAfter;
    OtherRow(t.results, c.runId, c.results, id, other);
    if HasKey(c.results, ResultId(c.runId), id) {
      var i :| 0 <= i < |c.results| && ResultId(c.runId)(c.results[i]) == id;
    }
  }

  /** The rows another run keeps are those under ids that are not written. */
  lemma RowsKept(t: Tables, c: Corpus, other: string, e: ResultExport)
    requires other != c.runId
    ensures e in ResultSet(Stored(t, c), other)
       <==> e in ResultSet(t, other) && !HasKey(c.results, ResultId(c.runId), e.id)
  {
    hide ResultsAfter, HasKey;
    OtherRow(t.results, c.runId, c.results, e.id, other);
    var after := Stored(t, c).results;
    assert after == ResultsAfter(t.results, c.runId, c.results);
    assert e in ResultSet(Stored(t, c), other) <==> e.id in after && after[e.id].runId == other && after[e.id] == e.row;
    assert e in ResultSet(t, other)
      <==> e.id in t.results && t.results[e.id].runId == other && t.results[e.id] == e.row;
  }

  /** A write keeps all rows of another run exactly when it writes under none of their ids. */
  lemma OtherResultsExactly(t: Tables, c: Corpus, other: string)
    requires other != c.runId
    ensures ResultSet(Stored(t, c), other) <= ResultSet(t, other)
    ensures ResultSet(Stored(t, c), other) == ResultSet(t, other) <==> LeavesRowsOf(t.results, c, other)
  {
    hide Stored;
    forall e ensures e in ResultSet(Stored(t, c), other)
                <==> e in ResultSet(t, other) && !HasKey(c.results, ResultId(c.runId), e.id)
    {
      RowsKept(t, c, other, e);
    }
    if !LeavesRowsOf(t.results, c, other) {
      var i :| 0 <= i < |c.results| && ResultId(c.runId)(c.results[i]) in t.results
               && t.results[ResultId(c.runId)(c.results[i])].runId == other;
      var id := ResultId(c.runId)(c.results[i]);
      assert ResultExport(id, t.results[id]) in ResultSet(t, other);
    }
  }

  lemma OtherLinks(t: Tables, c: Corpus, other: string)
    requires other != c.runId
    ensures FrameworkSet(Stored(t, c), other) == FrameworkSet(t, other)
    ensures ControlSet(Stored(t, c), other) == ControlSet(t, other)
  {
    hide Upserts, Merged;
    var run := c.runId;
    var fs := FrameworkLinksAfter(t.frameworkLinks, run, c.frameworks);
    var cs := ControlLinksAfter(t.controlLinks, run, c.controls);
    forall k: (string, string) | k.0 == other ensures Get(fs, k) == Get(t.frameworkLinks, k) {
      UpsertsGet(Without(t.frameworkLinks, OwnFramework(run)), c.frameworks, FrameworkLinkKey(run), FrameworkLinkRow(),
                 k);
      NoKeyNoChange(Get(t.frameworkLinks, k), c.frameworks, FrameworkLinkKey(run), FrameworkLinkRow(), k);
    }
    forall k: (string, string, string) | k.0 == other ensures Get(cs, k) == Get(t.controlLinks, k) {
      UpsertsGet(Without(t.controlLinks, OwnControl(run)), c.controls, ControlLinkKey(run), ControlLinkRow(), k);
      NoKeyNoChange(Get(t.controlLinks, k), c.controls, ControlLinkKey(run), ControlLinkRow(), k);
    }
    SameFrameworks(Stored(t, c), t, other);
    SameControls(Stored(t, c), t, other);
  }

  lemma SameFrameworks(t: Tables, u: Tables, run: string)
    requires forall k: (string, string) | k.0 == run :: Get(t.frameworkLinks, k) == Get(u.frameworkLinks, k)
    ensures FrameworkSet(t, run) == FrameworkSet(u, run)
  {
    assert forall k: (string, string) | k.0 == run && k in t.frameworkLinks ::
        Get(t.frameworkLinks, k) == Get(u.frameworkLinks, k);
    assert forall k: (string, string) | k.0 == run && k in u.frameworkLinks ::
        Get(t.frameworkLinks, k) == Get(u.frameworkLinks, k);
  }

  lemma SameControls(t: Tables, u: Tables, run: string)
    requires forall k: (string, string, string) | k.0 == run :: Get(t.controlLinks, k) == Get(u.controlLinks, k)
    ensures ControlSet(t, run) == ControlSet(u, run)
  {
    assert forall k: (string, string, string) | k.0 == run && k in t.controlLinks ::
        Get(t.controlLinks, k) == Get(u.controlLinks, k);
    assert forall k: (string, string, string) | k.0 == run && k in u.controlLinks ::
        Get(t.controlLinks, k) == Get(u.controlLinks, k);
  }

  lemma SameEvidence(t: Tables, u: Tables, run: string)
    requires forall k: (string, string) | k.0 == run :: Get(t.evidenceLinks, k) == Get(u.evidenceLinks, k)
    ensures EvidenceSet(t, run) == EvidenceSet(u, run)
  {
    assert forall k: (string, string) | k.0 == run && k in t.evidenceLinks ::
        Get(t.evidenceLinks, k) == Get(u.evidenceLinks, k);
    assert forall k: (string, string) | k.0 == run && k in u.evidenceLinks ::
        Get(t.evidenceLinks, k) == Get(u.evidenceLinks, k);
  }

  lemma OtherEvidence(t: Tables, c: Corpus, other: string)
    requires other != c.runId
    ensures EvidenceSet(Stored(t, c), other) == EvidenceSet(t, other)
  {
    hide PutLinks, EvidenceSet, EvidenceAfter;
    var run, owner := c.runId, OwnerOf(t.legacyOwner, c.runId);
    var links := Without(t.evidenceLinks, OwnEvidence(run));
    forall k: (string, string) | k.0 == other
      ensures Get(Stored(t, c).evidenceLinks, k) == Get(t.evidenceLinks, k)
    {
      LinkGet(links, run, t.evidence, owner, c.evidence, k);
    }
    SameEvidence(Stored(t, c), t, other);
  }

  /** A write under none of another run's row ids does not change what that run exports. */
  lemma WriteIsolated(t: Tables, c: Corpus, other: string, sdk: Sdk)
    requires other != c.runId && LeavesRowsOf(t.results, c, other)
    ensures Reconstructed(Stored(t, c), other, sdk) == Reconstructed(t, other, sdk)
  {
    hide LeavesRowsOf, ResultSet, FrameworkSet, ControlSet, EvidenceSet, Reconstructed;
    OtherResultsExactly(t, c, other);
    OtherLinks(t, c, other);
    OtherEvidence(t, c, other);
    SameRowsSameExport(Stored(t, c), t, other, sdk);
  }

  lemma {:induction false} EveryRowRestored(rows: seq<ResultExport>, runExecutedAt: string, sdk: Sdk)
    requires RestoredAll(rows, runExecutedAt, sdk).Ok?
    ensures |RestoredAll(rows, runExecutedAt, sdk).value| == |rows|
  {
    if |rows| > 0 { EveryRowRestored(rows[..|rows| - 1], runExecutedAt, sdk); }
  }

  lemma FewerRows(a: set<ResultExport>, b: set<ResultExport>)
    requires a <= b && a != b
    ensures |a| < |b|
  {
    var e :| e in b && e !in a;
    SubsetSize(a, b - {e});
  }

  lemma {:induction false} SubsetSize(a: set<ResultExport>, b: set<ResultExport>)
    requires a <= b
    ensures |a| <= |b|
  {
    if a != {} {
      var e :| e in a;
      SubsetSize(a - {e}, b - {e});
    }
  }

  /** An export has as many results as its run has rows. */
  lemma ResultsExported(t: Tables, run: string, sdk: Sdk)
    requires Reconstructed(t, run, sdk).Ok?
    ensures |Reconstructed(t, run, sdk).value.results| == |ResultSet(t, run)|
  {
    hide ControlRows, FrameworkRows, EvidenceRows, RestoredEvidences, ResultSet;
    EveryRowRestored(ResultRows(t, run), t.scanRuns[run], sdk);
  }

  /** What another run exports is unchanged exactly when the write meets none of its row ids. */
  lemma IsolatedExactly(t: Tables, c: Corpus, other: string, sdk: Sdk)
    requires other != c.runId && Reconstructed(t, other, sdk).Ok?
    ensures Reconstructed(Stored(t, c), other, sdk) == Reconstructed(t, other, sdk)
       <==> LeavesRowsOf(t.results, c, other)
  {
    hide LeavesRowsOf, ResultSet, Reconstructed, Stored;
    if LeavesRowsOf(t.results, c, other) {
      WriteIsolated(t, c, other, sdk);
    } else if Reconstructed(Stored(t, c), other, sdk) == Reconstructed(t, other, sdk) {
      OtherResultsExactly(t, c, other);
      FewerRows(ResultSet(Stored(t, c), other), ResultSet(t, other));
      ResultsExported(t, other, sdk);
      ResultsExported(Stored(t, c), other, sdk);
    }
  }

  lemma SameRowsSameExport(t: Tables, u: Tables, run: string, sdk: Sdk)
    requires Get(t.scanRuns, run) == Get(u.scanRuns, run)
    requires ResultSet(t, run) == ResultSet(u, run) && FrameworkSet(t, run) == FrameworkSet(u, run)
    requires ControlSet(t, run) == ControlSet(u, run) && EvidenceSet(t, run) == EvidenceSet(u, run)
    ensures Reconstructed(t, run, sdk) == Reconstructed(u, run, sdk)
  {
    hide Ordered, RestoredAll, RestoredEvidences;
  }

  predicate TouchesRun(op: Operation, run: string) {
    op.Write? && op.corpus.runId == run
  }

  /** In every database reached from a new one, a run's export stays through any operations on other runs. */
  lemma {:induction false} OtherRunsKeepTheirExport(
    legacyOwner: bool, before: seq<Operation>, after: seq<Operation>, run: string, sdk: Sdk)
    requires forall i :: 0 <= i < |after| ==> !TouchesRun(after[i], run)
    ensures Reconstructed(Replayed(Fresh(legacyOwner), before + after), run, sdk)
         == Reconstructed(Replayed(Fresh(legacyOwner), before), run, sdk)
    decreases |after|
  {
    hide Reconstructed, Stored, Refusal, WellKeyed;
    if |after| == 0 {
      assert before + after == before;
    } else {
      var init, last := after[..|after| - 1], after[|after| - 1];
      OtherRunsKeepTheirExport(legacyOwner, before, init, run, sdk);
      assert (before + after)[..|before + after| - 1] == before + init;
      var t := Replayed(Fresh(legacyOwner), before + init);
      ReplayedWellKeyed(legacyOwner, before + init);
      assert !TouchesRun(last, run);
      match last
      case Write(c) =>
        if Refusal(c) == None {
          WellKeyedLeavesRows(t.results, c, run);
          WriteIsolated(t, c, run, sdk);
        }
      case Backfill => BackfillIsolated(t, run, sdk);
    }
  }

  lemma BackfillIsolated(t: Tables, run: string, sdk: Sdk)
    ensures Reconstructed(Backfilled(t), run, sdk) == Reconstructed(t, run, sdk)
  {
    SameRowsSameExport(Backfilled(t), t, run, sdk);
  }

  /** One run with one row, under an id that another run writes. */
  function Misplaced(run: string, executedAt: string, id: string, row: ResultRow): Tables {
    EMPTY.(scanRuns := map[run := executedAt], results := map[id := row])
  }

  /** Without the invariant isolation fails: a restorable row under another run's row id is lost by that run's write. */
  lemma MisplacedRowIsOverwritten(c: Corpus, other: string, executedAt: string, row: ResultRow, sdk: Sdk)
    requires other != c.runId && |c.results| > 0 && row.runId == other && RestoredScoped(row, executedAt, sdk).Ok?
    ensures var t := Misplaced(other, executedAt, ResultId(c.runId)(c.results[0]), row);
            && Reconstructed(t, other, sdk).Ok?
            && Reconstructed(t, other, sdk).value.results == [RestoredScoped(row, executedAt, sdk).value]
            && Reconstructed(Stored(t, c), other, sdk) != Reconstructed(t, other, sdk)
  {
    hide ControlResultRowId, Stored, RestoredScoped;
    var id := ResultId(c.runId)(c.results[0]);
    var t := Misplaced(other, executedAt, id, row);
    OneRow(t, other, id, executedAt, sdk);
    assert !LeavesRowsOf(t.results, c, other);
    IsolatedExactly(t, c, other, sdk);
  }

  lemma OneRestored(e: ResultExport, executedAt: string, sdk: Sdk)
    requires RestoredScoped(e.row, executedAt, sdk).Ok?
    ensures RestoredAll([e], executedAt, sdk) == Ok([RestoredScoped(e.row, executedAt, sdk).value])
  {
    hide RestoredScoped;
    assert [e][..0] == [];
    assert [] + [RestoredScoped(e.row, executedAt, sdk).value] == [RestoredScoped(e.row, executedAt, sdk).value];
  }

  lemma OneRow(t: Tables, run: string, id: string, executedAt: string, sdk: Sdk)
    requires t.scanRuns == map[run := executedAt] && id in t.results && t.results == map[id := t.results[id]]
    requires t.results[id].runId == run && RestoredScoped(t.results[id], executedAt, sdk).Ok?
    ensures Reconstructed(t, run, sdk).Ok?
    ensures Reconstructed(t, run, sdk).value.results == [RestoredScoped(t.results[id], executedAt, sdk).value]
  {
    hide RestoredScoped, ControlRows, FrameworkRows, EvidenceRows, RestoredEvidences;
    var e := ResultExport(id, t.results[id]);
    assert ResultSet(t, run) == {e};
    var rows := ResultRows(t, run);
    assert |rows| == 1 && e in rows;
    assert rows == [e];
    OneRestored(e, executedAt, sdk);
  }
}

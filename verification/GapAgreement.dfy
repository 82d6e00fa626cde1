/** Exactly which writes keep the gap rows in agreement with the stored results. */
module GapAgreement {
  import opened Wrappers
  import opened Folds
  import opened Corpora
  import opened RowIds
  import opened Database
  import opened WriteTwice
  import opened RunIsolation
  import opened RunRoundTrip
  import opened WriteOrder
  import opened ScoreAgreement
  import opened DerivedTables

  // ----- which gap row an item leaves

  /** One of two results replaces the row of the other. */
  predicate SameResult(x: ScopedResult, y: ScopedResult) {
    FrameworkOf(x) == FrameworkOf(y) && x.result.controlId == y.result.controlId && x.result.ruleId == y.result.ruleId
  }

  /** No later item replaces the result row of item `l`. */
  predicate IsLast(items: seq<ScopedResult>, l: nat) {
    l < |items| && forall j :: l < j < |items| ==> !SameResult(items[l], items[j])
  }

  predicate SameGap(x: ScopedResult, y: ScopedResult) {
    GapOf(x).Some? && GapOf(y).Some? && SameResult(x, y)
  }

  /**
   The gap row of item `i` is the one that stays: no later item takes it away under its older id, and every
   earlier row of the same gap was taken away before.
   */
  predicate Kept(run: string, items: seq<ScopedResult>, i: nat) {
    && i < |items| && GapOf(items[i]).Some?
    && (forall j :: i < j < |items| ==> !Collides(run, items[j], items[i]))
    && (forall h :: 0 <= h < i && SameGap(items[h], items[i]) ==>
          exists d :: h < d < i && Collides(run, items[d], items[i]))
  }

  lemma GapIdIsResult(run: string, x: ScopedResult, y: ScopedResult)
    requires GapOf(x).Some? && GapOf(y).Some?
    ensures HasGapId(x, run, GapIdOf(RowOf(run, y))) <==> SameResult(x, y)
    ensures HasGapId(y, run, GapIdOf(RowOf(run, y)))
    ensures GapId(run, GapOf(y).value.0, GapOf(y).value.1) == GapIdOf(RowOf(run, y))
  {
    hide ComplianceGapRowId;
    var r, q := x.result, y.result;
    if HasGapId(x, run, GapIdOf(RowOf(run, y))) {
      ComplianceGapRowIdInjective((run, FrameworkOf(x), r.controlId, r.ruleId),
                                  (run, FrameworkOf(y), q.controlId, q.ruleId));
    }
  }

  lemma GapStep(row: Option<GapRow>, run: string, s: ScopedResult, id: string)
    ensures PutGapAt(row, run, s, id)
         == var kept := if HasLegacyId(s, id) then None else row;
            if HasGapId(s, run, id) && kept.None? then Some(GapRowOf(run, s.result)) else kept
  {
    hide LegacyId, GapId, GapRowOf;
  }

  lemma NotBoth(run: string, s: ScopedResult, id: string)
    ensures !(HasGapId(s, run, id) && HasLegacyId(s, id))
  {
    NoSelfCollision(run, s);
  }

  /** A gap that is not taken away afterwards has a row in the end. */
  lemma {:induction false} HasRow(row: Option<GapRow>, run: string, items: seq<ScopedResult>, id: string, i: nat)
    requires i < |items| && HasGapId(items[i], run, id)
    requires forall j :: i < j < |items| ==> !HasLegacyId(items[j], id)
    ensures PutGapsAt(row, run, items, id).Some?
  {
    hide HasGapId, HasLegacyId, PutGapAt, GapRowOf;
    var n := |items| - 1;
    GapStep(PutGapsAt(row, run, items[..n], id), run, items[n], id);
    if i < n { HasRow(row, run, items[..n], id, i); }
  }

  /** An older id takes a row away for good if the gap does not come again. */
  lemma {:induction false} NoRow(row: Option<GapRow>, run: string, items: seq<ScopedResult>, id: string, j: nat)
    requires j < |items| && HasLegacyId(items[j], id)
    requires forall m :: j < m < |items| ==> !HasGapId(items[m], run, id)
    ensures PutGapsAt(row, run, items, id) == None
  {
    hide HasGapId, HasLegacyId, PutGapAt, GapRowOf;
    var n := |items| - 1;
    GapStep(PutGapsAt(row, run, items[..n], id), run, items[n], id);
    NotBoth(run, items[n], id);
    if j < n { NoRow(row, run, items[..n], id, j); }
  }

  /** The row that is there in the end was written by an item whose row stays. */
  lemma {:induction false} WhoWrote(run: string, items: seq<ScopedResult>, id: string) returns (i: nat)
    requires PutGapsAt(None, run, items, id).Some?
    ensures i < |items| && HasGapId(items[i], run, id)
    ensures PutGapsAt(None, run, items, id) == Some(GapRowOf(run, items[i].result))
    ensures forall j :: i < j < |items| ==> !HasLegacyId(items[j], id)
    ensures forall h :: 0 <= h < i && HasGapId(items[h], run, id) ==> exists d :: h < d < i && HasLegacyId(items[d], id)
  {
    hide HasGapId, HasLegacyId, PutGapAt, GapRowOf;
    var n := |items| - 1;
    var init := items[..n];
    GapStep(PutGapsAt(None, run, init, id), run, items[n], id);
    NotBoth(run, items[n], id);
    if PutGapsAt(None, run, init, id).Some? && !HasLegacyId(items[n], id) {
      i := WhoWrote(run, init, id);
    } else {
      i := n;
      forall h | 0 <= h < n && HasGapId(items[h], run, id) ensures exists d :: h < d < n && HasLegacyId(items[d], id) {
        if forall d :: h < d < n ==> !HasLegacyId(items[d], id) { HasRow(None, run, init, id, h); }
      }
    }
  }

  /** An item whose row stays is the one that wrote it. */
  lemma {:induction false} KeptWrote(run: string, items: seq<ScopedResult>, id: string, i: nat)
    requires i < |items| && HasGapId(items[i], run, id)
    requires forall j :: i < j < |items| ==> !HasLegacyId(items[j], id)
    requires forall h :: 0 <= h < i && HasGapId(items[h], run, id) ==>
               exists d :: h < d < i && HasLegacyId(items[d], id)
    ensures PutGapsAt(None, run, items, id) == Some(GapRowOf(run, items[i].result))
  {
    hide HasGapId, HasLegacyId, PutGapAt, PutGapsAt, GapRowOf;
    HasRow(None, run, items, id, i);
    var k := WhoWrote(run, items, id);
  }

  lemma KeptIs(run: string, items: seq<ScopedResult>, i: nat)
    requires i < |items| && GapOf(items[i]).Some?
    ensures var id := GapIdOf(RowOf(run, items[i]));
            Kept(run, items, i)
            <==> (forall j :: i < j < |items| ==> !HasLegacyId(items[j], id))
                 && (forall h :: 0 <= h < i && HasGapId(items[h], run, id) ==>
                       exists d :: h < d < i && HasLegacyId(items[d], id))
  {
    hide GapIdOf, RowOf, GapId, HasLegacyId, SameResult;
    var id := GapIdOf(RowOf(run, items[i]));
    GapIdIsResult(run, items[i], items[i]);
    forall j | 0 <= j < |items| ensures Collides(run, items[j], items[i]) <==> HasLegacyId(items[j], id) { }
    forall h | 0 <= h < |items| ensures SameGap(items[h], items[i]) <==> HasGapId(items[h], run, id) {
      if GapOf(items[h]).Some? { GapIdIsResult(run, items[h], items[i]); }
    }
  }

  // ----- which result row an item leaves

  lemma SameResultSameId(run: string, x: ScopedResult, y: ScopedResult)
    ensures ResultId(run)(x) == ResultId(run)(y) <==> SameResult(x, y)
  {
    hide ControlResultRowId;
    var r, q := x.result, y.result;
    if ResultId(run)(x) == ResultId(run)(y) {
      ControlResultRowIdInjective((run, FrameworkOf(x), r.controlId, r.ruleId),
                                  (run, FrameworkOf(y), q.controlId, q.ruleId));
    }
  }

  lemma {:induction false} LastMerged(prior: Option<ResultRow>, run: string, items: seq<ScopedResult>, l: nat)
    requires IsLast(items, l)
    ensures Merged(prior, items, ResultId(run), ResultRowMerge(run), ResultId(run)(items[l]))
         == Some(RowOf(run, items[l]))
  {
    hide ResultId, SameResult, RowOf;
    var n := |items| - 1;
    if l < n {
      SameResultSameId(run, items[l], items[n]);
      assert !SameResult(items[l], items[n]);
      LastMerged(prior, run, items[..n], l);
    }
  }

  lemma {:induction false} LastExists(items: seq<ScopedResult>, i: nat) returns (l: nat)
    requires i < |items|
    ensures IsLast(items, l) && SameResult(items[i], items[l])
    decreases |items| - i
  {
    if j: nat :| i < j < |items| && SameResult(items[i], items[j]) {
      l := LastExists(items, j);
    } else {
      l := i;
    }
  }

  /** The last result under a key is the one that is stored. */
  lemma LastIsStored(t: Tables, c: Corpus, l: nat)
    requires IsLast(c.results, l)
    ensures Get(Stored(t, c).results, ResultId(c.runId)(c.results[l])) == Some(RowOf(c.runId, c.results[l]))
  {
    hide ResultId, RowOf, Merged, Upserts, SameResult;
    var run, cleared := c.runId, Without(t.results, OwnResult(c.runId));
    var id := ResultId(run)(c.results[l]);
    UpsertsGet(cleared, c.results, ResultId(run), ResultRowMerge(run), id);
    LastMerged(Get(cleared, id), run, c.results, l);
  }

  /** And every stored row of the run is that of the last result under some key. */
  lemma StoredIsLast(t: Tables, c: Corpus, id: string) returns (l: nat)
    requires id in Stored(t, c).results && Stored(t, c).results[id].runId == c.runId
    ensures IsLast(c.results, l) && Stored(t, c).results[id] == RowOf(c.runId, c.results[l])
  {
    hide ResultId, RowOf, Upserts, IsLast, SameResult;
    var run := c.runId;
    OwnRows(t.results, c.results, ResultId(run), ResultRowMerge(run), OwnResult(run), id) by { RowsAreOwn(run); }
    var i :| 0 <= i < |c.results| && ResultId(run)(c.results[i]) == id;
    l := LastExists(c.results, i);
    SameResultSameId(run, c.results[i], c.results[l]);
    LastIsStored(t, c, l);
  }

  lemma RowsAreOwn(run: string)
    ensures LastWins(ResultRowMerge(run))
    ensures forall x, prior :: OwnResult(run)(ResultId(run)(x), ResultRowMerge(run)(prior, x))
  {
    hide ControlResultRowId;
  }

  // ----- the condition

  /**
   What the items leave is what their last results say: every gap row that stays was written by an item with the
   status and severity of the last result under its key, which names a framework; and no older id takes away the row
   of a last result that is a gap of a named framework.
   */
  ghost predicate LastGapsStay(run: string, items: seq<ScopedResult>) {
    && (forall i: nat, l: nat :: Kept(run, items, i) && IsLast(items, l) && SameResult(items[i], items[l]) ==>
          GapOfLast(items[i], items[l]))
    && (forall l: nat, j: nat :: IsLast(items, l) && FrameworkOf(items[l]) != "" && l < j < |items| ==>
          !Collides(run, items[j], items[l]))
  }

  predicate GapOfLast(x: ScopedResult, last: ScopedResult) {
    FrameworkOf(last) != "" && last.result.status == x.result.status && last.result.severity == x.result.severity
  }

  /** No older id of an item is the id of another run's gap row. */
  ghost predicate LeavesGapsOf(gaps: map<string, GapRow>, c: Corpus) {
    forall id, j :: id in gaps && gaps[id].runId != c.runId && 0 <= j < |c.results| ==> !HasLegacyId(c.results[j], id)
  }

  // ----- gap rows of the run and of other runs

  /** Under an id of the run, the items decide alone. */
  lemma OwnGapRow(t: Tables, c: Corpus, id: string, i: nat)
    requires GapsAgree(t) && i < |c.results| && HasGapId(c.results[i], c.runId, id)
    ensures Get(Stored(t, c).gaps, id) == PutGapsAt(None, c.runId, c.results, id)
  {
    hide PutGaps, PutGapsAt, HasGapId, IsGapRow, GapIdOf;
    var run, cleared := c.runId, Without(t.gaps, OwnGap(c.runId));
    PutGapsGet(cleared, run, c.results, id);
    if id in cleared {
      var resultId :| IsGapOf(t.results, id, t.gaps[id], resultId);
      GapRunIs(t.results[resultId]);
      NotOwnGapId(run, c.results[i], t.results[resultId]);
    }
  }

  lemma NotOwnGapId(run: string, s: ScopedResult, row: ResultRow)
    requires row.runId != run
    ensures !HasGapId(s, run, GapIdOf(row))
  {
    hide ComplianceGapRowId;
    if HasGapId(s, run, GapIdOf(row)) {
      var (f, r) := GapOf(s).value;
      ComplianceGapRowIdInjective((run, f, r.controlId, r.ruleId),
                                  (row.runId, row.frameworkId, row.controlId, row.ruleId));
    }
  }

  /** A row under an id of no gap of the corpus: another run's, unless an older id takes it away. */
  lemma OtherGapRow(t: Tables, c: Corpus, id: string)
    requires forall i :: 0 <= i < |c.results| ==> !HasGapId(c.results[i], c.runId, id)
    ensures Get(Stored(t, c).gaps, id)
         == if exists j :: 0 <= j < |c.results| && HasLegacyId(c.results[j], id) then None
            else Get(Without(t.gaps, OwnGap(c.runId)), id)
  {
    hide PutGaps, PutGapsAt, HasGapId, HasLegacyId;
    var cleared := Without(t.gaps, OwnGap(c.runId));
    PutGapsGet(cleared, c.runId, c.results, id);
    LegacyIdGone(Get(cleared, id), c.runId, c.results, id);
    if forall j :: 0 <= j < |c.results| ==> !HasLegacyId(c.results[j], id) {
      Untouched(Get(cleared, id), c.runId, c.results, id);
    }
  }

  lemma StatusOfLabel(run: string, s: ScopedResult)
    ensures IsGapRow(RowOf(run, s)) <==> FrameworkOf(s) != "" && IsGapStatus(s.result.status)
    ensures FrameworkOf(s) != "" ==> (GapOf(s).Some? <==> IsGapStatus(s.result.status))
    ensures GapFrom(RowOf(run, s)) == GapRowOf(run, s.result)
  {
    LabelsPersist(s.result.status);
    assert Label(Fail) == "FAIL" && Label(Warning) == "WARNING";
  }

  lemma GapStatus(s: ScopedResult)
    ensures GapOf(s).Some? ==> IsGapStatus(s.result.status)
  {
  }

  // ----- the condition suffices

  lemma OwnGapHasResult(t: Tables, c: Corpus, id: string, h: nat)
    requires GapsAgree(t) && LastGapsStay(c.runId, c.results) && id in Stored(t, c).gaps
    requires h < |c.results| && HasGapId(c.results[h], c.runId, id)
    ensures exists resultId :: IsGapOf(Stored(t, c).results, id, Stored(t, c).gaps[id], resultId)
  {
    hide Stored, PutGapsAt, GapIdOf, RowOf, IsGapRow, GapFrom, GapRowOf, ResultId, IsLast, Kept, GapsAgree, GapId,
         HasLegacyId, SameResult;
    var u, run, items := Stored(t, c), c.runId, c.results;
    OwnGapRow(t, c, id, h);
    var i := WhoWrote(run, items, id);
    GapIdIsResult(run, items[i], items[i]);
    KeptIs(run, items, i);
    assert Kept(run, items, i);
    var l := LastExists(items, i);
    assert GapOfLast(items[i], items[l]);
    LastIsStored(t, c, l);
    StatusOfLabel(run, items[l]);
    GapStatus(items[i]);
    SameRow(run, items[i], items[l]);
    assert IsGapOf(u.results, id, u.gaps[id], ResultId(run)(items[l]));
  }

  /** Results that replace one another and agree in status and severity are one gap. */
  lemma SameRow(run: string, x: ScopedResult, y: ScopedResult)
    requires SameResult(x, y) && GapOf(x).Some? && GapOfLast(x, y)
    ensures GapIdOf(RowOf(run, x)) == GapIdOf(RowOf(run, y)) && GapRowOf(run, x.result) == GapRowOf(run, y.result)
  {
    hide ComplianceGapRowId;
  }

  lemma OtherGapHasResult(t: Tables, c: Corpus, id: string)
    requires WellKeyed(t.results) && GapsAgree(t) && id in Stored(t, c).gaps
    requires forall i :: 0 <= i < |c.results| ==> !HasGapId(c.results[i], c.runId, id)
    ensures exists resultId :: IsGapOf(Stored(t, c).results, id, Stored(t, c).gaps[id], resultId)
  {
    hide Stored, GapIdOf, IsGapRow, GapFrom, WellKeyed, HasGapId, HasLegacyId;
    var u := Stored(t, c);
    OtherGapRow(t, c, id);
    assert Get(u.gaps, id) == Some(u.gaps[id]);
    assert id in t.gaps && t.gaps[id] == u.gaps[id] && t.gaps[id].runId != c.runId;
    var resultId :| IsGapOf(t.results, id, t.gaps[id], resultId);
    GapRunIs(t.results[resultId]);
    OtherRowSame(t, c, t.results[resultId].runId);
    assert IsGapOf(u.results, id, u.gaps[id], resultId);
  }

  lemma OwnResultHasGap(t: Tables, c: Corpus, l: nat)
    requires GapsAgree(t) && LastGapsStay(c.runId, c.results) && IsLast(c.results, l)
    requires IsGapRow(RowOf(c.runId, c.results[l]))
    ensures GapIdOf(RowOf(c.runId, c.results[l])) in Stored(t, c).gaps
  {
    hide Stored, PutGapsAt, GapIdOf, RowOf, IsGapRow, GapFrom, GapRowOf, GapsAgree, GapId, HasLegacyId, Kept;
    var run, items := c.runId, c.results;
    var id := GapIdOf(RowOf(run, items[l]));
    StatusOfLabel(run, items[l]);
    GapIdIsResult(run, items[l], items[l]);
    OwnGapRow(t, c, id, l);
    forall j | l < j < |items| ensures !HasLegacyId(items[j], id) { assert !Collides(run, items[j], items[l]); }
    HasRow(None, run, items, id, l);
  }

  lemma OtherResultHasGap(t: Tables, c: Corpus, resultId: string)
    requires WellKeyed(t.results) && GapsAgree(t) && LeavesGapsOf(t.gaps, c)
    requires resultId in Stored(t, c).results && Stored(t, c).results[resultId].runId != c.runId
    requires IsGapRow(Stored(t, c).results[resultId])
    ensures GapIdOf(Stored(t, c).results[resultId]) in Stored(t, c).gaps
  {
    hide Stored, GapIdOf, IsGapRow, GapFrom, WellKeyed, HasGapId, HasLegacyId;
    var row := Stored(t, c).results[resultId];
    var id := GapIdOf(row);
    OtherRowSame(t, c, row.runId);
    forall i | 0 <= i < |c.results| ensures !HasGapId(c.results[i], c.runId, id) {
      NotOwnGapId(c.runId, c.results[i], row);
    }
    OtherGapRow(t, c, id);
    assert id in t.gaps;
    var other :| IsGapOf(t.results, id, t.gaps[id], other);
    SameGapSameRun(row, t.results[other]);
    GapRunIs(t.results[other]);
    forall j | 0 <= j < |c.results| ensures !HasLegacyId(c.results[j], id) { }
    assert Get(Without(t.gaps, OwnGap(c.runId)), id) == Some(t.gaps[id]);
  }

  lemma ConditionSuffices(t: Tables, c: Corpus)
    requires WellKeyed(t.results) && GapsAgree(t) && LastGapsStay(c.runId, c.results) && LeavesGapsOf(t.gaps, c)
    ensures GapsAgree(Stored(t, c))
  {
    hide Stored, WellKeyed, IsGapOf, GapsAgree, IsGapRow, GapIdOf, LastGapsStay, LeavesGapsOf, HasGapId, RowOf;
    var u := Stored(t, c);
    forall id | id in u.gaps ensures exists resultId :: IsGapOf(u.results, id, u.gaps[id], resultId) {
      if i :| 0 <= i < |c.results| && HasGapId(c.results[i], c.runId, id) {
        OwnGapHasResult(t, c, id, i);
      } else {
        OtherGapHasResult(t, c, id);
      }
    }
    forall resultId | resultId in u.results && IsGapRow(u.results[resultId])
      ensures GapIdOf(u.results[resultId]) in u.gaps
    {
      if u.results[resultId].runId == c.runId {
        var l := StoredIsLast(t, c, resultId);
        OwnResultHasGap(t, c, l);
      } else {
        OtherResultHasGap(t, c, resultId);
      }
    }
    GapsAgreeWhen(u);
  }

  // ----- the condition is needed

  ghost predicate Backed(rows: map<string, ResultRow>, id: string, gap: GapRow) {
    exists resultId :: IsGapOf(rows, id, gap, resultId)
  }

  /** Results with the gap of one item are replaced by one another. */
  lemma GapOfStored(t: Tables, c: Corpus, i: nat, gap: GapRow)
    requires i < |c.results| && GapOf(c.results[i]).Some?
    requires Backed(Stored(t, c).results, GapIdOf(RowOf(c.runId, c.results[i])), gap)
    ensures forall l: nat :: IsLast(c.results, l) && SameResult(c.results[i], c.results[l]) ==>
              FrameworkOf(c.results[l]) != "" && gap == GapRowOf(c.runId, c.results[l].result)
  {
    hide Stored, IsGapRow, GapFrom, GapRowOf, GapIdOf, RowOf;
    var run, items, u := c.runId, c.results, Stored(t, c);
    var id := GapIdOf(RowOf(run, items[i]));
    var resultId :| IsGapOf(u.results, id, gap, resultId);
    SameGapSameRun(u.results[resultId], RowOf(run, items[i]));
    RunOfRow(run, items[i]);
    var m := StoredIsLast(t, c, resultId);
    StatusOfLabel(run, items[m]);
    RowsOfOneGap(run, items[i], items[m]);
    forall l: nat | IsLast(items, l) && SameResult(items[i], items[l]) ensures l == m { OneLast(items, i, l, m); }
  }

  lemma RunOfRow(run: string, s: ScopedResult)
    ensures RowOf(run, s).runId == run
  {
  }

  lemma RowsOfOneGap(run: string, x: ScopedResult, y: ScopedResult)
    requires GapIdOf(RowOf(run, x)) == GapIdOf(RowOf(run, y))
    ensures SameResult(x, y)
  {
    hide ComplianceGapRowId;
    var r, q := x.result, y.result;
    ComplianceGapRowIdInjective((run, FrameworkOf(x), r.controlId, r.ruleId),
                                (run, FrameworkOf(y), q.controlId, q.ruleId));
  }

  lemma OneLast(items: seq<ScopedResult>, i: nat, l: nat, m: nat)
    requires i < |items| && IsLast(items, l) && IsLast(items, m)
    requires SameResult(items[i], items[l]) && SameResult(items[i], items[m])
    ensures l == m
  {
    assert SameResult(items[l], items[m]) && SameResult(items[m], items[l]);
  }

  lemma KeptGapIsLast(t: Tables, c: Corpus, i: nat, l: nat)
    requires GapsAgree(t) && GapsAgree(Stored(t, c)) && Kept(c.runId, c.results, i)
    requires IsLast(c.results, l) && SameResult(c.results[i], c.results[l])
    ensures GapOfLast(c.results[i], c.results[l])
  {
    hide Stored, IsGapRow, GapFrom, GapIdOf, RowOf, PutGapsAt, SameResult, HasLegacyId, GapId;
    var run, items, u := c.runId, c.results, Stored(t, c);
    var id := GapIdOf(RowOf(run, items[i]));
    GapIdIsResult(run, items[i], items[i]);
    KeptIs(run, items, i);
    hide Kept;
    OwnGapRow(t, c, id, i);
    KeptWrote(run, items, id, i);
    assert Get(u.gaps, id) == Some(u.gaps[id]);
    assert Backed(u.results, id, u.gaps[id]);
    GapOfStored(t, c, i, u.gaps[id]);
    LabelsOfGap(items[i].result.status, items[l].result.status);
  }

  lemma LabelsOfGap(a: Status, b: Status)
    ensures Label(a) == Label(b) ==> a == b
  {
    if Label(a) == Label(b) { LabelsDiffer(a, b); }
  }

  lemma LastGapNotTaken(t: Tables, c: Corpus, l: nat, j: nat)
    requires GapsAgree(t) && GapsAgree(Stored(t, c))
    requires IsLast(c.results, l) && FrameworkOf(c.results[l]) != "" && l < j < |c.results|
    ensures !Collides(c.runId, c.results[j], c.results[l])
  {
    hide Stored, IsGapRow, GapFrom, GapIdOf, RowOf, PutGapsAt, ResultId;
    var run, items, u := c.runId, c.results, Stored(t, c);
    if Collides(run, items[j], items[l]) {
      var id := GapIdOf(RowOf(run, items[l]));
      StatusOfLabel(run, items[l]);
      GapIdIsResult(run, items[l], items[l]);
      LastIsStored(t, c, l);
      assert u.results[ResultId(run)(items[l])] == RowOf(run, items[l]);
      assert id in u.gaps;
      forall m | j < m < |items| ensures !HasGapId(items[m], run, id) { NotAgain(run, items, l, m); }
      OwnGapRow(t, c, id, l);
      NoRow(None, run, items, id, j);
    }
  }

  lemma NotAgain(run: string, items: seq<ScopedResult>, l: nat, m: nat)
    requires IsLast(items, l) && l < m < |items| && GapOf(items[l]).Some?
    ensures !HasGapId(items[m], run, GapIdOf(RowOf(run, items[l])))
  {
    hide GapIdOf, RowOf, GapId;
    if GapOf(items[m]).Some? {
      GapIdIsResult(run, items[m], items[l]);
      assert !SameResult(items[l], items[m]);
    }
  }

  lemma OtherGapsNotTaken(t: Tables, c: Corpus, id: string, j: nat)
    requires WellKeyed(t.results) && GapsAgree(t) && GapsAgree(Stored(t, c))
    requires id in t.gaps && t.gaps[id].runId != c.runId && j < |c.results|
    ensures !HasLegacyId(c.results[j], id)
  {
    hide Stored, IsGapRow, GapFrom, GapIdOf, WellKeyed, HasGapId, HasLegacyId;
    var u := Stored(t, c);
    var resultId :| IsGapOf(t.results, id, t.gaps[id], resultId);
    GapRunIs(t.results[resultId]);
    OtherRowSame(t, c, t.results[resultId].runId);
    assert id in u.gaps;
    forall i | 0 <= i < |c.results| ensures !HasGapId(c.results[i], c.runId, id) {
      NotOwnGapId(c.runId, c.results[i], t.results[resultId]);
    }
    OtherGapRow(t, c, id);
    assert Get(u.gaps, id).Some?;
  }

  /**
   A write to a database whose gap rows agree with its results leaves them agreeing exactly when the gap rows that
   stay are those of the last results, and no other run's gap row lies under an older id of the corpus.
   */
  lemma GapsAgreeExactly(t: Tables, c: Corpus)
    requires WellKeyed(t.results) && GapsAgree(t)
    ensures GapsAgree(Stored(t, c)) <==> LastGapsStay(c.runId, c.results) && LeavesGapsOf(t.gaps, c)
  {
    hide Stored, WellKeyed, GapsAgree, SameResult, GapOfLast, Collides, HasLegacyId;
    if GapsAgree(Stored(t, c)) {
      forall i: nat, l: nat | Kept(c.runId, c.results, i) && IsLast(c.results, l)
                              && SameResult(c.results[i], c.results[l])
        ensures GapOfLast(c.results[i], c.results[l])
      {
        KeptGapIsLast(t, c, i, l);
      }
      forall l: nat, j: nat | IsLast(c.results, l) && FrameworkOf(c.results[l]) != "" && l < j < |c.results|
        ensures !Collides(c.runId, c.results[j], c.results[l])
      {
        LastGapNotTaken(t, c, l, j);
      }
      forall id, j | id in t.gaps && t.gaps[id].runId != c.runId && 0 <= j < |c.results|
        ensures !HasLegacyId(c.results[j], id)
      {
        OtherGapsNotTaken(t, c, id, j);
      }
    }
    if LastGapsStay(c.runId, c.results) && LeavesGapsOf(t.gaps, c) { ConditionSuffices(t, c); }
  }

  // ----- whole histories

  /** What an operation must be, in the database it meets, to keep both derived tables in agreement. */
  ghost predicate KeepsAgreement(t: Tables, op: Operation) {
    op.Write? && Refusal(op.corpus) == None ==>
      && NoneReplaced(op.corpus.results) && LastGapsStay(op.corpus.runId, op.corpus.results)
      && LeavesGapsOf(t.gaps, op.corpus)
  }

  lemma OperationAgrees(t: Tables, op: Operation)
    requires WellKeyed(t.results) && ScoresAgree(t) && GapsAgree(t)
    ensures ScoresAgree(Applied(t, op)) && GapsAgree(Applied(t, op)) <==> KeepsAgreement(t, op)
  {
    hide Stored, WellKeyed, ScoresAgree, GapsAgree, NoneReplaced, LastGapsStay, LeavesGapsOf, Refusal, Backfilled;
    match op
    case Backfill => BackfillChangesNothing(t);
    case Write(c) =>
      if Refusal(c) == None {
        AcceptedIsNamed(c);
        ScoresAgreeExactly(t, c);
        GapsAgreeExactly(t, c);
      }
  }

  lemma AcceptedIsNamed(c: Corpus)
    requires Refusal(c) == None
    ensures c.runId != ""
  {
    assert Blank("");
  }

  /**
   Summaries and gap rows agree with the results after every step of a history exactly when every accepted corpus
   replaces no counted result, leaves the gaps of its last results and takes away no other run's gap row.
   */
  lemma {:induction false} AgreeThroughout(legacyOwner: bool, ops: seq<Operation>)
    ensures (forall k :: 0 <= k <= |ops| ==>
               ScoresAgree(Replayed(Fresh(legacyOwner), ops[..k])) && GapsAgree(Replayed(Fresh(legacyOwner), ops[..k])))
       <==> (forall k :: 0 <= k < |ops| ==> KeepsAgreement(Replayed(Fresh(legacyOwner), ops[..k]), ops[k]))
  {
    hide Applied, WellKeyed, ScoresAgree, GapsAgree, KeepsAgreement;
    var t := Fresh(legacyOwner);
    NewDatabaseAgrees(legacyOwner);
    assert Replayed(t, ops[..0]) == t;
    forall k | 0 <= k < |ops|
      ensures Replayed(t, ops[..k + 1]) == Applied(Replayed(t, ops[..k]), ops[k])
      ensures WellKeyed(Replayed(t, ops[..k]).results)
    {
      assert ops[..k + 1][..k] == ops[..k];
      ReplayedWellKeyed(legacyOwner, ops[..k]);
    }
    if forall k :: 0 <= k <= |ops| ==> ScoresAgree(Replayed(t, ops[..k])) && GapsAgree(Replayed(t, ops[..k])) {
      forall k | 0 <= k < |ops| ensures KeepsAgreement(Replayed(t, ops[..k]), ops[k]) {
        OperationAgrees(Replayed(t, ops[..k]), ops[k]);
        assert ScoresAgree(Replayed(t, ops[..k + 1])) && GapsAgree(Replayed(t, ops[..k + 1]));
      }
    }
    if forall k :: 0 <= k < |ops| ==> KeepsAgreement(Replayed(t, ops[..k]), ops[k]) {
      forall k | 0 <= k <= |ops| ensures ScoresAgree(Replayed(t, ops[..k])) && GapsAgree(Replayed(t, ops[..k])) {
        AgreesUpTo(legacyOwner, ops, k);
      }
    }
  }

  lemma {:induction false} AgreesUpTo(legacyOwner: bool, ops: seq<Operation>, n: nat)
    requires n <= |ops|
    requires forall k :: 0 <= k < |ops| ==> KeepsAgreement(Replayed(Fresh(legacyOwner), ops[..k]), ops[k])
    ensures ScoresAgree(Replayed(Fresh(legacyOwner), ops[..n])) && GapsAgree(Replayed(Fresh(legacyOwner), ops[..n]))
  {
    hide Applied, WellKeyed, ScoresAgree, GapsAgree, KeepsAgreement;
    if n == 0 {
      NewDatabaseAgrees(legacyOwner);
    } else {
      AgreesUpTo(legacyOwner, ops, n - 1);
      assert ops[..n][..n - 1] == ops[..n - 1];
      ReplayedWellKeyed(legacyOwner, ops[..n - 1]);
      OperationAgrees(Replayed(Fresh(legacyOwner), ops[..n - 1]), ops[n - 1]);
    }
  }
}

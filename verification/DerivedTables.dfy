/** In every reachable database the derived tables agree with the stored results. */
module DerivedTables {
  import opened Wrappers
  import opened Ordering
  import opened Folds
  import opened Corpora
  import opened RowIds
  import opened Database
  import opened WriteTwice
  import opened RunIsolation
  import opened RunRoundTrip
  import opened WriteOrder
  import opened ScoreAgreement
  import SignedExport

  predicate IsGapRow(row: ResultRow) {
    row.frameworkId != "" && (row.status == "FAIL" || row.status == "WARNING")
  }

  function GapIdOf(row: ResultRow): string {
    ComplianceGapRowId(row.runId, row.frameworkId, row.controlId, row.ruleId)
  }

  function GapFrom(row: ResultRow): GapRow {
    GapRow(row.runId, row.status, row.severity, row.controlId, row.ruleId)
  }

  predicate IsGapOf(rows: map<string, ResultRow>, id: string, gap: GapRow, resultId: string) {
    resultId in rows && IsGapRow(rows[resultId]) && id == GapIdOf(rows[resultId]) && gap == GapFrom(rows[resultId])
  }

  /** The gap rows are those of the framework-scoped results that failed or warned. */
  ghost predicate GapsAgree(t: Tables) {
    && (forall id :: id in t.gaps ==> exists resultId :: IsGapOf(t.results, id, t.gaps[id], resultId))
    && (forall resultId :: resultId in t.results && IsGapRow(t.results[resultId]) ==>
          GapIdOf(t.results[resultId]) in t.gaps)
  }

  /** Results under distinct keys, no empty framework scope, no colon in a rule id. */
  ghost predicate Regular(c: Corpus) {
    && DistinctKeys(c.results, ScopedKey())
    && forall s :: s in c.results ==> s.frameworkId != Some("") && !HasColon(s.result.ruleId)
  }

  // ----- gaps

  lemma RegularGaps(run: string, c: Corpus)
    requires Regular(c)
    ensures GapIdsDiffer(run, c.results) && NoCollision(run, c.results)
  {
    DistinctGapIds(run, c.results);
    ColonFreeRulesDoNotCollide(run, c.results);
  }

  /** A row that agrees with some result is under no corpus's older ids and, if of another run, under no new id. */
  lemma ForeignGapId(c: Corpus, s: ScopedResult, row: ResultRow)
    requires !HasColon(s.result.ruleId)
    ensures !HasLegacyId(s, GapIdOf(row))
    ensures row.runId != c.runId ==> !HasGapId(s, c.runId, GapIdOf(row))
  {
    hide ComplianceGapRowId, LegacyGapRowId;
    if GapOf(s).Some? {
      var (f, r) := GapOf(s).value;
      LegacyGapIdCollides(f, r.controlId, r.ruleId, (row.runId, row.frameworkId, row.controlId, row.ruleId));
      if HasGapId(s, c.runId, GapIdOf(row)) {
        ComplianceGapRowIdInjective((c.runId, f, r.controlId, r.ruleId),
                                    (row.runId, row.frameworkId, row.controlId, row.ruleId));
      }
    }
  }

  /** What a regular write leaves under a gap id: a row of this run, or the other run's row that was there. */
  lemma GapAfter(t: Tables, c: Corpus, id: string)
    requires GapsAgree(t) && Regular(c)
    ensures forall i :: 0 <= i < |c.results| && HasGapId(c.results[i], c.runId, id) ==>
              Get(Stored(t, c).gaps, id) == Some(GapRowOf(c.runId, c.results[i].result))
    ensures (forall i :: 0 <= i < |c.results| ==> !HasGapId(c.results[i], c.runId, id)) ==>
              Get(Stored(t, c).gaps, id) == Get(Without(t.gaps, OwnGap(c.runId)), id)
  {
    hide PutGaps, PutGapsAt, HasGapId, HasLegacyId, NoCollision, GapIdsDiffer, IsGapRow, GapIdOf, GapRowOf;
    var run, items, cleared := c.runId, c.results, Without(t.gaps, OwnGap(c.runId));
    PutGapsGet(cleared, run, items, id);
    RegularGaps(run, c);
    assert Get(Stored(t, c).gaps, id) == PutGapsAt(Get(cleared, id), run, items, id);
    if id in cleared {
      var resultId :| IsGapOf(t.results, id, t.gaps[id], resultId);
      forall i | 0 <= i < |items| ensures !HasGapId(items[i], run, id) && !HasLegacyId(items[i], id) {
        assert items[i] in items;
        GapRunIs(t.results[resultId]);
        ForeignGapId(c, items[i], t.results[resultId]);
      }
      Untouched(Get(cleared, id), run, items, id);
    } else if i :| 0 <= i < |items| && HasGapId(items[i], run, id) {
      forall j | 0 <= j < |items| && HasGapId(items[j], run, id)
        ensures PutGapsAt(None, run, items, id) == Some(GapRowOf(run, items[j].result))
      {
        GapIdKept(None, run, items, id, j);
      }
    } else {
      LegacyIdGone(None, run, items, id);
    }
  }

  lemma GapRunIs(row: ResultRow)
    ensures GapFrom(row).runId == row.runId
  {
  }

  lemma GapOfRow(run: string, s: ScopedResult)
    requires s.frameworkId != Some("")
    ensures IsGapRow(RowOf(run, s)) <==> GapOf(s).Some?
    ensures GapOf(s).Some? ==> HasGapId(s, run, GapIdOf(RowOf(run, s)))
                               && GapFrom(RowOf(run, s)) == GapRowOf(run, s.result)
  {
    hide ComplianceGapRowId;
    LabelsPersist(s.result.status);
    assert Label(Fail) == "FAIL" && Label(Warning) == "WARNING";
  }

  lemma GapHasResult(t: Tables, c: Corpus, id: string)
    requires WellKeyed(t.results) && GapsAgree(t) && Regular(c) && id in Stored(t, c).gaps
    ensures exists resultId :: IsGapOf(Stored(t, c).results, id, Stored(t, c).gaps[id], resultId)
  {
    hide Stored, HasGapId, IsGapRow, GapIdOf, GapFrom, GapRowOf, ResultId, WellKeyed;
    var u, run, items := Stored(t, c), c.runId, c.results;
    GapAfter(t, c, id);
    if i :| 0 <= i < |items| && HasGapId(items[i], run, id) {
      var s := items[i];
      assert s in items;
      GapOfRow(run, s);
      SameGapId(run, s, id);
      assert Exports(run, items)[i] == ResultExport(ResultId(run)(s), RowOf(run, s));
      ResultSetIs(t, c, ResultExport(ResultId(run)(s), RowOf(run, s)));
      assert IsGapOf(u.results, id, u.gaps[id], ResultId(run)(s));
    } else {
      var resultId :| IsGapOf(t.results, id, t.gaps[id], resultId);
      GapRunIs(t.results[resultId]);
      OtherRowSame(t, c, t.results[resultId].runId);
      assert IsGapOf(u.results, id, u.gaps[id], resultId);
    }
  }

  lemma SameGapId(run: string, s: ScopedResult, id: string)
    requires HasGapId(s, run, id)
    ensures GapOf(s).Some? && GapIdOf(RowOf(run, s)) == id
  {
    hide ComplianceGapRowId;
  }

  lemma ResultHasGap(t: Tables, c: Corpus, resultId: string)
    requires WellKeyed(t.results) && GapsAgree(t) && Regular(c)
    requires resultId in Stored(t, c).results && IsGapRow(Stored(t, c).results[resultId])
    ensures GapIdOf(Stored(t, c).results[resultId]) in Stored(t, c).gaps
  {
    hide Stored, HasGapId, HasLegacyId, IsGapRow, GapIdOf, GapFrom, GapRowOf, ResultId, WellKeyed;
    var u, run, items := Stored(t, c), c.runId, c.results;
    var row := u.results[resultId];
    var id := GapIdOf(row);
    GapAfter(t, c, id);
    if row.runId == run {
      assert ResultExport(resultId, row) in ResultSet(u, run);
      ResultSetIs(t, c, ResultExport(resultId, row));
      var i :| 0 <= i < |items| && Exports(run, items)[i] == ResultExport(resultId, row);
      assert items[i] in items;
      GapOfRow(run, items[i]);
      assert Get(u.gaps, id) == Some(GapRowOf(run, items[i].result));
    } else {
      OtherRowSame(t, c, row.runId);
      forall i | 0 <= i < |items| ensures !HasGapId(items[i], run, id) {
        assert items[i] in items;
        ForeignGapId(c, items[i], row);
      }
      assert id in t.gaps;
      var other :| IsGapOf(t.results, id, t.gaps[id], other);
      SameGapSameRun(row, t.results[other]);
      GapRunIs(t.results[other]);
      assert Get(u.gaps, id) == Some(t.gaps[id]);
    }
  }

  lemma SameGapSameRun(x: ResultRow, y: ResultRow)
    requires GapIdOf(x) == GapIdOf(y)
    ensures x.runId == y.runId
  {
    ComplianceGapRowIdInjective((x.runId, x.frameworkId, x.controlId, x.ruleId),
                                (y.runId, y.frameworkId, y.controlId, y.ruleId));
  }

  lemma GapsAgreeAfter(t: Tables, c: Corpus)
    requires WellKeyed(t.results) && GapsAgree(t) && Regular(c)
    ensures GapsAgree(Stored(t, c))
  {
    hide Stored, WellKeyed, Regular, IsGapOf, GapsAgree, IsGapRow, GapIdOf;
    var u := Stored(t, c);
    forall id | id in u.gaps ensures exists resultId :: IsGapOf(u.results, id, u.gaps[id], resultId) {
      GapHasResult(t, c, id);
    }
    forall resultId | resultId in u.results && IsGapRow(u.results[resultId])
      ensures GapIdOf(u.results[resultId]) in u.gaps
    {
      ResultHasGap(t, c, resultId);
    }
    GapsAgreeWhen(u);
  }

  lemma GapsAgreeWhen(t: Tables)
    requires forall id :: id in t.gaps ==> exists resultId :: IsGapOf(t.results, id, t.gaps[id], resultId)
    requires forall resultId :: resultId in t.results && IsGapRow(t.results[resultId]) ==>
               GapIdOf(t.results[resultId]) in t.gaps
    ensures GapsAgree(t)
  {
  }

  // ----- every reachable database

  ghost predicate RegularOperation(op: Operation) {
    op.Write? ==> Regular(op.corpus)
  }

  /**
   In every database reached from a new one by writes of regular corpora, and by backfills, the derived tables
   agree with the results, and a backfill changes nothing.
   */
  lemma {:induction false} DerivedTablesAgree(legacyOwner: bool, ops: seq<Operation>)
    requires forall i :: 0 <= i < |ops| ==> RegularOperation(ops[i])
    ensures var t := Replayed(Fresh(legacyOwner), ops);
            ScoresAgree(t) && GapsAgree(t) && Backfilled(t) == t
  {
    hide Stored, Refusal, WellKeyed, Regular, ScoresAgree, GapsAgree, Backfilled;
    var t := Replayed(Fresh(legacyOwner), ops);
    if |ops| == 0 {
      NewDatabaseAgrees(legacyOwner);
    } else {
      var init, last := ops[..|ops| - 1], ops[|ops| - 1];
      DerivedTablesAgree(legacyOwner, init);
      ReplayedWellKeyed(legacyOwner, init);
      assert RegularOperation(last);
      if last.Write? && Refusal(last.corpus) == None {
        RegularWriteAgrees(Replayed(Fresh(legacyOwner), init), last.corpus);
      }
    }
    BackfillChangesNothing(t);
  }

  lemma NewDatabaseAgrees(legacyOwner: bool)
    ensures ScoresAgree(Fresh(legacyOwner)) && GapsAgree(Fresh(legacyOwner))
  {
  }

  lemma RegularWriteAgrees(t: Tables, c: Corpus)
    requires WellKeyed(t.results) && ScoresAgree(t) && GapsAgree(t) && Regular(c) && Refusal(c) == None
    ensures ScoresAgree(Stored(t, c)) && GapsAgree(Stored(t, c))
  {
    hide Stored, WellKeyed, ScoresAgree, GapsAgree;
    assert Blank("");
    DistinctKeysReplaceNothing(c.results);
    ScoresAgreeExactly(t, c);
    GapsAgreeAfter(t, c);
  }

  // ----- the gaps the exports list

  lemma {:induction false} CollectedGaps(items: seq<ScopedResult>, gap: (string, ControlResult))
    ensures gap in CollectGaps(items) <==> exists s :: s in items && GapOf(s) == Some(gap)
  {
    if |items| > 0 {
      CollectedGaps(items[1..], gap);
      assert items == [items[0]] + items[1..];
    }
  }

  /**
   After a regular write to a database that agrees, the run's gap rows, the gaps the signed export lists and the
   gaps the spreadsheet lists are the same.
   */
  lemma SameGapsEverywhere(t: Tables, c: Corpus, gap: (string, ControlResult))
    requires GapsAgree(t) && Regular(c)
    ensures gap in SignedExport.ExportedGaps(c.results) <==> gap in CollectGaps(ResultsInReportingOrder(c.results))
    ensures gap in SignedExport.ExportedGaps(c.results) ==>
              Get(Stored(t, c).gaps, GapId(c.runId, gap.0, gap.1)) == Some(GapRowOf(c.runId, gap.1))
  {
    hide Stored, GapId, GapOf, ResultsInReportingOrder, SignedExport.ExportedGaps, Regular, GapsAgree;
    var items := c.results;
    GapsOfSorted(items, gap);
    var id := GapId(c.runId, gap.0, gap.1);
    GapAfter(t, c, id);
    if gap in SignedExport.ExportedGaps(items) {
      var s :| s in items && GapOf(s) == Some(gap);
      var i :| 0 <= i < |items| && items[i] == s;
      GapOfIsResult(s);
      assert HasGapId(items[i], c.runId, id);
    }
  }

  /** Every column of the row of a listed gap. */
  lemma ListedGapColumns(t: Tables, c: Corpus, gap: (string, ControlResult))
    requires GapsAgree(t) && Regular(c) && gap in SignedExport.ExportedGaps(c.results)
    ensures match Get(Stored(t, c).gaps, GapId(c.runId, gap.0, gap.1))
            case None => false
            case Some(row) =>
              && row.runId == c.runId && PersistedStatus(row.status) == Ok(gap.1.status)
              && row.severity == gap.1.severity && row.controlId == gap.1.controlId && row.ruleId == gap.1.ruleId
  {
    hide Stored, GapId, Regular, GapsAgree, SignedExport.ExportedGaps;
    SameGapsEverywhere(t, c, gap);
    LabelsPersist(gap.1.status);
  }

  /** Both listings have the gaps of the results, whatever their order. */
  lemma GapsOfSorted(items: seq<ScopedResult>, gap: (string, ControlResult))
    ensures gap in SignedExport.ExportedGaps(items) <==> exists s :: s in items && GapOf(s) == Some(gap)
    ensures gap in CollectGaps(ResultsInReportingOrder(items)) <==> exists s :: s in items && GapOf(s) == Some(gap)
  {
    hide Sort, GapOf, CollectGaps;
    var signed, listed := SignedExport.OrderedScopedResults(items), ResultsInReportingOrder(items);
    SortSorts(items, SignedExport.ScopedKey);
    SortSorts(items, ReportingKey);
    SameMembers(signed, items);
    SameMembers(listed, items);
    CollectedGaps(signed, gap);
    CollectedGaps(listed, gap);
  }

  lemma GapOfIsResult(s: ScopedResult)
    ensures GapOf(s).Some? ==> GapOf(s).value.1 == s.result
  {
  }

  /** And the run has no other gap rows. */
  lemma NoOtherGapRows(t: Tables, c: Corpus, id: string)
    requires GapsAgree(t) && Regular(c) && id in Stored(t, c).gaps && Stored(t, c).gaps[id].runId == c.runId
    ensures exists gap :: gap in SignedExport.ExportedGaps(c.results) && id == GapId(c.runId, gap.0, gap.1)
                          && Stored(t, c).gaps[id] == GapRowOf(c.runId, gap.1)
  {
    hide Stored, GapId, Sort, KeyLess, GapOf;
    var items, signed := c.results, SignedExport.OrderedScopedResults(c.results);
    SortSorts(items, SignedExport.ScopedKey);
    SameMembers(signed, items);
    GapAfter(t, c, id);
    var i :| 0 <= i < |items| && HasGapId(items[i], c.runId, id);
    var gap := GapOf(items[i]).value;
    GapOfIsResult(items[i]);
    CollectedGaps(signed, gap);
    assert items[i] in signed;
  }
}

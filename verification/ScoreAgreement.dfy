/** When the score summaries are a recount of the stored results: exactly when no counted result is replaced. */
module ScoreAgreement {
  import opened Wrappers
  import opened Ordering
  import opened Folds
  import opened Corpora
  import opened RowIds
  import opened Database
  import opened RunIsolation
  import opened RunRoundTrip
  import opened WriteOrder

  /** Every summary is the recount of its run and framework, and every run and framework with results has one. */
  ghost predicate ScoresAgree(t: Tables) {
    && (forall id :: id in t.scores ==>
          var row := t.scores[id];
          id == ScoreSummaryRowId(row.runId, row.frameworkId)
          && (row.runId, row.frameworkId) in Groups(t.results)
          && row.counts == Recount(t.results, (row.runId, row.frameworkId)))
    && (forall g :: g in Groups(t.results) ==> ScoreSummaryRowId(g.0, g.1) in t.scores)
  }

  /** A result that a summary counts. */
  predicate IsCounted(s: ScopedResult) {
    s.frameworkId.Some? && s.frameworkId.value != "" && s.result.status in {Pass, Fail, Warning}
  }

  /** A counted result comes before another result under the same key, which will replace its row. */
  predicate Replaced(items: seq<ScopedResult>, i: nat, j: nat) {
    i < j < |items| && IsCounted(items[i]) && ScopedKey()(items[i]) == ScopedKey()(items[j])
  }

  predicate NoneReplaced(items: seq<ScopedResult>) {
    forall i, j :: 0 <= i < j < |items| ==> !Replaced(items, i, j)
  }

  lemma DistinctKeysReplaceNothing(items: seq<ScopedResult>)
    requires DistinctKeys(items, ScopedKey())
    ensures NoneReplaced(items)
  {
  }

  // ----- counting the rows that items leave

  /** The row ids at which the items leave a result of a framework with a status. */
  function Leaves(run: string, items: seq<ScopedResult>, framework: string, status: Status): set<string> {
    if |items| == 0 then {}
    else
      var last := items[|items| - 1];
      var before, id := Leaves(run, items[..|items| - 1], framework, status), ResultId(run)(last);
      if Weight(last, framework, status) == 1 then before + {id} else before - {id}
  }

  predicate Shows(row: Option<ResultRow>, run: string, framework: string, status: Status) {
    row.Some? && row.value.runId == run && row.value.frameworkId == framework && row.value.status == Label(status)
  }

  lemma LabelsDiffer(a: Status, b: Status)
    requires Label(a) == Label(b)
    ensures a == b
  {
    LabelsPersist(a);
    LabelsPersist(b);
  }

  /** The items leave such a row exactly at these ids, whatever rows of other runs were there. */
  lemma {:induction false} LeftRow(
    prior: Option<ResultRow>, run: string, items: seq<ScopedResult>, framework: string, status: Status, id: string)
    requires framework != "" && (prior.Some? ==> prior.value.runId != run)
    ensures Shows(Merged(prior, items, ResultId(run), ResultRowMerge(run), id), run, framework, status)
       <==> id in Leaves(run, items, framework, status)
  {
    hide ControlResultRowId;
    if |items| > 0 {
      var last := items[|items| - 1];
      LeftRow(prior, run, items[..|items| - 1], framework, status, id);
      if Label(last.result.status) == Label(status) { LabelsDiffer(last.result.status, status); }
    }
  }

  lemma OwnCountedIds(t: Tables, c: Corpus, framework: string, status: Status)
    requires framework != ""
    ensures CountedIds(Stored(t, c).results, (c.runId, framework), Label(status))
         == Leaves(c.runId, c.results, framework, status)
  {
    hide Upserts, Merged, Leaves, ControlResultRowId;
    var run, rows, cleared := c.runId, Stored(t, c).results, Without(t.results, OwnResult(c.runId));
    forall id ensures id in CountedIds(rows, (run, framework), Label(status))
                 <==> id in Leaves(run, c.results, framework, status)
    {
      UpsertsGet(cleared, c.results, ResultId(run), ResultRowMerge(run), id);
      LeftRow(Get(cleared, id), run, c.results, framework, status, id);
      assert Get(rows, id) == Merged(Get(cleared, id), c.results, ResultId(run), ResultRowMerge(run), id);
    }
  }

  /** A matching item with an id that no later item has leaves its row. */
  lemma {:induction false} LastIsLeft(run: string, items: seq<ScopedResult>, framework: string, status: Status, i: nat)
    requires i < |items| && Weight(items[i], framework, status) == 1
    requires forall j :: i < j < |items| ==> ResultId(run)(items[j]) != ResultId(run)(items[i])
    ensures ResultId(run)(items[i]) in Leaves(run, items, framework, status)
  {
    hide ResultId;
    var n := |items| - 1;
    if i < n { LastIsLeft(run, items[..n], framework, status, i); }
  }

  lemma {:induction false} LeftByItem(
    run: string, items: seq<ScopedResult>, framework: string, status: Status, id: string)
    requires id in Leaves(run, items, framework, status)
    ensures exists i :: 0 <= i < |items| && Weight(items[i], framework, status) == 1 && ResultId(run)(items[i]) == id
  {
    hide ResultId;
    var n := |items| - 1;
    if Weight(items[n], framework, status) == 1 && ResultId(run)(items[n]) == id {
    } else {
      LeftByItem(run, items[..n], framework, status, id);
      var i :| 0 <= i < n && Weight(items[..n][i], framework, status) == 1 && ResultId(run)(items[..n][i]) == id;
      assert items[i] == items[..n][i];
    }
  }

  /** A matching item before another item with its id. */
  predicate Overwritten(run: string, items: seq<ScopedResult>, framework: string, status: Status, i: nat, j: nat) {
    i < j < |items| && Weight(items[i], framework, status) == 1 && ResultId(run)(items[i]) == ResultId(run)(items[j])
  }

  predicate NoneOverwritten(run: string, items: seq<ScopedResult>, framework: string, status: Status) {
    forall i, j :: 0 <= i < j < |items| ==> !Overwritten(run, items, framework, status, i, j)
  }

  lemma OverwrittenStep(run: string, items: seq<ScopedResult>, framework: string, status: Status)
    requires |items| > 0
    ensures var n := |items| - 1;
            NoneOverwritten(run, items, framework, status)
            <==> NoneOverwritten(run, items[..n], framework, status)
                 && forall i :: 0 <= i < n ==> !Overwritten(run, items, framework, status, i, n)
  {
    hide ResultId, Weight;
    var n := |items| - 1;
    var init := items[..n];
    forall i, j | 0 <= i < j < n
      ensures Overwritten(run, init, framework, status, i, j) <==> Overwritten(run, items, framework, status, i, j)
    {
    }
    if NoneOverwritten(run, init, framework, status)
       && forall i :: 0 <= i < n ==> !Overwritten(run, items, framework, status, i, n)
    {
      forall i, j | 0 <= i < j < |items| ensures !Overwritten(run, items, framework, status, i, j) {
        if j < n { assert !Overwritten(run, init, framework, status, i, j); }
      }
    }
  }

  /** The tally is at least the number of rows left, and equal exactly when no matching item is overwritten. */
  lemma {:induction false} TallyCountsRows(run: string, items: seq<ScopedResult>, framework: string, status: Status)
    ensures |Leaves(run, items, framework, status)| <= Tally(items, framework, status)
    ensures |Leaves(run, items, framework, status)| == Tally(items, framework, status)
       <==> NoneOverwritten(run, items, framework, status)
  {
    hide ResultId, NoneOverwritten, Tally, Leaves, Overwritten;
    if |items| == 0 {
      NothingOverwritten(run, items, framework, status);
    } else {
      TallyStep(items, framework, status);
      LeavesStep(run, items, framework, status);
      var n := |items| - 1;
      var before, id := Leaves(run, items[..n], framework, status), ResultId(run)(items[n]);
      TallyCountsRows(run, items[..n], framework, status);
      OverwrittenStep(run, items, framework, status);
      OverwritesLeft(run, items, framework, status);
      if id in before { assert before + {id} == before; } else { assert before - {id} == before; }
    }
  }

  lemma LeavesStep(run: string, items: seq<ScopedResult>, framework: string, status: Status)
    requires |items| > 0
    ensures var last := items[|items| - 1];
            var before, id := Leaves(run, items[..|items| - 1], framework, status), ResultId(run)(last);
            Leaves(run, items, framework, status)
            == if Weight(last, framework, status) == 1 then before + {id} else before - {id}
  {
    hide ResultId;
  }

  lemma NothingOverwritten(run: string, items: seq<ScopedResult>, framework: string, status: Status)
    requires |items| == 0
    ensures NoneOverwritten(run, items, framework, status)
    ensures Leaves(run, items, framework, status) == {} && Tally(items, framework, status) == 0
  {
  }

  /** If nothing was overwritten before, the last item overwrites exactly when its id is among the rows left. */
  lemma OverwritesLeft(run: string, items: seq<ScopedResult>, framework: string, status: Status)
    requires |items| > 0
    ensures var n := |items| - 1;
            NoneOverwritten(run, items[..n], framework, status) ==>
              (ResultId(run)(items[n]) in Leaves(run, items[..n], framework, status)
               <==> exists i :: 0 <= i < n && Overwritten(run, items, framework, status, i, n))
  {
    hide ResultId, Weight, Leaves;
    var n := |items| - 1;
    var init, id := items[..n], ResultId(run)(items[n]);
    if id in Leaves(run, init, framework, status) {
      LeftByItem(run, init, framework, status, id);
      var i :| 0 <= i < n && Weight(init[i], framework, status) == 1 && ResultId(run)(init[i]) == id;
      assert Overwritten(run, items, framework, status, i, n);
    }
    if NoneOverwritten(run, init, framework, status) {
      if i :| 0 <= i < n && Overwritten(run, items, framework, status, i, n) {
        forall j | i < j < |init| ensures ResultId(run)(init[j]) != ResultId(run)(init[i]) {
          assert !Overwritten(run, init, framework, status, i, j);
        }
        LastIsLeft(run, init, framework, status, i);
      }
    }
  }

  /** The written counts of a framework are the recount of its stored rows when none of its results is overwritten. */
  lemma OwnRecount(t: Tables, c: Corpus, framework: string)
    requires framework != ""
    ensures Recount(Stored(t, c).results, (c.runId, framework)) == CountsOf(c.results, framework)
       <==> forall status :: status in {Pass, Fail, Warning} ==>
              NoneOverwritten(c.runId, c.results, framework, status)
  {
    hide Stored, Tally, Leaves, NoneOverwritten;
    forall status
      ensures |CountedIds(Stored(t, c).results, (c.runId, framework), Label(status))|
           == Tally(c.results, framework, status)
         <==> NoneOverwritten(c.runId, c.results, framework, status)
    {
      OwnCountedIds(t, c, framework, status);
      TallyCountsRows(c.runId, c.results, framework, status);
    }
    assert Label(Pass) == "PASS" && Label(Fail) == "FAIL" && Label(Warning) == "WARNING";
  }

  lemma OverwrittenIsReplaced(run: string, items: seq<ScopedResult>)
    ensures NoneReplaced(items)
       <==> forall framework, status | framework != "" && status in {Pass, Fail, Warning} ::
              NoneOverwritten(run, items, framework, status)
  {
    hide ResultId, ScopedKey;
    if NoneReplaced(items) {
      forall framework, status | framework != "" && status in {Pass, Fail, Warning}
        ensures NoneOverwritten(run, items, framework, status)
      {
        forall i, j | 0 <= i < j < |items| ensures !Overwritten(run, items, framework, status, i, j) {
          SameKeySameId(run, items[i], items[j]);
          assert !Replaced(items, i, j);
        }
      }
    } else {
      var i, j :| 0 <= i < j < |items| && Replaced(items, i, j);
      SameKeySameId(run, items[i], items[j]);
      assert Overwritten(run, items, items[i].frameworkId.value, items[i].result.status, i, j);
      assert !NoneOverwritten(run, items, items[i].frameworkId.value, items[i].result.status);
    }
  }

  // ----- rows of other runs

  lemma OtherRowSame(t: Tables, c: Corpus, other: string)
    requires WellKeyed(t.results) && other != c.runId
    ensures var rows := Stored(t, c).results;
            forall id :: (id in rows && rows[id].runId == other) == (id in t.results && t.results[id].runId == other)
                         && (id in t.results && t.results[id].runId == other ==> rows[id] == t.results[id])
  {
    hide WellKeyed, Stored, LeavesRowsOf;
    WellKeyedLeavesRows(t.results, c, other);
    forall id
      ensures var rows := Stored(t, c).results;
              (id in rows && rows[id].runId == other) == (id in t.results && t.results[id].runId == other)
              && (id in t.results && t.results[id].runId == other ==> rows[id] == t.results[id])
    {
      OtherResultsStay(t, c, id, other);
    }
  }

  lemma OtherRecount(t: Tables, c: Corpus, group: (string, string))
    requires WellKeyed(t.results) && group.0 != c.runId
    ensures Recount(Stored(t, c).results, group) == Recount(t.results, group)
  {
    hide WellKeyed, Stored;
    OtherRowSame(t, c, group.0);
    OtherCount(t, c, group, "PASS");
    OtherCount(t, c, group, "FAIL");
    OtherCount(t, c, group, "WARNING");
  }

  lemma OtherCount(t: Tables, c: Corpus, group: (string, string), status: string)
    requires WellKeyed(t.results) && group.0 != c.runId
    ensures CountedIds(Stored(t, c).results, group, status) == CountedIds(t.results, group, status)
  {
    hide WellKeyed, Stored;
    OtherRowSame(t, c, group.0);
  }

  // ----- which groups there are

  lemma OwnGroup(t: Tables, c: Corpus, framework: string)
    requires c.runId != ""
    ensures (c.runId, framework) in Groups(Stored(t, c).results) <==> framework in Summaries(c.results)
  {
    hide Stored, Groups, Summaries;
    if (c.runId, framework) in Groups(Stored(t, c).results) { GroupIsSummarised(t, c, framework); }
    if framework in Summaries(c.results) { SummarisedIsGroup(t, c, framework); }
  }

  lemma GroupIsSummarised(t: Tables, c: Corpus, framework: string)
    requires (c.runId, framework) in Groups(Stored(t, c).results)
    ensures framework in Summaries(c.results)
  {
    hide Stored, ControlResultRowId, CountsOf;
    var run, rows := c.runId, Stored(t, c).results;
    var id :| id in rows && rows[id].runId == run && rows[id].frameworkId == framework && framework != "";
    var i := OwnRowItem(t, c, id);
    assert c.results[i] in c.results;
  }

  lemma SummarisedIsGroup(t: Tables, c: Corpus, framework: string)
    requires c.runId != "" && framework in Summaries(c.results)
    ensures (c.runId, framework) in Groups(Stored(t, c).results)
  {
    hide Upserts, Merged, ControlResultRowId, CountsOf;
    var run := c.runId;
    var s :| s in c.results && s.frameworkId == Some(framework);
    var i :| 0 <= i < |c.results| && c.results[i] == s;
    var id := ResultId(run)(s);
    OwnRows(t.results, c.results, ResultId(run), ResultRowMerge(run), OwnResult(run), id);
    assert HasKey(c.results, ResultId(run), id);
    var j := OwnRowItem(t, c, id);
    SameKeySameId(run, s, c.results[j]);
    SameFramework(s, c.results[j]);
  }

  lemma SameFramework(x: ScopedResult, y: ScopedResult)
    requires ScopedKey()(x) == ScopedKey()(y)
    ensures FrameworkOf(x) == FrameworkOf(y)
  {
    assert ScopedKey()(x)[2] == ScopedKey()(y)[2];
  }

  /** A row of the run is what some item wrote under that id. */
  lemma OwnRowItem(t: Tables, c: Corpus, id: string) returns (i: nat)
    requires id in Stored(t, c).results && Stored(t, c).results[id].runId == c.runId
    ensures i < |c.results| && ResultId(c.runId)(c.results[i]) == id
    ensures Stored(t, c).results[id] == RowOf(c.runId, c.results[i])
  {
    hide Upserts, Merged, ControlResultRowId;
    var run, cleared := c.runId, Without(t.results, OwnResult(c.runId));
    OwnRows(t.results, c.results, ResultId(run), ResultRowMerge(run), OwnResult(run), id);
    UpsertsGet(cleared, c.results, ResultId(run), ResultRowMerge(run), id);
    LastMerge(Get(cleared, id), c.results, ResultId(run), ResultRowMerge(run), id);
    var k, before :| 0 <= k < |c.results| && ResultId(run)(c.results[k]) == id
                     && Merged(Get(cleared, id), c.results, ResultId(run), ResultRowMerge(run), id)
                        == Some(ResultRowMerge(run)(before, c.results[k]));
    i := k;
  }

  lemma OtherGroup(t: Tables, c: Corpus, group: (string, string))
    requires WellKeyed(t.results) && group.0 != c.runId
    ensures group in Groups(Stored(t, c).results) <==> group in Groups(t.results)
  {
    hide WellKeyed, Stored;
    OtherRowSame(t, c, group.0);
  }

  // ----- score summaries

  lemma ScoreAfter(t: Tables, c: Corpus, run: string, framework: string)
    ensures Get(Stored(t, c).scores, ScoreSummaryRowId(run, framework))
         == if run == c.runId && framework in Summaries(c.results)
            then Some(ScoreRow(run, framework, CountsOf(c.results, framework)))
            else Get(Without(t.scores, OwnScore(c.runId)), ScoreSummaryRowId(run, framework))
  {
    hide Upserts, Ordered, ScoreSummaryRowId, CountsOf;
    var m, id := Summaries(c.results), ScoreSummaryRowId(run, framework);
    var order, cleared := SummaryOrder(m), Without(t.scores, OwnScore(c.runId));
    SummaryOrderListsKeys(m);
    UpsertsGet(cleared, order, ScoreId(c.runId), ScoreRowMerge(c.runId, m), id);
    if run == c.runId && framework in m {
      var i :| 0 <= i < |order| && order[i] == framework;
      assert ScoreId(c.runId)(order[i]) == id;
    }
    if HasKey(order, ScoreId(c.runId), id) {
      LastMerge(Get(cleared, id), order, ScoreId(c.runId), ScoreRowMerge(c.runId, m), id);
      var i, before :| 0 <= i < |order| && ScoreId(c.runId)(order[i]) == id
                       && Merged(Get(cleared, id), order, ScoreId(c.runId), ScoreRowMerge(c.runId, m), id)
                          == Some(ScoreRowMerge(c.runId, m)(before, order[i]));
      ScoreSummaryRowIdInjective(c.runId, order[i], run, framework);
      assert order[i] in order;
    } else {
      NoKeyNoChange(Get(cleared, id), order, ScoreId(c.runId), ScoreRowMerge(c.runId, m), id);
    }
  }

  /** Every summary after a write lies under the id of its run and framework. */
  lemma ScoresKeyed(t: Tables, c: Corpus, id: string)
    requires ScoresAgree(t) && id in Stored(t, c).scores
    ensures var row := Stored(t, c).scores[id]; id == ScoreSummaryRowId(row.runId, row.frameworkId)
  {
    hide Upserts, Ordered, ScoreSummaryRowId, Summaries, Groups, Recount;
    var m := Summaries(c.results);
    var order, cleared := SummaryOrder(m), Without(t.scores, OwnScore(c.runId));
    UpsertsGet(cleared, order, ScoreId(c.runId), ScoreRowMerge(c.runId, m), id);
    assert Get(Stored(t, c).scores, id) == Some(Stored(t, c).scores[id]);
    if HasKey(order, ScoreId(c.runId), id) {
      LastMerge(Get(cleared, id), order, ScoreId(c.runId), ScoreRowMerge(c.runId, m), id);
    } else {
      NoKeyNoChange(Get(cleared, id), order, ScoreId(c.runId), ScoreRowMerge(c.runId, m), id);
      assert Get(cleared, id) == Get(t.scores, id);
    }
  }

  /** All of the summaries after a write, except whether the run's own counts are right. */
  lemma SummariesStand(t: Tables, c: Corpus)
    requires WellKeyed(t.results) && ScoresAgree(t) && c.runId != ""
    ensures ScoresAgree(Stored(t, c))
       <==> forall framework :: framework in Summaries(c.results) ==>
              Recount(Stored(t, c).results, (c.runId, framework)) == CountsOf(c.results, framework)
  {
    hide Stored, Groups, Recount, Summaries, WellKeyed, CountsOf, ScoreSummaryRowId;
    var u := Stored(t, c);
    if ScoresAgree(u) {
      forall framework | framework in Summaries(c.results)
        ensures Recount(u.results, (c.runId, framework)) == CountsOf(c.results, framework)
      {
        ScoreAfter(t, c, c.runId, framework);
      }
    }
    if forall framework :: framework in Summaries(c.results) ==>
         Recount(u.results, (c.runId, framework)) == CountsOf(c.results, framework)
    {
      forall id | id in u.scores
        ensures var row := u.scores[id];
                id == ScoreSummaryRowId(row.runId, row.frameworkId)
                && (row.runId, row.frameworkId) in Groups(u.results)
                && row.counts == Recount(u.results, (row.runId, row.frameworkId))
      {
        ScoresKeyed(t, c, id);
        SummaryIsRecount(t, c, u.scores[id].runId, u.scores[id].frameworkId);
      }
      forall g | g in Groups(u.results) ensures ScoreSummaryRowId(g.0, g.1) in u.scores {
        GroupHasSummary(t, c, g);
      }
    }
  }

  lemma SummaryIsRecount(t: Tables, c: Corpus, run: string, framework: string)
    requires WellKeyed(t.results) && ScoresAgree(t) && c.runId != ""
    requires framework in Summaries(c.results) ==>
               Recount(Stored(t, c).results, (c.runId, framework)) == CountsOf(c.results, framework)
    requires var id, u := ScoreSummaryRowId(run, framework), Stored(t, c);
             id in u.scores && u.scores[id].runId == run && u.scores[id].frameworkId == framework
    ensures var id, u := ScoreSummaryRowId(run, framework), Stored(t, c);
            (run, framework) in Groups(u.results) && u.scores[id].counts == Recount(u.results, (run, framework))
  {
    hide Stored, Groups, Recount, WellKeyed, CountsOf, ScoreSummaryRowId, Summaries;
    ScoreAfter(t, c, run, framework);
    if run == c.runId {
      OwnGroup(t, c, framework);
    } else {
      OtherGroup(t, c, (run, framework));
      OtherRecount(t, c, (run, framework));
    }
  }

  lemma GroupHasSummary(t: Tables, c: Corpus, g: (string, string))
    requires WellKeyed(t.results) && ScoresAgree(t) && c.runId != ""
    requires g in Groups(Stored(t, c).results)
    ensures ScoreSummaryRowId(g.0, g.1) in Stored(t, c).scores
  {
    hide Stored, Groups, Recount, WellKeyed, CountsOf, Summaries, ScoreSummaryRowId;
    ScoreAfter(t, c, g.0, g.1);
    if g.0 == c.runId {
      OwnGroup(t, c, g.1);
    } else {
      OtherGroup(t, c, g);
      var row := t.scores[ScoreSummaryRowId(g.0, g.1)];
      ScoreSummaryRowIdInjective(g.0, g.1, row.runId, row.frameworkId);
    }
  }

  lemma CountedIsScoped(items: seq<ScopedResult>, framework: string, status: Status)
    ensures framework != "" && framework !in Summaries(items) ==> forall i :: 0 <= i < |items| ==>
              Weight(items[i], framework, status) == 0
  {
    hide CountsOf;
    if framework != "" && framework !in Summaries(items) {
      forall i | 0 <= i < |items| ensures Weight(items[i], framework, status) == 0 {
        assert items[i] in items;
      }
    }
  }

  /**
   A write to a database whose summaries agree leaves them agreeing exactly when no counted result of the corpus
   comes before another result with the same control, rule and framework.
   */
  lemma ScoresAgreeExactly(t: Tables, c: Corpus)
    requires WellKeyed(t.results) && ScoresAgree(t) && c.runId != ""
    ensures ScoresAgree(Stored(t, c)) <==> NoneReplaced(c.results)
  {
    hide Stored, ScoresAgree, Recount, Summaries, WellKeyed, CountsOf, NoneReplaced, NoneOverwritten;
    SummariesStand(t, c);
    OverwrittenIsReplaced(c.runId, c.results);
    SummariesNameFrameworks(c.results);
    if NoneReplaced(c.results) {
      forall framework | framework in Summaries(c.results)
        ensures Recount(Stored(t, c).results, (c.runId, framework)) == CountsOf(c.results, framework)
      {
        OwnRecount(t, c, framework);
      }
    } else {
      var framework, status :| framework != "" && status in {Pass, Fail, Warning}
                               && !NoneOverwritten(c.runId, c.results, framework, status);
      if framework !in Summaries(c.results) { UnscopedNotOverwritten(c.runId, c.results, framework, status); }
      OwnRecount(t, c, framework);
    }
  }

  lemma UnscopedNotOverwritten(run: string, items: seq<ScopedResult>, framework: string, status: Status)
    requires framework != "" && framework !in Summaries(items)
    ensures NoneOverwritten(run, items, framework, status)
  {
    hide Summaries, ResultId, Weight;
    CountedIsScoped(items, framework, status);
  }

  lemma SummariesNameFrameworks(items: seq<ScopedResult>)
    ensures "" !in Summaries(items)
  {
  }

  /** Summaries that agree are what a backfill would write. */
  lemma BackfillChangesNothing(t: Tables)
    requires ScoresAgree(t)
    ensures Backfilled(t) == t
  {
    hide Upserts, Groups, Recount, Ordered, ScoreSummaryRowId;
    var order := GroupOrder(t.results);
    forall id ensures Get(Backfilled(t).scores, id) == Get(t.scores, id) {
      UpsertsGet(t.scores, order, GroupScoreId(), RecountMerge(t.results), id);
      if HasKey(order, GroupScoreId(), id) {
        LastMerge(Get(t.scores, id), order, GroupScoreId(), RecountMerge(t.results), id);
        var i, before :| 0 <= i < |order| && GroupScoreId()(order[i]) == id
                         && Merged(Get(t.scores, id), order, GroupScoreId(), RecountMerge(t.results), id)
                            == Some(RecountMerge(t.results)(before, order[i]));
        assert order[i] in order && order[i] in Groups(t.results);
        ScoreSummaryRowIdInjective(order[i].0, order[i].1, t.scores[id].runId, t.scores[id].frameworkId);
      } else {
        NoKeyNoChange(Get(t.scores, id), order, GroupScoreId(), RecountMerge(t.results), id);
      }
    }
    MapsEqual(Backfilled(t).scores, t.scores);
  }

  // ----- the recount, in every database

  /** Some stored result names the run and the framework. */
  predicate NamesGroup(rows: map<string, ResultRow>, run: string, framework: string) {
    && run != "" && framework != ""
    && exists id :: id in rows && rows[id].runId == run && rows[id].frameworkId == framework
  }

  /** The id is that of the summary of a run and framework that stored results name. */
  ghost predicate IsGroupId(rows: map<string, ResultRow>, id: string) {
    exists run, framework :: NamesGroup(rows, run, framework) && id == ScoreSummaryRowId(run, framework)
  }

  lemma GroupsAreNamed(rows: map<string, ResultRow>, run: string, framework: string)
    ensures (run, framework) in Groups(rows) <==> NamesGroup(rows, run, framework)
  {
  }

  /** What a backfill leaves under the id of a run and framework that stored results name. */
  lemma NamedGroupIsRecounted(t: Tables, run: string, framework: string)
    requires NamesGroup(t.results, run, framework)
    ensures Get(Backfilled(t).scores, ScoreSummaryRowId(run, framework))
         == Some(ScoreRow(run, framework, Recount(t.results, (run, framework))))
  {
    hide Upserts, Groups, Recount, Ordered, ScoreSummaryRowId, NamesGroup;
    var order, id := GroupOrder(t.results), ScoreSummaryRowId(run, framework);
    GroupsAreNamed(t.results, run, framework);
    UpsertsGet(t.scores, order, GroupScoreId(), RecountMerge(t.results), id);
    var k :| 0 <= k < |order| && order[k] == (run, framework);
    assert GroupScoreId()(order[k]) == id;
    LastMerge(Get(t.scores, id), order, GroupScoreId(), RecountMerge(t.results), id);
    var i, before :| 0 <= i < |order| && GroupScoreId()(order[i]) == id
                     && Merged(Get(t.scores, id), order, GroupScoreId(), RecountMerge(t.results), id)
                        == Some(RecountMerge(t.results)(before, order[i]));
    ScoreSummaryRowIdInjective(order[i].0, order[i].1, run, framework);
  }

  /** Under every other id a backfill changes nothing. */
  lemma OtherSummariesStay(t: Tables, id: string)
    requires !IsGroupId(t.results, id)
    ensures Get(Backfilled(t).scores, id) == Get(t.scores, id)
  {
    hide Upserts, Groups, Ordered, ScoreSummaryRowId, NamesGroup;
    var order := GroupOrder(t.results);
    UpsertsGet(t.scores, order, GroupScoreId(), RecountMerge(t.results), id);
    forall i | 0 <= i < |order| ensures GroupScoreId()(order[i]) != id {
      assert order[i] in order && order[i] == (order[i].0, order[i].1);
      GroupsAreNamed(t.results, order[i].0, order[i].1);
    }
    NoKeyNoChange(Get(t.scores, id), order, GroupScoreId(), RecountMerge(t.results), id);
  }

  /**
   In every database: after a backfill each run and framework that stored results name has the summary of their
   recount, no other summary changes, and all summaries agree exactly when none was stored under another id.
   */
  lemma BackfillIsExact(t: Tables)
    ensures var u := Backfilled(t);
            && (forall run, framework :: NamesGroup(t.results, run, framework) ==>
                  Get(u.scores, ScoreSummaryRowId(run, framework))
                  == Some(ScoreRow(run, framework, Recount(t.results, (run, framework)))))
            && (forall id :: !IsGroupId(t.results, id) ==> Get(u.scores, id) == Get(t.scores, id))
            && u == t.(scores := u.scores)
            && (ScoresAgree(u) <==> forall id :: id in t.scores ==> IsGroupId(t.results, id))
  {
    hide Groups, Recount, ScoreSummaryRowId, NamesGroup, Backfilled;
    OnlyScoresChange(t);
    var u := Backfilled(t);
    forall run, framework | NamesGroup(t.results, run, framework)
      ensures Get(u.scores, ScoreSummaryRowId(run, framework))
           == Some(ScoreRow(run, framework, Recount(t.results, (run, framework))))
    {
      NamedGroupIsRecounted(t, run, framework);
    }
    forall id | !IsGroupId(t.results, id) ensures Get(u.scores, id) == Get(t.scores, id) { OtherSummariesStay(t, id); }
    forall run, framework ensures (run, framework) in Groups(t.results) <==> NamesGroup(t.results, run, framework) {
      GroupsAreNamed(t.results, run, framework);
    }
    if forall id :: id in t.scores ==> IsGroupId(t.results, id) {
      forall id | id in u.scores ensures IsGroupId(t.results, id) {
        assert Get(u.scores, id).Some?;
      }
    }
    if ScoresAgree(u) {
      forall id | id in t.scores ensures IsGroupId(t.results, id) {
        assert Get(t.scores, id).Some?;
      }
    }
  }

  lemma OnlyScoresChange(t: Tables)
    ensures Backfilled(t) == t.(scores := Backfilled(t).scores)
  {
  }
}

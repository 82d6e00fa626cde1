/** The database object whose methods change the tables step by step (src/local_db.rs). */
module LocalDatabases {
  import opened Wrappers
  import opened Folds
  import opened Corpora
  import opened RowIds
  import opened Database

  class LocalDatabase {
    var legacyOwner: bool
    var scanRuns: map<string, string>
    var frameworks: map<string, string>
    var controls: set<string>
    var frameworkLinks: map<(string, string), FrameworkLink>
    var controlLinks: map<(string, string, string), ControlLink>
    var results: map<string, ResultRow>
    var gaps: map<string, GapRow>
    var scores: map<string, ScoreRow>
    var evidence: map<string, EvidenceRow>
    var evidenceLinks: map<(string, string), EvidenceLink>

    function State(): Tables
      reads this
    {
      Tables(legacyOwner, scanRuns, frameworks, controls, frameworkLinks, controlLinks, results, gaps, scores,
             evidence, evidenceLinks)
    }

    constructor ()
      ensures State() == EMPTY
    {
      legacyOwner, scanRuns, frameworks, controls := false, map[], map[], {};
      frameworkLinks, controlLinks, results, gaps, scores := map[], map[], map[], map[], map[];
      evidence, evidenceLinks := map[], map[];
    }

    method WriteRunCatalog(c: Corpus)
      modifies this`scanRuns, this`frameworks, this`controls, this`frameworkLinks, this`controlLinks
      ensures State() == Catalogued(old(State()), c)
    {
      hide Upserts, ControlIds, Without;
      var run := c.runId;
      scanRuns := scanRuns[run := if c.executedAt == "" && run in scanRuns then scanRuns[run] else c.executedAt];
      frameworkLinks := Without(frameworkLinks, OwnFramework(run));
      controlLinks := Without(controlLinks, OwnControl(run));
      WriteFrameworks(run, c.frameworks);
      WriteControls(run, c.controls);
    }

    method WriteFrameworks(run: string, items: seq<Framework>)
      modifies this`frameworks, this`frameworkLinks
      ensures frameworks == Upserts(old(frameworks), items, FrameworkId(), KeepVersion())
      ensures frameworkLinks == Upserts(old(frameworkLinks), items, FrameworkLinkKey(run), FrameworkLinkRow())
    {
      hide Upserts;
      UpsertsStart(old(frameworks), items, FrameworkId(), KeepVersion());
      UpsertsStart(old(frameworkLinks), items, FrameworkLinkKey(run), FrameworkLinkRow());
      for i := 0 to |items|
        invariant frameworks == Upserts(old(frameworks), items[..i], FrameworkId(), KeepVersion())
        invariant frameworkLinks == Upserts(old(frameworkLinks), items[..i], FrameworkLinkKey(run), FrameworkLinkRow())
      {
        UpsertsStep(old(frameworks), items, i, FrameworkId(), KeepVersion());
        UpsertsStep(old(frameworkLinks), items, i, FrameworkLinkKey(run), FrameworkLinkRow());
        var f := items[i];
        if f.id !in frameworks {
          frameworks := frameworks[f.id := f.version];
        }
        frameworkLinks := frameworkLinks[(run, f.id) := FrameworkLink(f.version, f.sourceUrl)];
      }
      assert items[..|items|] == items;
    }

    method WriteControls(run: string, items: seq<Control>)
      modifies this`controls, this`controlLinks
      ensures controls == old(controls) + ControlIds(items)
      ensures controlLinks == Upserts(old(controlLinks), items, ControlLinkKey(run), ControlLinkRow())
    {
      hide Upserts, ControlIds;
      UpsertsStart(old(controlLinks), items, ControlLinkKey(run), ControlLinkRow());
      NoControls();
      assert items[..0] == [];
      for i := 0 to |items|
        invariant controls == old(controls) + ControlIds(items[..i])
        invariant controlLinks == Upserts(old(controlLinks), items[..i], ControlLinkKey(run), ControlLinkRow())
      {
        ControlIdsStep(items, i);
        UpsertsStep(old(controlLinks), items, i, ControlLinkKey(run), ControlLinkRow());
        var x := items[i];
        controls := controls + {x.id};
        controlLinks := controlLinks[(run, x.frameworkId, x.id)
                                     := ControlLink(x.title, x.severity, x.weight, x.reference)];
      }
      assert items[..|items|] == items;
    }

    method ClearRunOutcomes(run: string)
      modifies this`results, this`gaps
      ensures forall id :: id in results <==> id in old(results) && old(results[id]).runId != run
      ensures forall id :: id in results ==> results[id] == old(results[id])
      ensures forall id :: id in gaps <==> id in old(gaps) && old(gaps[id]).runId != run
      ensures forall id :: id in gaps ==> gaps[id] == old(gaps[id])
    {
      results := Without(results, OwnResult(run));
      gaps := Without(gaps, OwnGap(run));
    }

    method WriteScoreSummaries(c: Corpus)
      modifies this`scores
      ensures scores == ScoresAfter(old(scores), c.runId, c.results)
    {
      hide Upserts, Summaries, SummaryOrder;
      var run := c.runId;
      scores := Without(scores, OwnScore(run));
      ghost var cleared := scores;
      var summaries := ScoreSummaryCounts(c.results);
      var order := SummaryOrder(summaries);
      UpsertsStart(cleared, order, ScoreId(run), ScoreRowMerge(run, summaries));
      SummaryOrderListsKeys(summaries);
      for i := 0 to |order|
        invariant scores == Upserts(cleared, order[..i], ScoreId(run), ScoreRowMerge(run, summaries))
      {
        UpsertsStep(cleared, order, i, ScoreId(run), ScoreRowMerge(run, summaries));
        var f := order[i];
        assert f in order;
        scores := scores[ScoreSummaryRowId(run, f) := ScoreRow(run, f, summaries[f])];
      }
      assert order[..|order|] == order;
    }

    method WriteResults(c: Corpus)
      modifies this`results
      ensures results == Upserts(old(results), c.results, ResultId(c.runId), ResultRowMerge(c.runId))
    {
      var run := c.runId;
      for i := 0 to |c.results|
        invariant results == Upserts(old(results), c.results[..i], ResultId(run), ResultRowMerge(run))
      {
        UpsertsStep(old(results), c.results, i, ResultId(run), ResultRowMerge(run));
        var s := c.results[i];
        var r, framework := s.result, if s.frameworkId.Some? then s.frameworkId.value else "";
        var evidenceId := if |r.evidenceRefs| > 0 then r.evidenceRefs[0] else "";
        results := results[ControlResultRowId(run, framework, r.controlId, r.ruleId)
                           := ResultRow(run, r.controlId, r.ruleId, Label(r.status), evidenceId, framework,
                                        r.severity, r.weight, r.reason, r.executedAt, r.executionMetadata)];
      }
      assert c.results[..|c.results|] == c.results;
    }

    method WriteGapRows(run: string, items: seq<ScopedResult>)
      modifies this`gaps
      ensures gaps == PutGaps(old(gaps), run, items)
    {
      for i := 0 to |items|
        invariant gaps == PutGaps(old(gaps), run, items[..i])
      {
        assert items[..i + 1][..i] == items[..i];
        if items[i].frameworkId.Some? && IsGapStatus(items[i].result.status) {
          var framework, r := items[i].frameworkId.value, items[i].result;
          var legacyId := LegacyGapRowId(framework, r.controlId, r.ruleId);
          var gapId := ComplianceGapRowId(run, framework, r.controlId, r.ruleId);
          gaps := gaps - {legacyId};
          if gapId !in gaps {
            gaps := gaps[gapId := GapRow(run, Label(r.status), r.severity, r.controlId, r.ruleId)];
          }
        }
      }
      assert items[..|items|] == items;
    }

    method WriteEvidenceRows(c: Corpus)
      modifies this`evidence, this`evidenceLinks
      ensures evidence == EvidenceAfter(old(evidence), OwnerOf(legacyOwner, c.runId), c.evidence)
      ensures evidenceLinks == EvidenceLinksAfter(old(evidenceLinks), c.runId, old(evidence),
                                                  OwnerOf(legacyOwner, c.runId), c.evidence)
    {
      hide Upserts, PutLinks, EvidenceAfter, Without;
      var run, owner := c.runId, if legacyOwner then Some(c.runId) else None;
      evidenceLinks := Without(evidenceLinks, OwnEvidence(run));
      ghost var links := evidenceLinks;
      NoEvidence(links, run, evidence, owner, c.evidence);
      for i := 0 to |c.evidence|
        invariant evidence == EvidenceAfter(old(evidence), owner, c.evidence[..i])
        invariant evidenceLinks == PutLinks(links, run, old(evidence), owner, c.evidence[..i])
      {
        EvidenceStep(links, run, old(evidence), owner, c.evidence, i);
        var e := c.evidence[i];
        var name := ClassificationName(e.classification);
        if e.id in evidence {
          var row := evidence[e.id];
          evidence := evidence[e.id := EvidenceRow(
                                 row.owner,
                                 if e.integrity == "" then row.digest else e.integrity,
                                 if row.locator == "" then e.location else row.locator,
                                 if e.integrity == "" then row.classification else name)];
        } else {
          evidence := evidence[e.id := EvidenceRow(owner, e.integrity, e.location, name)];
        }
        var row := evidence[e.id];
        evidenceLinks := evidenceLinks[(run, e.id) := EvidenceLink(
                                         e.kind,
                                         if e.integrity == "" then row.digest else e.integrity,
                                         e.location,
                                         if e.integrity == "" then row.classification else name)];
      }
      assert c.evidence[..|c.evidence|] == c.evidence;
    }

    /** The whole write: it happens completely, or not at all. */
    method WriteCompletedCorpus(c: Corpus) returns (r: Option<DatabaseError>)
      modifies this
      ensures r == Refusal(c)
      ensures r == None <==> !Blank(c.runId) && ReferencedFrameworks(c) == Described(c.frameworks)
      ensures State() == if r == None then Stored(old(State()), c) else old(State())
    {
      hide Upserts, PutGaps, PutLinks, Without, ScoresAfter, Catalogued, EvidenceAfter, EvidenceLinksAfter;
      hide Blank, Described, ReferencedFrameworks;
      AcceptedCorpora(c);
      if Blank(c.runId) {
        return Some(BlankRunId);
      }
      r := ValidateCompletedCorpus(c);
      if r.Some? {
        return;
      }
      WriteRunCatalog(c);
      ClearRunOutcomes(c.runId);
      RemainingRows(old(results), OwnResult(c.runId), results);
      RemainingRows(old(gaps), OwnGap(c.runId), gaps);
      WriteScoreSummaries(c);
      WriteResults(c);
      WriteGapRows(c.runId, c.results);
      WriteEvidenceRows(c);
    }

    method BackfillScoreSummariesFromResults()
      modifies this`scores
      ensures State() == Backfilled(old(State()))
    {
      var order := GroupOrder(results);
      for i := 0 to |order|
        invariant scores == Upserts(old(scores), order[..i], GroupScoreId(), RecountMerge(results))
      {
        UpsertsStep(old(scores), order, i, GroupScoreId(), RecountMerge(results));
        var g := order[i];
        scores := scores[ScoreSummaryRowId(g.0, g.1) := ScoreRow(g.0, g.1, Recount(results, g))];
      }
      assert order[..|order|] == order;
    }

    method ReconstructExportCorpus(run: string, sdk: Sdk) returns (r: Result<Corpus, DatabaseError>)
      ensures r == Reconstructed(State(), run, sdk)
    {
      hide FrameworkRows, ControlRows, ResultRows, EvidenceRows, RestoredResult, RestoredEvidence;
      if run !in scanRuns {
        return Err(MissingRun(run));
      }
      var executedAt := scanRuns[run];
      var frameworkRows := FrameworkRows(State(), run);
      var corpus := NewCorpus(executedAt).WithRunId(run);
      for i := 0 to |frameworkRows|
        invariant corpus == Corpus(executedAt, run, [], [], [], frameworkRows[..i])
      {
        corpus := corpus.WithFramework(frameworkRows[i]);
      }
      assert frameworkRows[..|frameworkRows|] == frameworkRows;

      var resultRows := ResultRows(State(), run);
      var controlRows := ControlRows(State(), run);
      for i := 0 to |controlRows|
        invariant corpus == Corpus(executedAt, run, controlRows[..i], [], [], frameworkRows)
      {
        corpus := corpus.WithControl(controlRows[i]);
      }
      assert controlRows[..|controlRows|] == controlRows;

      for i := 0 to |resultRows|
        invariant RestoredAll(resultRows[..i], executedAt, sdk) == Ok(corpus.results)
        invariant corpus == Corpus(executedAt, run, controlRows, corpus.results, [], frameworkRows)
      {
        assert resultRows[..i + 1][..i] == resultRows[..i];
        var row := resultRows[i].row;
        var restored := RestoredResult(row, executedAt, sdk);
        if restored.Err? {
          FirstErrorDecides(resultRows, i + 1, executedAt, sdk);
          return Err(restored.error);
        }
        if row.frameworkId == "" {
          corpus := corpus.WithUnscopedControlResult(restored.value);
        } else {
          corpus := corpus.WithControlResult(row.frameworkId, restored.value);
        }
      }
      assert resultRows[..|resultRows|] == resultRows;

      var evidenceRows := EvidenceRows(State(), run);
      for i := 0 to |evidenceRows|
        invariant corpus == Corpus(executedAt, run, controlRows, corpus.results,
                                   RestoredEvidences(evidenceRows[..i]), frameworkRows)
        invariant RestoredAll(resultRows, executedAt, sdk) == Ok(corpus.results)
      {
        assert evidenceRows[..i + 1][..i] == evidenceRows[..i];
        corpus := corpus.WithEvidence(RestoredEvidence(evidenceRows[i]));
      }
      assert evidenceRows[..|evidenceRows|] == evidenceRows;
      return Ok(corpus);
    }
  }
}

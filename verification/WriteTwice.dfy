/** Writing the same corpus again leaves the database as it is, from any state and with duplicate keys. */
module WriteTwice {
  import opened Wrappers
  import opened Folds
  import opened Corpora
  import opened Database

  // ----- gaps

  /** One gap seen at one row id. */
  function PutGapAt(row: Option<GapRow>, run: string, s: ScopedResult, id: string): Option<GapRow> {
    match GapOf(s)
    case None => row
    case Some((framework, r)) =>
      var kept := if id == LegacyId(framework, r) then None else row;
      if id == GapId(run, framework, r) && kept == None then Some(GapRowOf(run, r)) else kept
  }

  function PutGapsAt(row: Option<GapRow>, run: string, items: seq<ScopedResult>, id: string): Option<GapRow> {
    if |items| == 0 then row
    else PutGapAt(PutGapsAt(row, run, items[..|items| - 1], id), run, items[|items| - 1], id)
  }

  lemma {:induction false} PutGapsGet(rows: map<string, GapRow>, run: string, items: seq<ScopedResult>, id: string)
    ensures Get(PutGaps(rows, run, items), id) == PutGapsAt(Get(rows, id), run, items, id)
  {
    hide LegacyId, GapId;
    if |items| > 0 {
      PutGapsGet(rows, run, items[..|items| - 1], id);
    }
  }

  /** A row that was there either stays, or the items leave the same as if it had not been there. */
  lemma {:induction false} RowStaysOrIsForgotten(row: GapRow, run: string, items: seq<ScopedResult>, id: string)
    ensures PutGapsAt(Some(row), run, items, id) == Some(row)
         || PutGapsAt(Some(row), run, items, id) == PutGapsAt(None, run, items, id)
    ensures PutGapsAt(None, run, items, id).Some? ==> PutGapsAt(None, run, items, id).value.runId == run
  {
    hide LegacyId, GapId;
    if |items| > 0 {
      RowStaysOrIsForgotten(row, run, items[..|items| - 1], id);
    }
  }

  lemma GapsTwice(rows: map<string, GapRow>, run: string, items: seq<ScopedResult>)
    ensures GapsAfter(GapsAfter(rows, run, items), run, items) == GapsAfter(rows, run, items)
  {
    hide PutGaps;
    var cleared, once := Without(rows, OwnGap(run)), GapsAfter(rows, run, items);
    var again := Without(once, OwnGap(run));
    forall id ensures Get(PutGaps(again, run, items), id) == Get(once, id) {
      PutGapsGet(cleared, run, items, id);
      PutGapsGet(again, run, items, id);
      if id in cleared {
        RowStaysOrIsForgotten(cleared[id], run, items, id);
      } else if id in once {
        RowStaysOrIsForgotten(once[id], run, items, id);
      }
    }
    MapsEqual(PutGaps(again, run, items), once);
  }

  // ----- evidence

  /** The last of the items about an evidence that carries a digest. */
  function LastDigest(items: seq<Evidence>, id: string): Option<Evidence> {
    if |items| == 0 then None
    else
      var last := items[|items| - 1];
      if last.id == id && last.integrity != "" then Some(last) else LastDigest(items[..|items| - 1], id)
  }

  predicate NoLocator(items: seq<Evidence>, id: string) {
    forall i :: 0 <= i < |items| && items[i].id == id ==> items[i].location == ""
  }

  /** What a metadata row holds after the items, whatever was there before. */
  predicate Settled(row: EvidenceRow, items: seq<Evidence>, id: string) {
    var e := LastDigest(items, id);
    && (e.Some? ==> row.digest == e.value.integrity && row.classification == ClassificationName(e.value.classification))
    && (row.locator == "" ==> NoLocator(items, id))
  }

  lemma {:induction false} MergedIsSettled(
    prior: Option<EvidenceRow>, owner: Option<string>, items: seq<Evidence>, id: string)
    ensures var row := Merged(prior, items, EvidenceId(), EvidenceMerge(owner), id);
            row.Some? ==> Settled(row.value, items, id)
  {
    if |items| > 0 {
      var init, last := items[..|items| - 1], items[|items| - 1];
      MergedIsSettled(prior, owner, init, id);
      var before := Merged(prior, init, EvidenceId(), EvidenceMerge(owner), id);
      if before == None {
        NothingMerged(prior, owner, init, id);
      }
    }
  }

  lemma {:induction false} NothingMerged(
    prior: Option<EvidenceRow>, owner: Option<string>, items: seq<Evidence>, id: string)
    requires Merged(prior, items, EvidenceId(), EvidenceMerge(owner), id) == None
    ensures LastDigest(items, id) == None && forall i :: 0 <= i < |items| ==> items[i].id != id
  {
    if |items| > 0 { NothingMerged(prior, owner, items[..|items| - 1], id); }
  }

  /** A settled row stays through the items, if it already has the digest the items end with. */
  lemma {:induction false} SettledRowStays(
    row: EvidenceRow, owner: Option<string>, items: seq<Evidence>, id: string)
    requires row.locator == "" ==> NoLocator(items, id)
    ensures var after := Merged(Some(row), items, EvidenceId(), EvidenceMerge(owner), id);
            var e := LastDigest(items, id);
            after == Some(if e == None then row else row.(
                            digest := e.value.integrity, classification := ClassificationName(e.value.classification)))
  {
    if |items| > 0 {
      SettledRowStays(row, owner, items[..|items| - 1], id);
    }
  }

  lemma EvidenceTwice(rows: map<string, EvidenceRow>, owner: Option<string>, items: seq<Evidence>)
    ensures EvidenceAfter(EvidenceAfter(rows, owner, items), owner, items) == EvidenceAfter(rows, owner, items)
  {
    var once := EvidenceAfter(rows, owner, items);
    var twice := EvidenceAfter(once, owner, items);
    forall id ensures Get(twice, id) == Get(once, id) {
      UpsertsGet(rows, items, EvidenceId(), EvidenceMerge(owner), id);
      UpsertsGet(once, items, EvidenceId(), EvidenceMerge(owner), id);
      if id in once {
        MergedIsSettled(Get(rows, id), owner, items, id);
        SettledRowStays(once[id], owner, items, id);
      } else {
        NothingMerged(Get(rows, id), owner, items, id);
        NoKeyNoChange(None, items, EvidenceId(), EvidenceMerge(owner), id);
      }
    }
    MapsEqual(twice, once);
  }

  // ----- evidence links

  /** The last of the items about an evidence. */
  function LastItem(items: seq<Evidence>, id: string): Option<Evidence> {
    if |items| == 0 then None
    else if items[|items| - 1].id == id then Some(items[|items| - 1])
    else LastItem(items[..|items| - 1], id)
  }

  /** A link of the run: the last item about its evidence, over that evidence's final metadata row. */
  lemma {:induction false} LinkGet(
    links: map<(string, string), EvidenceLink>, run: string, rows: map<string, EvidenceRow>, owner: Option<string>,
    items: seq<Evidence>, k: (string, string))
    ensures LastItem(items, k.1).Some? ==> k.1 in EvidenceAfter(rows, owner, items)
    ensures Get(PutLinks(links, run, rows, owner, items), k)
         == if k.0 == run && LastItem(items, k.1).Some?
            then Some(LinkOf(LastItem(items, k.1).value, EvidenceAfter(rows, owner, items)[k.1]))
            else Get(links, k)
  {
    if |items| > 0 {
      LinkGet(links, run, rows, owner, items[..|items| - 1], k);
    }
  }

  lemma LinksTwice(links: map<(string, string), EvidenceLink>, run: string, rows: map<string, EvidenceRow>,
                   owner: Option<string>, items: seq<Evidence>)
    ensures var once := EvidenceLinksAfter(links, run, rows, owner, items);
            EvidenceLinksAfter(once, run, EvidenceAfter(rows, owner, items), owner, items) == once
  {
    hide PutLinks, EvidenceAfter;
    var once := EvidenceLinksAfter(links, run, rows, owner, items);
    var twice := EvidenceLinksAfter(once, run, EvidenceAfter(rows, owner, items), owner, items);
    EvidenceTwice(rows, owner, items);
    forall k ensures Get(twice, k) == Get(once, k) {
      LinkGet(Without(links, OwnEvidence(run)), run, rows, owner, items, k);
      LinkGet(Without(once, OwnEvidence(run)), run, EvidenceAfter(rows, owner, items), owner, items, k);
    }
    MapsEqual(twice, once);
  }

  // ----- the other tables

  lemma FrameworksTwice(rows: map<string, string>, items: seq<Framework>)
    ensures var once := Upserts(rows, items, FrameworkId(), KeepVersion());
            Upserts(once, items, FrameworkId(), KeepVersion()) == once
  {
    var once := Upserts(rows, items, FrameworkId(), KeepVersion());
    var twice := Upserts(once, items, FrameworkId(), KeepVersion());
    forall id ensures Get(twice, id) == Get(once, id) {
      UpsertsGet(rows, items, FrameworkId(), KeepVersion(), id);
      UpsertsGet(once, items, FrameworkId(), KeepVersion(), id);
      MergedTwice(Get(rows, id), items, FrameworkId(), KeepVersion(), id);
    }
    MapsEqual(twice, once);
  }

  lemma CatalogueTwice(t: Tables, u: Tables, c: Corpus)
    requires u.scanRuns == RunStamp(t.scanRuns, c.runId, c.executedAt)
    requires u.frameworks == Upserts(t.frameworks, c.frameworks, FrameworkId(), KeepVersion())
    requires u.controls == t.controls + ControlIds(c.controls)
    requires u.frameworkLinks == FrameworkLinksAfter(t.frameworkLinks, c.runId, c.frameworks)
    requires u.controlLinks == ControlLinksAfter(t.controlLinks, c.runId, c.controls)
    ensures Catalogued(u, c) == u
  {
    hide Upserts, Without, ControlIds;
    var run := c.runId;
    FrameworksTwice(t.frameworks, c.frameworks);
    ClearedUpsertsTwice(t.frameworkLinks, c.frameworks, FrameworkLinkKey(run), FrameworkLinkRow(), OwnFramework(run));
    ClearedUpsertsTwice(t.controlLinks, c.controls, ControlLinkKey(run), ControlLinkRow(), OwnControl(run));
  }

  lemma OutcomesTwice(t: Tables, c: Corpus)
    ensures ResultsAfter(ResultsAfter(t.results, c.runId, c.results), c.runId, c.results)
         == ResultsAfter(t.results, c.runId, c.results)
    ensures ScoresAfter(ScoresAfter(t.scores, c.runId, c.results), c.runId, c.results)
         == ScoresAfter(t.scores, c.runId, c.results)
  {
    hide Upserts, Without, Summaries, SummaryOrder;
    var run, m := c.runId, Summaries(c.results);
    ClearedUpsertsTwice(t.results, c.results, ResultId(run), ResultRowMerge(run), OwnResult(run));
    ClearedUpsertsTwice(t.scores, SummaryOrder(m), ScoreId(run), ScoreRowMerge(run, m), OwnScore(run));
  }

  /** Writing a corpus twice is writing it once. */
  lemma StoredTwice(t: Tables, c: Corpus)
    ensures Stored(Stored(t, c), c) == Stored(t, c)
  {
    hide Upserts, GapsAfter, EvidenceAfter, EvidenceLinksAfter, ResultsAfter, ScoresAfter, RunStamp, ControlIds,
         FrameworkLinksAfter, ControlLinksAfter;
    var run, owner := c.runId, OwnerOf(t.legacyOwner, c.runId);
    CatalogueTwice(t, Stored(t, c), c);
    OutcomesTwice(t, c);
    GapsTwice(t.gaps, run, c.results);
    EvidenceTwice(t.evidence, owner, c.evidence);
    LinksTwice(t.evidenceLinks, run, t.evidence, owner, c.evidence);
  }
}

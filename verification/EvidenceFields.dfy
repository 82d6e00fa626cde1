/** Evidence column by column: which item, or which row from before, each stored value comes from. */
module EvidenceFields {
  import opened Wrappers
  import opened Ordering
  import opened Folds
  import opened Corpora
  import opened Database
  import opened WriteTwice
  import opened RunRoundTrip

  // ----- the items that decide

  /** Item `i` is the last one about the evidence. */
  ghost predicate LastAbout(items: seq<Evidence>, id: string, i: nat) {
    i < |items| && items[i].id == id && forall j :: i < j < |items| ==> items[j].id != id
  }

  ghost predicate FirstAbout(items: seq<Evidence>, id: string, i: nat) {
    i < |items| && items[i].id == id && forall j :: 0 <= j < i ==> items[j].id != id
  }

  /** Item `i` is the last one about the evidence that carries a digest. */
  ghost predicate LastDigest(items: seq<Evidence>, id: string, i: nat) {
    && i < |items| && items[i].id == id && items[i].integrity != ""
    && forall j :: i < j < |items| && items[j].id == id ==> items[j].integrity == ""
  }

  predicate NoDigest(items: seq<Evidence>, id: string) {
    forall i :: 0 <= i < |items| && items[i].id == id ==> items[i].integrity == ""
  }

  /** Item `i` is the first one about the evidence that says where it is. */
  ghost predicate FirstLocated(items: seq<Evidence>, id: string, i: nat) {
    && i < |items| && items[i].id == id && items[i].location != ""
    && forall j :: 0 <= j < i && items[j].id == id ==> items[j].location == ""
  }

  /**
   Digest and classification go together: those of the last item that carries a digest, else those that were there,
   else no digest and the classification of the first item.
   */
  ghost predicate Sealed(prior: Option<EvidenceRow>, items: seq<Evidence>, id: string, digest: string, name: string) {
    && (forall d: nat :: LastDigest(items, id, d) ==>
          digest == items[d].integrity && name == ClassificationName(items[d].classification))
    && (NoDigest(items, id) ==>
          match prior
          case Some(row) => digest == row.digest && name == row.classification
          case None =>
            && digest == ""
            && forall f: nat :: FirstAbout(items, id, f) ==> name == ClassificationName(items[f].classification))
  }

  /** The locator that was there, else that of the first item that has one. */
  ghost predicate Located(prior: Option<EvidenceRow>, items: seq<Evidence>, id: string, locator: string) {
    if prior.Some? && prior.value.locator != "" then locator == prior.value.locator
    else
      && (forall f: nat :: FirstLocated(items, id, f) ==> locator == items[f].location)
      && ((forall i :: 0 <= i < |items| && items[i].id == id ==> items[i].location == "") ==> locator == "")
  }

  predicate About(items: seq<Evidence>, id: string) {
    exists i :: 0 <= i < |items| && items[i].id == id
  }

  // ----- one more item

  lemma LastDigestStep(items: seq<Evidence>, e: Evidence, id: string, d: nat)
    requires LastDigest(items + [e], id, d)
    ensures if e.id == id && e.integrity != "" then d == |items| else LastDigest(items, id, d)
  {
    var all := items + [e];
    if e.id == id && e.integrity != "" {
      assert all[|items|] == e;
    } else {
      assert d < |items|;
      forall j | d < j < |items| && items[j].id == id ensures items[j].integrity == "" { assert all[j] == items[j]; }
    }
  }

  lemma FirstAboutStep(items: seq<Evidence>, e: Evidence, id: string, f: nat)
    requires FirstAbout(items + [e], id, f)
    ensures if About(items, id) then FirstAbout(items, id, f) else f == |items|
  {
    var all := items + [e];
    assert forall j :: 0 <= j < |items| ==> all[j] == items[j];
  }

  lemma FirstLocatedStep(items: seq<Evidence>, e: Evidence, id: string, f: nat)
    requires FirstLocated(items + [e], id, f)
    ensures || FirstLocated(items, id, f)
            || (f == |items| && forall j :: 0 <= j < |items| && items[j].id == id ==> items[j].location == "")
  {
    var all := items + [e];
    assert forall j :: 0 <= j < |items| ==> all[j] == items[j];
  }

  // ----- the metadata row

  lemma SealedStep(prior: Option<EvidenceRow>, items: seq<Evidence>, e: Evidence, id: string, digest: string,
                   name: string)
    requires e.id == id && About(items, id) && Sealed(prior, items, id, digest, name)
    ensures Sealed(prior, items + [e], id, if e.integrity == "" then digest else e.integrity,
                   if e.integrity == "" then name else ClassificationName(e.classification))
  {
    var all := items + [e];
    assert all[|items|] == e && forall j :: 0 <= j < |items| ==> all[j] == items[j];
    forall d: nat | LastDigest(all, id, d) ensures if e.integrity == "" then LastDigest(items, id, d) else all[d] == e {
      LastDigestStep(items, e, id, d);
    }
    forall f: nat | FirstAbout(all, id, f) ensures FirstAbout(items, id, f) { FirstAboutStep(items, e, id, f); }
    if NoDigest(all, id) { assert NoDigest(items, id) && e.integrity == ""; }
  }

  lemma LocatedStep(prior: Option<EvidenceRow>, items: seq<Evidence>, e: Evidence, id: string, locator: string)
    requires e.id == id && About(items, id) && Located(prior, items, id, locator)
    ensures Located(prior, items + [e], id, if locator == "" then e.location else locator)
  {
    var all := items + [e];
    assert all[|items|] == e && forall j :: 0 <= j < |items| ==> all[j] == items[j];
    forall f: nat | FirstLocated(all, id, f)
      ensures FirstLocated(items, id, f)
              || (f == |items| && forall j :: 0 <= j < |items| && items[j].id == id ==> items[j].location == "")
    {
      FirstLocatedStep(items, e, id, f);
    }
  }

  lemma OneItem(prior: Option<EvidenceRow>, owner: Option<string>, items: seq<Evidence>, e: Evidence, id: string)
    requires e.id == id && !About(items, id)
    ensures var row := EvidenceMerge(owner)(prior, e);
            && Sealed(prior, items + [e], id, row.digest, row.classification)
            && Located(prior, items + [e], id, row.locator)
            && row.owner == if prior.Some? then prior.value.owner else owner
  {
    var all := items + [e];
    assert all[|items|] == e && forall j :: 0 <= j < |items| ==> all[j] == items[j] && items[j].id != id;
    forall d: nat | d < |all| && all[d].id == id ensures all[d] == e {}
  }

  lemma OtherItem(prior: Option<EvidenceRow>, items: seq<Evidence>, e: Evidence, id: string, row: EvidenceRow)
    requires e.id != id && About(items, id)
    requires Sealed(prior, items, id, row.digest, row.classification) && Located(prior, items, id, row.locator)
    ensures Sealed(prior, items + [e], id, row.digest, row.classification)
    ensures Located(prior, items + [e], id, row.locator)
  {
    var all := items + [e];
    assert all[|items|] == e && forall j :: 0 <= j < |items| ==> all[j] == items[j];
    forall d: nat | LastDigest(all, id, d) ensures LastDigest(items, id, d) { LastDigestStep(items, e, id, d); }
    forall f: nat | FirstAbout(all, id, f) ensures FirstAbout(items, id, f) { FirstAboutStep(items, e, id, f); }
    forall f: nat | FirstLocated(all, id, f) ensures FirstLocated(items, id, f) {
      FirstLocatedStep(items, e, id, f);
      assert all[f].id == id;
    }
    if NoDigest(all, id) {
      forall j | 0 <= j < |items| && items[j].id == id ensures items[j].integrity == "" { assert all[j] == items[j]; }
    }
  }

  /** Every column of the metadata row of an evidence, after any items about it. */
  lemma {:induction false} RowColumns(
    prior: Option<EvidenceRow>, owner: Option<string>, items: seq<Evidence>, id: string)
    requires About(items, id)
    ensures match Merged(prior, items, EvidenceId(), EvidenceMerge(owner), id)
            case None => false
            case Some(row) =>
              && Sealed(prior, items, id, row.digest, row.classification)
              && Located(prior, items, id, row.locator)
              && row.owner == if prior.Some? then prior.value.owner else owner
    decreases |items|
  {
    hide Sealed, Located, LastDigest, FirstAbout, FirstLocated, NoDigest;
    var init, e := items[..|items| - 1], items[|items| - 1];
    assert items == init + [e];
    if About(init, id) {
      RowColumns(prior, owner, init, id);
      var row := Merged(prior, init, EvidenceId(), EvidenceMerge(owner), id).value;
      if e.id == id {
        SealedStep(prior, init, e, id, row.digest, row.classification);
        LocatedStep(prior, init, e, id, row.locator);
      } else {
        OtherItem(prior, init, e, id, row);
      }
    } else {
      NoKeyNoChange(prior, init, EvidenceId(), EvidenceMerge(owner), id);
      OneItem(prior, owner, init, e, id);
    }
  }

  // ----- the link of a run

  lemma {:induction false} LastItemIsLast(items: seq<Evidence>, id: string)
    ensures match LastItem(items, id)
            case Some(e) => About(items, id) && e.id == id && exists i: nat :: LastAbout(items, id, i) && items[i] == e
            case None => !About(items, id)
  {
    if |items| > 0 && items[|items| - 1].id != id {
      var init := items[..|items| - 1];
      LastItemIsLast(init, id);
      forall j | 0 <= j < |init| ensures init[j] == items[j] {}
      if LastItem(init, id).Some? {
        var i: nat :| LastAbout(init, id, i) && init[i] == LastItem(init, id).value;
        assert LastAbout(items, id, i);
      }
    } else if |items| > 0 {
      assert LastAbout(items, id, |items| - 1);
    }
  }

  lemma LinkIsSealed(prior: Option<EvidenceRow>, items: seq<Evidence>, id: string, last: nat, row: EvidenceRow)
    requires LastAbout(items, id, last) && Sealed(prior, items, id, row.digest, row.classification)
    ensures var link := LinkOf(items[last], row); Sealed(prior, items, id, link.digest, link.classification)
  {
    if items[last].integrity != "" {
      forall d: nat | d < |items| && d != last ensures !LastDigest(items, id, d) { assert items[last].id == id; }
    }
  }

  /**
   Every column of the link and of the metadata row that a write leaves for an evidence of its corpus. The link's
   kind and locator are those of the last item about it.
   */
  lemma StoredEvidence(t: Tables, c: Corpus, id: string)
    requires About(c.evidence, id)
    ensures match (Get(Stored(t, c).evidenceLinks, (c.runId, id)), Get(Stored(t, c).evidence, id))
            case (Some(link), Some(row)) =>
              && (forall i: nat :: LastAbout(c.evidence, id, i) ==>
                    link.kind == c.evidence[i].kind && link.locator == c.evidence[i].location)
              && Sealed(Get(t.evidence, id), c.evidence, id, link.digest, link.classification)
              && Sealed(Get(t.evidence, id), c.evidence, id, row.digest, row.classification)
              && Located(Get(t.evidence, id), c.evidence, id, row.locator)
              && row.owner == if id in t.evidence then t.evidence[id].owner
                              else if t.legacyOwner then Some(c.runId) else None
            case _ => false
  {
    hide Sealed, Located, Upserts, Merged, PutLinks;
    var run, items, owner := c.runId, c.evidence, OwnerOf(t.legacyOwner, c.runId);
    var rows := EvidenceAfter(t.evidence, owner, items);
    LinkGet(Without(t.evidenceLinks, OwnEvidence(run)), run, t.evidence, owner, items, (run, id));
    UpsertsGet(t.evidence, items, EvidenceId(), EvidenceMerge(owner), id);
    RowColumns(Get(t.evidence, id), owner, items, id);
    LastItemIsLast(items, id);
    var i: nat :| LastAbout(items, id, i) && items[i] == LastItem(items, id).value;
    forall j: nat | LastAbout(items, id, j) ensures j == i {}
    LinkIsSealed(Get(t.evidence, id), items, id, i, rows[id]);
  }

  // ----- reading the evidence of a run back

  /** The classification a stored name is read as: an unknown name is the strictest one. */
  predicate ReadAs(name: string, c: Classification) {
    match name
    case "Secret" => c == Secret
    case "Sensitive" => c == Sensitive
    case "Unclassified" => c == Unclassified
    case _ => c == Secret
  }

  /** The evidence read back is what the corpus, and the database before it, say of its id. */
  ghost predicate SaidOf(t: Tables, items: seq<Evidence>, e: Evidence) {
    && About(items, e.id)
    && (forall i: nat :: LastAbout(items, e.id, i) ==> e.kind == items[i].kind && e.location == items[i].location)
    && (exists name :: Sealed(Get(t.evidence, e.id), items, e.id, e.integrity, name) && ReadAs(name, e.classification))
  }

  lemma ClassificationIsRead(link: EvidenceLink, id: string)
    ensures ReadAs(link.classification, RestoredEvidence(EvidenceExport(id, link)).classification)
  {
  }

  lemma UnmentionedHasNoLink(t: Tables, c: Corpus, id: string)
    requires !About(c.evidence, id)
    ensures (c.runId, id) !in Stored(t, c).evidenceLinks
  {
    hide Upserts, PutLinks;
    var owner := OwnerOf(t.legacyOwner, c.runId);
    LinkGet(Without(t.evidenceLinks, OwnEvidence(c.runId)), c.runId, t.evidence, owner, c.evidence, (c.runId, id));
    LastItemIsLast(c.evidence, id);
  }

  lemma LinkIsSaid(t: Tables, c: Corpus, x: EvidenceExport)
    requires x in EvidenceSet(Stored(t, c), c.runId)
    ensures SaidOf(t, c.evidence, RestoredEvidence(x))
  {
    hide Stored, Sealed, ReadAs;
    if !About(c.evidence, x.id) { UnmentionedHasNoLink(t, c, x.id); }
    StoredEvidence(t, c, x.id);
    ClassificationIsRead(x.link, x.id);
    assert Sealed(Get(t.evidence, x.id), c.evidence, x.id, x.link.digest, x.link.classification);
  }

  lemma RowsAreSaid(t: Tables, c: Corpus, k: nat)
    requires k < |EvidenceRows(Stored(t, c), c.runId)|
    ensures SaidOf(t, c.evidence, RestoredEvidence(EvidenceRows(Stored(t, c), c.runId)[k]))
  {
    hide Stored, SaidOf, RestoredEvidence;
    assert EvidenceRows(Stored(t, c), c.runId)[k] in EvidenceSet(Stored(t, c), c.runId);
    LinkIsSaid(t, c, EvidenceRows(Stored(t, c), c.runId)[k]);
  }

  lemma RowsAreOrdered(t: Tables, run: string, j: nat, k: nat)
    requires j < k < |EvidenceRows(t, run)|
    ensures Less(EvidenceRows(t, run)[j].id, EvidenceRows(t, run)[k].id)
  {
    hide Ordered;
    var rows := EvidenceRows(t, run);
    OrderedIsSorted(EvidenceSet(t, run), EvidenceExportKey());
    var a, b := EvidenceExportKey()(rows[j]), EvidenceExportKey()(rows[k]);
    KeyLessTotal(a, b);
    assert KeyLess(a, b);
  }

  lemma MentionedIsListed(t: Tables, c: Corpus, id: string) returns (k: nat)
    requires About(c.evidence, id)
    ensures k < |EvidenceRows(Stored(t, c), c.runId)| && EvidenceRows(Stored(t, c), c.runId)[k].id == id
  {
    hide Stored, Sealed, Located, Ordered;
    StoredEvidence(t, c, id);
    var x := EvidenceExport(id, Stored(t, c).evidenceLinks[(c.runId, id)]);
    assert (c.runId, id) in Stored(t, c).evidenceLinks;
    assert x in EvidenceSet(Stored(t, c), c.runId);
    assert x in EvidenceRows(Stored(t, c), c.runId);
    k :| 0 <= k < |EvidenceRows(Stored(t, c), c.runId)| && EvidenceRows(Stored(t, c), c.runId)[k] == x;
  }

  /**
   After any write to any database, the evidence read back for the run is one item for each evidence id of its
   corpus, in order of ids, saying what the corpus and the database before it say of that id.
   */
  lemma EvidenceReadBack(t: Tables, c: Corpus, sdk: Sdk)
    ensures match Reconstructed(Stored(t, c), c.runId, sdk)
            case Err(_) => true
            case Ok(r) =>
              && (forall k :: 0 <= k < |r.evidence| ==> SaidOf(t, c.evidence, r.evidence[k]))
              && (forall j, k :: 0 <= j < k < |r.evidence| ==> Less(r.evidence[j].id, r.evidence[k].id))
              && (forall id :: About(c.evidence, id) ==> exists k :: 0 <= k < |r.evidence| && r.evidence[k].id == id)
  {
    hide Stored, SaidOf, EvidenceRows, RestoredEvidences, ResultRows, ControlRows, FrameworkRows, RestoredAll, About;
    var u := Stored(t, c);
    var rows := EvidenceRows(u, c.runId);
    var items := RestoredEvidences(rows);
    if |rows| > 0 { RestoredEvidenceAt(rows, 0); } else { NothingRestored(rows); }
    forall k: nat | k < |items| ensures items[k] == RestoredEvidence(rows[k]) { RestoredEvidenceAt(rows, k); }
    forall k: nat | k < |items| ensures SaidOf(t, c.evidence, items[k]) { RowsAreSaid(t, c, k); }
    forall j: nat, k: nat | j < k < |items| ensures Less(items[j].id, items[k].id) {
      RowsAreOrdered(u, c.runId, j, k);
    }
    forall id | About(c.evidence, id) ensures exists k :: 0 <= k < |items| && items[k].id == id {
      var k := MentionedIsListed(t, c, id);
      assert items[k].id == id;
    }
  }
}

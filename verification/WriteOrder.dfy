/** When the order of a corpus's records matters to the tables: only when an older gap id collides. */
module WriteOrder {
  import opened Wrappers
  import opened Ordering
  import opened Folds
  import opened Corpora
  import opened RowIds
  import opened Database
  import opened WriteTwice
  import opened RunRoundTrip

  /** The same records in some other order. */
  predicate Reordered(c: Corpus, d: Corpus) {
    && c.executedAt == d.executedAt && c.runId == d.runId
    && multiset(c.frameworks) == multiset(d.frameworks) && multiset(c.controls) == multiset(d.controls)
    && multiset(c.results) == multiset(d.results) && multiset(c.evidence) == multiset(d.evidence)
  }

  // ----- gaps

  predicate HasGapId(s: ScopedResult, run: string, id: string) {
    GapOf(s).Some? && GapId(run, GapOf(s).value.0, GapOf(s).value.1) == id
  }

  predicate HasLegacyId(s: ScopedResult, id: string) {
    GapOf(s).Some? && LegacyId(GapOf(s).value.0, GapOf(s).value.1) == id
  }

  /** The older id of one gap is the current id of another. */
  predicate Collides(run: string, x: ScopedResult, y: ScopedResult) {
    GapOf(y).Some? && HasLegacyId(x, GapId(run, GapOf(y).value.0, GapOf(y).value.1))
  }

  predicate NoCollision(run: string, items: seq<ScopedResult>) {
    forall i, j :: 0 <= i < |items| && 0 <= j < |items| ==> !Collides(run, items[i], items[j])
  }

  predicate GapIdsDiffer(run: string, items: seq<ScopedResult>) {
    forall i, j :: 0 <= i < j < |items| && GapOf(items[i]).Some? && GapOf(items[j]).Some? ==>
      GapId(run, GapOf(items[i]).value.0, GapOf(items[i]).value.1)
      != GapId(run, GapOf(items[j]).value.0, GapOf(items[j]).value.1)
  }

  lemma DistinctGapIds(run: string, items: seq<ScopedResult>)
    requires DistinctKeys(items, ScopedKey())
    ensures GapIdsDiffer(run, items)
  {
    forall i, j | 0 <= i < j < |items| && GapOf(items[i]).Some? && GapOf(items[j]).Some?
      ensures GapId(run, GapOf(items[i]).value.0, GapOf(items[i]).value.1)
           != GapId(run, GapOf(items[j]).value.0, GapOf(items[j]).value.1)
    {
      DifferentKeysDifferentGaps(run, items[i], items[j]);
    }
  }

  lemma DifferentKeysDifferentGaps(run: string, x: ScopedResult, y: ScopedResult)
    requires ScopedKey()(x) != ScopedKey()(y) && GapOf(x).Some? && GapOf(y).Some?
    ensures GapId(run, GapOf(x).value.0, GapOf(x).value.1) != GapId(run, GapOf(y).value.0, GapOf(y).value.1)
  {
    hide ComplianceGapRowId;
    var (f, r) := GapOf(x).value;
    var (g, q) := GapOf(y).value;
    if GapId(run, f, r) == GapId(run, g, q) {
      ComplianceGapRowIdInjective((run, f, r.controlId, r.ruleId), (run, g, q.controlId, q.ruleId));
    }
  }

  /** What the items leave under a gap id: a present row stays, an absent one is added. */
  lemma {:induction false} GapIdKept(row: Option<GapRow>, run: string, items: seq<ScopedResult>, id: string, i: nat)
    requires i < |items| && NoCollision(run, items) && GapIdsDiffer(run, items) && HasGapId(items[i], run, id)
    ensures PutGapsAt(row, run, items, id)
         == if row.Some? then row else Some(GapRowOf(run, items[i].result))
  {
    hide LegacyId, GapId, GapRowOf;
    var n := |items| - 1;
    var init := items[..n];
    forall j | 0 <= j < |items| ensures !HasLegacyId(items[j], id) { assert !Collides(run, items[j], items[i]); }
    if i < n {
      GapIdKept(row, run, init, id, i);
      assert !HasGapId(items[n], run, id);
    } else {
      forall j | 0 <= j < n ensures !HasGapId(init[j], run, id) && !HasLegacyId(init[j], id) {
        assert init[j] == items[j];
      }
      Untouched(row, run, init, id);
    }
  }

  lemma {:induction false} Untouched(row: Option<GapRow>, run: string, items: seq<ScopedResult>, id: string)
    requires forall j :: 0 <= j < |items| ==> !HasGapId(items[j], run, id) && !HasLegacyId(items[j], id)
    ensures PutGapsAt(row, run, items, id) == row
  {
    hide LegacyId, GapId, GapRowOf;
    if |items| > 0 { Untouched(row, run, items[..|items| - 1], id); }
  }

  /** A row under an older id is gone after the items, unless the id is also a current one. */
  lemma {:induction false} LegacyIdGone(row: Option<GapRow>, run: string, items: seq<ScopedResult>, id: string)
    requires forall j :: 0 <= j < |items| ==> !HasGapId(items[j], run, id)
    ensures (exists j :: 0 <= j < |items| && HasLegacyId(items[j], id)) ==> PutGapsAt(row, run, items, id) == None
    ensures PutGapsAt(row, run, items, id) == row || PutGapsAt(row, run, items, id) == None
  {
    hide LegacyId, GapId, GapRowOf;
    if |items| > 0 {
      var init, last := items[..|items| - 1], items[|items| - 1];
      LegacyIdGone(row, run, init, id);
      if (exists j :: 0 <= j < |items| && HasLegacyId(items[j], id)) && !HasLegacyId(last, id) {
        var j :| 0 <= j < |items| && HasLegacyId(items[j], id);
        assert init[j] == items[j];
      }
    }
  }

  lemma GapsReordered(row: Option<GapRow>, run: string, a: seq<ScopedResult>, b: seq<ScopedResult>, id: string)
    requires multiset(a) == multiset(b) && NoCollision(run, a) && NoCollision(run, b)
    requires GapIdsDiffer(run, a) && GapIdsDiffer(run, b)
    ensures PutGapsAt(row, run, a, id) == PutGapsAt(row, run, b, id)
  {
    hide HasGapId, HasLegacyId, PutGapsAt, NoCollision, GapIdsDiffer;
    forall x | x in a ensures x in b { var i :| 0 <= i < |a| && a[i] == x; MultisetMember(a, b, i); }
    forall x | x in b ensures x in a { var i :| 0 <= i < |b| && b[i] == x; MultisetMember(b, a, i); }
    if i :| 0 <= i < |a| && HasGapId(a[i], run, id) {
      MultisetMember(a, b, i);
      var j :| 0 <= j < |b| && b[j] == a[i];
      GapIdKept(row, run, a, id, i);
      GapIdKept(row, run, b, id, j);
    } else {
      assert forall j :: 0 <= j < |b| ==> b[j] in a;
      if i :| 0 <= i < |a| && HasLegacyId(a[i], id) {
        MultisetMember(a, b, i);
        LegacyIdGone(row, run, a, id);
        LegacyIdGone(row, run, b, id);
      } else {
        Untouched(row, run, a, id);
        Untouched(row, run, b, id);
      }
    }
  }

  lemma NoCollisionReordered(run: string, a: seq<ScopedResult>, b: seq<ScopedResult>)
    requires multiset(a) == multiset(b) && NoCollision(run, a)
    ensures NoCollision(run, b)
  {
    hide Collides;
    forall i, j | 0 <= i < |b| && 0 <= j < |b| ensures !Collides(run, b[i], b[j]) {
      MultisetMember(b, a, i);
      MultisetMember(b, a, j);
    }
  }

  // ----- score summaries

  function Weight(s: ScopedResult, framework: string, status: Status): nat {
    if s.frameworkId == Some(framework) && s.result.status == status then 1 else 0
  }

  lemma {:induction false} TallyWithout(items: seq<ScopedResult>, i: nat, framework: string, status: Status)
    requires i < |items|
    ensures Tally(items, framework, status)
         == Tally(items[..i] + items[i + 1..], framework, status) + Weight(items[i], framework, status)
  {
    hide Tally, Weight;
    var n := |items| - 1;
    TallyStep(items, framework, status);
    if i == n {
      assert items[..i] + items[i + 1..] == items[..n];
    } else {
      var init, rest := items[..n], items[..i] + items[i + 1..];
      TallyWithout(init, i, framework, status);
      TallyStep(rest, framework, status);
      assert init[..i] + init[i + 1..] == rest[..n - 1] && rest[n - 1] == items[n];
    }
  }

  lemma TallyStep(items: seq<ScopedResult>, framework: string, status: Status)
    requires |items| > 0
    ensures Tally(items, framework, status)
         == Tally(items[..|items| - 1], framework, status) + Weight(items[|items| - 1], framework, status)
  {
  }

  /** Two arrangements without one common item are arrangements of the same rest. */
  lemma RestReordered<T>(a: seq<T>, b: seq<T>, j: nat)
    requires multiset(a) == multiset(b) && |a| > 0 && j < |b| && b[j] == a[|a| - 1]
    ensures multiset(a[..|a| - 1]) == multiset(b[..j] + b[j + 1..])
  {
    assert a == a[..|a| - 1] + [a[|a| - 1]];
    assert multiset(a[..|a| - 1]) == multiset(a) - multiset{b[j]};
    WithoutOne(b, j);
  }

  lemma WithoutOne<T>(b: seq<T>, j: nat)
    requires j < |b|
    ensures multiset(b[..j] + b[j + 1..]) == multiset(b) - multiset{b[j]}
  {
    assert b == b[..j] + [b[j]] + b[j + 1..];
  }

  lemma {:induction false} TallyReordered(a: seq<ScopedResult>, b: seq<ScopedResult>, framework: string, status: Status)
    requires multiset(a) == multiset(b)
    ensures Tally(a, framework, status) == Tally(b, framework, status)
  {
    if |a| == 0 {
      assert |b| == |multiset(b)| == |multiset(a)| == 0;
    } else {
      MultisetMember(a, b, |a| - 1);
      var j :| 0 <= j < |b| && b[j] == a[|a| - 1];
      RestReordered(a, b, j);
      TallyReordered(a[..|a| - 1], b[..j] + b[j + 1..], framework, status);
      TallyWithout(b, j, framework, status);
    }
  }

  lemma SameMembers<T>(a: seq<T>, b: seq<T>)
    requires multiset(a) == multiset(b)
    ensures forall x :: x in a <==> x in b
  {
    forall x ensures x in a <==> x in b {
      if x in a { assert x in multiset(b); }
      if x in b { assert x in multiset(a); }
    }
  }

  lemma SummariesReordered(a: seq<ScopedResult>, b: seq<ScopedResult>)
    requires multiset(a) == multiset(b)
    ensures Summaries(a) == Summaries(b)
  {
    hide Tally;
    SameMembers(a, b);
    forall f ensures CountsOf(a, f) == CountsOf(b, f) {
      TallyReordered(a, b, f, Pass);
      TallyReordered(a, b, f, Fail);
      TallyReordered(a, b, f, Warning);
    }
    assert Scoped(a) == Scoped(b);
  }

  // ----- the other tables

  lemma UpsertsReordered<K(!new), V(!new), T(!new)>(
    m: map<K, V>, a: seq<T>, b: seq<T>, key: T -> K, merge: (Option<V>, T) -> V)
    requires multiset(a) == multiset(b) && Unique(a, key)
    ensures Upserts(m, a, key, merge) == Upserts(m, b, key, merge)
  {
    UniquePermuted(a, b, key);
    forall k ensures Get(Upserts(m, a, key, merge), k) == Get(Upserts(m, b, key, merge), k) {
      UpsertsGet(m, a, key, merge, k);
      UpsertsGet(m, b, key, merge, k);
      MergedPermuted(Get(m, k), a, b, key, merge, k);
    }
    MapsEqual(Upserts(m, a, key, merge), Upserts(m, b, key, merge));
  }

  lemma CatalogueReordered(t: Tables, c: Corpus, d: Corpus)
    requires Reordered(c, d) && DistinctSections(c)
    ensures Catalogued(t, c) == Catalogued(t, d)
  {
    hide Upserts, RunStamp;
    var run := c.runId;
    forall i, j | 0 <= i < j < |c.frameworks|
      ensures FrameworkId()(c.frameworks[i]) != FrameworkId()(c.frameworks[j])
      ensures FrameworkLinkKey(run)(c.frameworks[i]) != FrameworkLinkKey(run)(c.frameworks[j])
    {
      assert FrameworkKey()(c.frameworks[i]) != FrameworkKey()(c.frameworks[j]);
    }
    forall i, j | 0 <= i < j < |c.controls|
      ensures ControlLinkKey(run)(c.controls[i]) != ControlLinkKey(run)(c.controls[j])
    {
      assert ControlKey()(c.controls[i]) != ControlKey()(c.controls[j]);
    }
    UpsertsReordered(t.frameworks, c.frameworks, d.frameworks, FrameworkId(), KeepVersion());
    UpsertsReordered(Without(t.frameworkLinks, OwnFramework(run)), c.frameworks, d.frameworks, FrameworkLinkKey(run),
                     FrameworkLinkRow());
    UpsertsReordered(Without(t.controlLinks, OwnControl(run)), c.controls, d.controls, ControlLinkKey(run),
                     ControlLinkRow());
    SameMembers(c.controls, d.controls);
    assert ControlIds(c.controls) == ControlIds(d.controls);
  }

  lemma OutcomesReordered(t: Tables, c: Corpus, d: Corpus)
    requires Reordered(c, d) && DistinctSections(c) && NoCollision(c.runId, c.results)
    ensures ResultsAfter(t.results, c.runId, c.results) == ResultsAfter(t.results, c.runId, d.results)
    ensures ScoresAfter(t.scores, c.runId, c.results) == ScoresAfter(t.scores, c.runId, d.results)
    ensures GapsAfter(t.gaps, c.runId, c.results) == GapsAfter(t.gaps, c.runId, d.results)
  {
    hide Upserts, Summaries, NoCollision, GapIdsDiffer, PutGaps, PutGapsAt;
    var run := c.runId;
    DistinctIds(run, c.results);
    UpsertsReordered(Without(t.results, OwnResult(run)), c.results, d.results, ResultId(run), ResultRowMerge(run));
    SummariesReordered(c.results, d.results);
    DistinctPermutation(c.results, d.results, ScopedKey());
    NoCollisionReordered(run, c.results, d.results);
    DistinctGapIds(run, c.results);
    DistinctGapIds(run, d.results);
    var cleared := Without(t.gaps, OwnGap(run));
    forall id ensures Get(PutGaps(cleared, run, c.results), id) == Get(PutGaps(cleared, run, d.results), id) {
      PutGapsGet(cleared, run, c.results, id);
      PutGapsGet(cleared, run, d.results, id);
      GapsReordered(Get(cleared, id), run, c.results, d.results, id);
    }
    MapsEqual(PutGaps(cleared, run, c.results), PutGaps(cleared, run, d.results));
  }

  lemma {:induction false} LastItemFound(items: seq<Evidence>, id: string)
    ensures LastItem(items, id).Some? <==> exists i :: 0 <= i < |items| && items[i].id == id
  {
    if |items| > 0 {
      var init := items[..|items| - 1];
      LastItemFound(init, id);
      if i :| 0 <= i < |items| && items[i].id == id && items[|items| - 1].id != id { assert init[i] == items[i]; }
      if i :| 0 <= i < |init| && init[i].id == id { assert items[i].id == id; }
    }
  }

  lemma LastItemReordered(a: seq<Evidence>, b: seq<Evidence>, id: string)
    requires multiset(a) == multiset(b) && DistinctKeys(a, EvidenceKey())
    ensures LastItem(a, id) == LastItem(b, id)
  {
    DistinctPermutation(a, b, EvidenceKey());
    LastItemFound(a, id);
    LastItemFound(b, id);
    if i :| 0 <= i < |a| && a[i].id == id {
      MultisetMember(a, b, i);
      var j :| 0 <= j < |b| && b[j] == a[i];
      LastOfDistinct(a, i);
      LastOfDistinct(b, j);
    } else if j :| 0 <= j < |b| && b[j].id == id {
      MultisetMember(b, a, j);
    }
  }

  lemma EvidenceReordered(t: Tables, c: Corpus, d: Corpus, owner: Option<string>)
    requires Reordered(c, d) && DistinctSections(c)
    ensures EvidenceAfter(t.evidence, owner, c.evidence) == EvidenceAfter(t.evidence, owner, d.evidence)
    ensures EvidenceLinksAfter(t.evidenceLinks, c.runId, t.evidence, owner, c.evidence)
         == EvidenceLinksAfter(t.evidenceLinks, c.runId, t.evidence, owner, d.evidence)
  {
    hide PutLinks, Upserts;
    var run, links := c.runId, Without(t.evidenceLinks, OwnEvidence(c.runId));
    forall i, j | 0 <= i < j < |c.evidence| ensures EvidenceId()(c.evidence[i]) != EvidenceId()(c.evidence[j]) {
      assert EvidenceKey()(c.evidence[i]) != EvidenceKey()(c.evidence[j]);
    }
    UpsertsReordered(t.evidence, c.evidence, d.evidence, EvidenceId(), EvidenceMerge(owner));
    var after := PutLinks(links, run, t.evidence, owner, c.evidence);
    var after' := PutLinks(links, run, t.evidence, owner, d.evidence);
    forall k ensures Get(after, k) == Get(after', k) {
      LinkGet(links, run, t.evidence, owner, c.evidence, k);
      LinkGet(links, run, t.evidence, owner, d.evidence, k);
      LastItemReordered(c.evidence, d.evidence, k.1);
    }
    MapsEqual(after, after');
  }

  /** Without collisions a write depends only on which records the corpus holds. */
  lemma OrderDoesNotMatter(t: Tables, c: Corpus, d: Corpus)
    requires Reordered(c, d) && DistinctSections(c) && NoCollision(c.runId, c.results)
    ensures Stored(t, c) == Stored(t, d)
  {
    hide Catalogued, ResultsAfter, ScoresAfter, GapsAfter, EvidenceAfter, EvidenceLinksAfter, NoCollision;
    CatalogueReordered(t, c, d);
    CatalogueKeeps(t, c);
    OutcomesReordered(t, c, d);
    EvidenceReordered(t, c, d, OwnerOf(t.legacyOwner, c.runId));
  }

  lemma CatalogueKeeps(t: Tables, c: Corpus)
    ensures Catalogued(t, c).legacyOwner == t.legacyOwner
  {
  }

  // ----- the converse

  /** A gap's own older id is never its current id. */
  lemma NoSelfCollision(run: string, x: ScopedResult)
    ensures !Collides(run, x, x)
  {
    if GapOf(x).Some? {
      var (f, r) := GapOf(x).value;
      LegacyGapIdCollides(f, r.controlId, r.ruleId, (run, f, r.controlId, r.ruleId));
      RuleIsShorter(r.controlId, r.ruleId);
    }
  }

  lemma RuleIsShorter(control: string, rule: string)
    ensures rule != Field(control) + LastField(rule)
  {
    assert |Field(control)| >= 2;
  }

  /** Of two colliding gaps written last, the second decides whether the first's row survives. */
  lemma CollisionDecides(run: string, rest: seq<ScopedResult>, x: ScopedResult, y: ScopedResult)
    requires Collides(run, x, y) && ScopedKey()(x) != ScopedKey()(y)
    ensures var id := GapId(run, GapOf(y).value.0, GapOf(y).value.1);
            id in PutGaps(map[], run, rest + [x] + [y]) && id !in PutGaps(map[], run, rest + [y] + [x])
  {
    hide LegacyId, GapId, PutGaps, PutGapsAt;
    var id := GapId(run, GapOf(y).value.0, GapOf(y).value.1);
    NoSelfCollision(run, y);
    DifferentKeysDifferentGaps(run, x, y);
    PutGapsGet(map[], run, rest + [x] + [y], id);
    PutGapsGet(map[], run, rest + [y] + [x], id);
    LastTwo(run, rest, x, y, id);
    LastTwo(run, rest, y, x, id);
  }

  lemma LastTwo(run: string, rest: seq<ScopedResult>, x: ScopedResult, y: ScopedResult, id: string)
    ensures PutGapsAt(None, run, rest + [x] + [y], id)
         == PutGapAt(PutGapAt(PutGapsAt(None, run, rest, id), run, x, id), run, y, id)
  {
    hide PutGapAt;
    assert (rest + [x] + [y])[..|rest| + 1] == rest + [x] && (rest + [x])[..|rest|] == rest;
  }

  function Dropped<T>(items: seq<T>, i: nat, j: nat): seq<T>
    requires i < j < |items|
  {
    items[..i] + items[i + 1..j] + items[j + 1..]
  }

  lemma DroppedTwo<T>(items: seq<T>, i: nat, j: nat)
    requires i < j < |items|
    ensures multiset(Dropped(items, i, j) + [items[i]] + [items[j]]) == multiset(items)
    ensures multiset(Dropped(items, i, j) + [items[j]] + [items[i]]) == multiset(items)
  {
    assert items == items[..i] + [items[i]] + items[i + 1..j] + [items[j]] + items[j + 1..];
  }

  /** Two colliding results, wherever they stand, give two orders with different gap tables. */
  lemma OrdersDiffer(c: Corpus, i: nat, j: nat) returns (d: Corpus, e: Corpus)
    requires i < |c.results| && j < |c.results| && i != j && Collides(c.runId, c.results[i], c.results[j])
    requires ScopedKey()(c.results[i]) != ScopedKey()(c.results[j])
    ensures Reordered(c, d) && Reordered(c, e) && Stored(EMPTY, d) != Stored(EMPTY, e)
  {
    hide Collides, PutGaps, Dropped, Stored;
    var run, items := c.runId, c.results;
    var lo, hi := if i < j then i else j, if i < j then j else i;
    var rest, x, y := Dropped(items, lo, hi), items[i], items[j];
    DroppedTwo(items, lo, hi);
    CollisionDecides(run, rest, x, y);
    d, e := c.(results := rest + [x] + [y]), c.(results := rest + [y] + [x]);
    NothingToClear(d);
    NothingToClear(e);
  }

  lemma CollisionNeedsOrder(c: Corpus)
    requires DistinctSections(c) && !NoCollision(c.runId, c.results)
    ensures exists d :: Reordered(c, d) && Stored(EMPTY, c) != Stored(EMPTY, d)
  {
    hide Collides, Stored, Reordered;
    var run, items := c.runId, c.results;
    var i, j :| 0 <= i < |items| && 0 <= j < |items| && Collides(run, items[i], items[j]);
    NoSelfCollision(run, items[i]);
    assert ScopedKey()(items[i]) != ScopedKey()(items[j]);
    var d, e := OrdersDiffer(c, i, j);
    assert Stored(EMPTY, c) != Stored(EMPTY, d) || Stored(EMPTY, c) != Stored(EMPTY, e);
  }

  lemma NothingToClear(c: Corpus)
    ensures Stored(EMPTY, c).gaps == PutGaps(map[], c.runId, c.results)
  {
    hide PutGaps;
    assert Without(EMPTY.gaps, OwnGap(c.runId)) == map[];
  }

  /**
   For a corpus with distinct keys: the order of its records never matters exactly when no gap's older id is
   another gap's current id.
   */
  lemma OrderMattersOnlyByCollision(c: Corpus)
    requires DistinctSections(c)
    ensures NoCollision(c.runId, c.results) <==> forall t, d | Reordered(c, d) :: Stored(t, c) == Stored(t, d)
  {
    hide NoCollision, DistinctSections, Stored, Reordered;
    if NoCollision(c.runId, c.results) {
      forall t, d | Reordered(c, d) ensures Stored(t, c) == Stored(t, d) { OrderDoesNotMatter(t, c, d); }
    } else {
      CollisionNeedsOrder(c);
    }
  }

  /** Rule ids without a colon rule collisions out. */
  lemma ColonFreeRulesDoNotCollide(run: string, items: seq<ScopedResult>)
    requires forall s :: s in items ==> !HasColon(s.result.ruleId)
    ensures NoCollision(run, items)
  {
    forall i, j | 0 <= i < |items| && 0 <= j < |items| ensures !Collides(run, items[i], items[j]) {
      if GapOf(items[i]).Some? && GapOf(items[j]).Some? {
        var (f, r) := GapOf(items[i]).value;
        var (g, q) := GapOf(items[j]).value;
        LegacyGapIdCollides(f, r.controlId, r.ruleId, (run, g, q.controlId, q.ruleId));
        assert items[i] in items;
      }
    }
  }
}

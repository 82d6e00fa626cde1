/** Writing a corpus and reading its run back: exactly which corpora come back as they were. */
module RunRoundTrip {
  import opened Wrappers
  import opened Ordering
  import opened Folds
  import opened Corpora
  import opened RowIds
  import opened Database
  import opened WriteTwice
  import opened RunIsolation

  function ScopedKey(): ScopedResult -> Key {
    (s: ScopedResult) => [s.result.controlId, s.result.ruleId, FrameworkOf(s)]
  }

  function EvidenceKey(): Evidence -> Key {
    (e: Evidence) => [e.id]
  }

  /** The corpus with each section in the order the database returns it. */
  function SectionsSorted(c: Corpus): Corpus {
    c.(frameworks := Sort(c.frameworks, FrameworkKey()), controls := Sort(c.controls, ControlKey()),
       results := Sort(c.results, ScopedKey()), evidence := Sort(c.evidence, EvidenceKey()))
  }

  /** A result the tables can hold: what they drop or fill in is not there. */
  predicate StorableResult(s: ScopedResult) {
    && s.frameworkId != Some("")
    && s.result.executedAt != ""
    && (|s.result.evidenceRefs| == 0 || (|s.result.evidenceRefs| == 1 && s.result.evidenceRefs[0] != ""))
    && (s.result.reason.Some? ==> !Blank(s.result.reason.value))
    && (s.result.status != Pass ==> s.result.reason.Some?)
  }

  ghost predicate DistinctSections(c: Corpus) {
    && DistinctKeys(c.frameworks, FrameworkKey())
    && DistinctKeys(c.controls, ControlKey())
    && DistinctKeys(c.results, ScopedKey())
    && DistinctKeys(c.evidence, EvidenceKey())
  }

  ghost predicate Storable(c: Corpus) {
    && c.executedAt != ""
    && DistinctSections(c)
    && (forall s :: s in c.results ==> StorableResult(s))
    && (forall e :: e in c.evidence ==> e.integrity != "")
  }

  /** What the SDK promises: descriptions say something. */
  ghost predicate Describes(sdk: Sdk) {
    forall status :: !Blank(sdk.description(status))
  }

  // ----- the catalogue sections

  lemma FrameworkSetIs(t: Tables, c: Corpus, f: Framework)
    requires DistinctKeys(c.frameworks, FrameworkKey())
    ensures f in FrameworkSet(Stored(t, c), c.runId) <==> f in c.frameworks
  {
    hide Upserts;
    var run, items, u := c.runId, c.frameworks, Stored(t, c);
    forall i, j | 0 <= i < j < |items| ensures FrameworkLinkKey(run)(items[i]) != FrameworkLinkKey(run)(items[j]) {
      assert FrameworkKey()(items[i]) != FrameworkKey()(items[j]);
    }
    OwnRows(t.frameworkLinks, items, FrameworkLinkKey(run), FrameworkLinkRow(), OwnFramework(run), (run, f.id));
    forall i | 0 <= i < |items| && items[i].id == f.id
      ensures Get(u.frameworkLinks, (run, f.id)) == Some(FrameworkLink(items[i].version, items[i].sourceUrl))
    {
      OwnRow(Without(t.frameworkLinks, OwnFramework(run)), items, FrameworkLinkKey(run), FrameworkLinkRow(), i);
    }
    if f in items {
      assert FrameworkLinkKey(run)(f) == (run, f.id);
      assert (run, f.id) in u.frameworkLinks;
    }
  }

  lemma FrameworksComeBack(t: Tables, c: Corpus)
    requires DistinctKeys(c.frameworks, FrameworkKey())
    ensures FrameworkRows(Stored(t, c), c.runId) == Sort(c.frameworks, FrameworkKey())
  {
    hide FrameworkSet, Stored;
    forall f ensures f in FrameworkSet(Stored(t, c), c.runId) <==> f in c.frameworks {
      FrameworkSetIs(t, c, f);
    }
    FrameworksSeparate(Stored(t, c), c.runId);
    SortedIsOrdered(c.frameworks, FrameworkSet(Stored(t, c), c.runId), FrameworkKey());
  }

  lemma FrameworksSeparate(t: Tables, run: string)
    ensures Separates(FrameworkSet(t, run), FrameworkKey())
  {
  }

  lemma ControlKeysDiffer(run: string, items: seq<Control>)
    requires DistinctKeys(items, ControlKey())
    ensures Unique(items, ControlLinkKey(run))
  {
    forall i, j | 0 <= i < j < |items| ensures ControlLinkKey(run)(items[i]) != ControlLinkKey(run)(items[j]) {
      assert ControlKey()(items[i]) != ControlKey()(items[j]);
    }
  }

  /** Every control of the corpus is read back. */
  lemma ControlIsRead(t: Tables, c: Corpus, i: nat)
    requires DistinctKeys(c.controls, ControlKey()) && i < |c.controls|
    ensures c.controls[i] in ControlSet(Stored(t, c), c.runId)
  {
    hide Upserts;
    var run, items := c.runId, c.controls;
    ControlKeysDiffer(run, items);
    OwnRow(Without(t.controlLinks, OwnControl(run)), items, ControlLinkKey(run), ControlLinkRow(), i);
    assert ControlLinkKey(run)(items[i]) in Stored(t, c).controlLinks;
  }

  /** Every control read back is one of the corpus. */
  lemma ReadControlIsWritten(t: Tables, c: Corpus, x: Control)
    requires DistinctKeys(c.controls, ControlKey()) && x in ControlSet(Stored(t, c), c.runId)
    ensures x in c.controls
  {
    hide Upserts;
    var run, items := c.runId, c.controls;
    var k := (run, x.frameworkId, x.id);
    ControlKeysDiffer(run, items);
    OwnRows(t.controlLinks, items, ControlLinkKey(run), ControlLinkRow(), OwnControl(run), k);
    var i :| 0 <= i < |items| && ControlLinkKey(run)(items[i]) == k;
    OwnRow(Without(t.controlLinks, OwnControl(run)), items, ControlLinkKey(run), ControlLinkRow(), i);
  }

  lemma ControlSetIs(t: Tables, c: Corpus, x: Control)
    requires DistinctKeys(c.controls, ControlKey())
    ensures x in ControlSet(Stored(t, c), c.runId) <==> x in c.controls
  {
    hide ControlSet, Stored, DistinctKeys;
    if x in ControlSet(Stored(t, c), c.runId) { ReadControlIsWritten(t, c, x); }
    if x in c.controls {
      var i :| 0 <= i < |c.controls| && c.controls[i] == x;
      ControlIsRead(t, c, i);
    }
  }

  lemma ControlsComeBack(t: Tables, c: Corpus)
    requires DistinctKeys(c.controls, ControlKey())
    ensures ControlRows(Stored(t, c), c.runId) == Sort(c.controls, ControlKey())
  {
    hide ControlSet, Stored;
    forall x ensures x in ControlSet(Stored(t, c), c.runId) <==> x in c.controls {
      ControlSetIs(t, c, x);
    }
    ControlsSeparate(Stored(t, c), c.runId);
    SortedIsOrdered(c.controls, ControlSet(Stored(t, c), c.runId), ControlKey());
  }

  lemma ControlsSeparate(t: Tables, run: string)
    ensures Separates(ControlSet(t, run), ControlKey())
  {
  }

  // ----- results

  /** The stored form of results, in the given order. */
  function Exports(run: string, items: seq<ScopedResult>): (r: seq<ResultExport>)
    ensures |r| == |items|
    ensures forall i :: 0 <= i < |r| ==> r[i] == ResultExport(ResultId(run)(items[i]), RowOf(run, items[i]))
  {
    seq(|items|, i requires 0 <= i < |items| => ResultExport(ResultId(run)(items[i]), RowOf(run, items[i])))
  }

  /** A further column decides nothing between keys that already differ. */
  lemma {:induction false} LongerKeys(a: Key, b: Key, x: string, y: string)
    requires |a| == |b| && a != b
    ensures KeyLess(a + [x], b + [y]) == KeyLess(a, b)
    decreases a
  {
    assert (a + [x])[0] == a[0] && (b + [y])[0] == b[0];
    if a[0] == b[0] {
      assert a == [a[0]] + a[1..] && b == [b[0]] + b[1..];
      assert (a + [x])[1..] == a[1..] + [x] && (b + [y])[1..] == b[1..] + [y];
      LongerKeys(a[1..], b[1..], x, y);
    }
  }

  lemma ExportsSorted(run: string, items: seq<ScopedResult>)
    requires Sorted(items, ScopedKey()) && DistinctKeys(items, ScopedKey())
    ensures Sorted(Exports(run, items), ResultExportKey()) && DistinctKeys(Exports(run, items), ResultExportKey())
  {
    hide KeyLess, ControlResultRowId;
    var r := Exports(run, items);
    forall i, j | 0 <= i < j < |r|
      ensures !KeyLess(ResultExportKey()(r[j]), ResultExportKey()(r[i]))
      ensures ResultExportKey()(r[i]) != ResultExportKey()(r[j])
    {
      var a, b := ScopedKey()(items[i]), ScopedKey()(items[j]);
      assert ResultExportKey()(r[i]) == a + [r[i].id] && ResultExportKey()(r[j]) == b + [r[j].id];
      LongerKeys(b, a, r[j].id, r[i].id);
      assert (a + [r[i].id])[..3] == a && (b + [r[j].id])[..3] == b;
    }
  }

  lemma SameIdSameKey(run: string, a: ScopedResult, b: ScopedResult)
    requires ResultId(run)(a) == ResultId(run)(b)
    ensures ScopedKey()(a) == ScopedKey()(b)
  {
    ControlResultRowIdInjective((run, FrameworkOf(a), a.result.controlId, a.result.ruleId),
                                (run, FrameworkOf(b), b.result.controlId, b.result.ruleId));
  }

  lemma SameKeySameId(run: string, x: ScopedResult, y: ScopedResult)
    ensures ScopedKey()(x) == ScopedKey()(y) <==> ResultId(run)(x) == ResultId(run)(y)
  {
    hide ControlResultRowId;
    var a, b := ScopedKey()(x), ScopedKey()(y);
    if a == b { assert a[0] == b[0] && a[1] == b[1] && a[2] == b[2]; }
    if ResultId(run)(x) == ResultId(run)(y) { SameIdSameKey(run, x, y); }
  }

  lemma DistinctIds(run: string, items: seq<ScopedResult>)
    requires DistinctKeys(items, ScopedKey())
    ensures Unique(items, ResultId(run))
  {
    forall i, j | 0 <= i < j < |items| ensures ResultId(run)(items[i]) != ResultId(run)(items[j]) {
      if ResultId(run)(items[i]) == ResultId(run)(items[j]) { SameIdSameKey(run, items[i], items[j]); }
    }
  }

  /** Every result of the corpus is read back as its row. */
  lemma ResultIsRead(t: Tables, c: Corpus, i: nat)
    requires DistinctKeys(c.results, ScopedKey()) && i < |c.results|
    ensures Exports(c.runId, c.results)[i] in ResultSet(Stored(t, c), c.runId)
  {
    hide Upserts, ControlResultRowId;
    var run, items := c.runId, c.results;
    DistinctIds(run, items);
    OwnRow(Without(t.results, OwnResult(run)), items, ResultId(run), ResultRowMerge(run), i);
    assert ResultId(run)(items[i]) in Stored(t, c).results;
  }

  /** Every row read back is that of a result of the corpus. */
  lemma ReadResultIsWritten(t: Tables, c: Corpus, x: ResultExport)
    requires DistinctKeys(c.results, ScopedKey()) && x in ResultSet(Stored(t, c), c.runId)
    ensures x in Exports(c.runId, c.results)
  {
    hide Upserts, ControlResultRowId;
    var run, items := c.runId, c.results;
    DistinctIds(run, items);
    OwnRows(t.results, items, ResultId(run), ResultRowMerge(run), OwnResult(run), x.id);
    var i :| 0 <= i < |items| && ResultId(run)(items[i]) == x.id;
    OwnRow(Without(t.results, OwnResult(run)), items, ResultId(run), ResultRowMerge(run), i);
    assert Exports(run, items)[i] == x;
  }

  lemma ResultSetIs(t: Tables, c: Corpus, x: ResultExport)
    requires DistinctKeys(c.results, ScopedKey())
    ensures x in ResultSet(Stored(t, c), c.runId) <==> x in Exports(c.runId, c.results)
  {
    hide ResultSet, Stored, DistinctKeys;
    if x in ResultSet(Stored(t, c), c.runId) { ReadResultIsWritten(t, c, x); }
    if x in Exports(c.runId, c.results) {
      var i :| 0 <= i < |c.results| && Exports(c.runId, c.results)[i] == x;
      ResultIsRead(t, c, i);
    }
  }

  lemma ResultRowsAre(t: Tables, c: Corpus)
    requires DistinctKeys(c.results, ScopedKey())
    ensures ResultRows(Stored(t, c), c.runId) == Exports(c.runId, Sort(c.results, ScopedKey()))
  {
    hide ControlResultRowId, Stored, Ordered, ResultSet;
    var run, s := c.runId, Sort(c.results, ScopedKey());
    SortSorts(c.results, ScopedKey());
    DistinctPermutation(c.results, s, ScopedKey());
    ExportsSorted(run, s);
    forall x ensures x in ResultSet(Stored(t, c), run) <==> x in Exports(run, s) {
      ResultSetIs(t, c, x);
      if x in Exports(run, c.results) { ExportsPermuted(run, c.results, s, x); }
      if x in Exports(run, s) { ExportsPermuted(run, s, c.results, x); }
    }
    ResultsSeparate(Stored(t, c), run);
    OrderedIs(ResultSet(Stored(t, c), run), ResultExportKey(), Exports(run, s));
  }

  lemma ResultsSeparate(t: Tables, run: string)
    ensures Separates(ResultSet(t, run), ResultExportKey())
  {
  }

  lemma ExportsPermuted(run: string, a: seq<ScopedResult>, b: seq<ScopedResult>, x: ResultExport)
    requires multiset(a) == multiset(b) && x in Exports(run, a)
    ensures x in Exports(run, b)
  {
    var i :| 0 <= i < |a| && Exports(run, a)[i] == x;
    MultisetMember(a, b, i);
    var j :| 0 <= j < |b| && b[j] == a[i];
    assert Exports(run, b)[j] == x;
  }

  // ----- restoring results

  predicate ReadBack(run: string, s: ScopedResult, runExecutedAt: string, sdk: Sdk) {
    RestoredScoped(RowOf(run, s), runExecutedAt, sdk) == Ok(s)
  }

  /** A storable result the SDK accepts is restored as it was. */
  lemma StorableIsReadBack(run: string, s: ScopedResult, runExecutedAt: string, sdk: Sdk)
    requires StorableResult(s) && sdk.accepts(s.result)
    ensures ReadBack(run, s, runExecutedAt, sdk)
  {
    LabelsPersist(s.result.status);
    var refs := s.result.evidenceRefs;
    assert refs == if EvidenceRef(s.result) == "" then [] else [EvidenceRef(s.result)];
  }

  lemma LabelsPersist(status: Status)
    ensures PersistedStatus(Label(status)) == Ok(status)
  {
    var l := Label(status);
    assert |l| >= 4;
    assert l[0] == 'P' || l[0] == 'F' || l[0] == 'W' || l[0] == 'S' || l[0] == 'E';
    assert "PASS"[0] == 'P' && "FAIL"[0] == 'F' && "WARNING"[0] == 'W' && "SKIPPED"[0] == 'S' && "ERROR"[0] == 'E';
  }

  lemma {:induction false} AllReadBack(run: string, items: seq<ScopedResult>, runExecutedAt: string, sdk: Sdk)
    requires forall s :: s in items ==> ReadBack(run, s, runExecutedAt, sdk)
    ensures RestoredAll(Exports(run, items), runExecutedAt, sdk) == Ok(items)
  {
    hide RestoredScoped;
    if |items| > 0 {
      var init := items[..|items| - 1];
      assert Exports(run, items)[..|items| - 1] == Exports(run, init);
      AllReadBack(run, init, runExecutedAt, sdk);
      assert items[|items| - 1] in items && init + [items[|items| - 1]] == items;
    }
  }

  // ----- evidence

  function StoredEvidence(e: Evidence): EvidenceExport {
    EvidenceExport(e.id, EvidenceLink(e.kind, e.integrity, e.location, ClassificationName(e.classification)))
  }

  function StoredEvidences(items: seq<Evidence>): (r: seq<EvidenceExport>)
    ensures |r| == |items| && forall i :: 0 <= i < |r| ==> r[i] == StoredEvidence(items[i])
  {
    seq(|items|, i requires 0 <= i < |items| => StoredEvidence(items[i]))
  }

  lemma {:induction false} LastOfDistinct(items: seq<Evidence>, i: nat)
    requires DistinctKeys(items, EvidenceKey()) && i < |items|
    ensures LastItem(items, items[i].id) == Some(items[i])
  {
    var n := |items| - 1;
    if i < n {
      assert EvidenceKey()(items[i]) != EvidenceKey()(items[n]);
      LastOfDistinct(items[..n], i);
    }
  }

  lemma {:induction false} LastItemIsItem(items: seq<Evidence>, id: string)
    requires LastItem(items, id).Some?
    ensures LastItem(items, id).value in items && LastItem(items, id).value.id == id
  {
    if items[|items| - 1].id != id { LastItemIsItem(items[..|items| - 1], id); }
  }

  lemma InEvidenceSet(t: Tables, run: string, x: EvidenceExport)
    ensures x in EvidenceSet(t, run) <==> Get(t.evidenceLinks, (run, x.id)) == Some(x.link)
  {
    if x in EvidenceSet(t, run) {
      var k :| k in t.evidenceLinks && k.0 == run && x == EvidenceExport(k.1, t.evidenceLinks[k]);
      assert k == (run, x.id);
    }
    if Get(t.evidenceLinks, (run, x.id)) == Some(x.link) {
      assert (run, x.id) in t.evidenceLinks;
    }
  }

  lemma LinkIsStored(t: Tables, c: Corpus, id: string)
    requires forall e :: e in c.evidence ==> e.integrity != ""
    ensures Get(Stored(t, c).evidenceLinks, (c.runId, id))
         == match LastItem(c.evidence, id) case None => None case Some(e) => Some(StoredEvidence(e).link)
  {
    hide PutLinks, EvidenceAfter;
    var run, owner, items := c.runId, OwnerOf(t.legacyOwner, c.runId), c.evidence;
    LinkGet(Without(t.evidenceLinks, OwnEvidence(run)), run, t.evidence, owner, items, (run, id));
    if LastItem(items, id).Some? { LastItemIsItem(items, id); }
  }

  lemma EvidenceSetIs(t: Tables, c: Corpus, x: EvidenceExport)
    requires DistinctKeys(c.evidence, EvidenceKey()) && forall e :: e in c.evidence ==> e.integrity != ""
    ensures x in EvidenceSet(Stored(t, c), c.runId) <==> x in StoredEvidences(c.evidence)
  {
    hide Stored, EvidenceSet;
    var items := c.evidence;
    InEvidenceSet(Stored(t, c), c.runId, x);
    LinkIsStored(t, c, x.id);
    if LastItem(items, x.id).Some? {
      LastItemIsItem(items, x.id);
      var i :| 0 <= i < |items| && items[i] == LastItem(items, x.id).value;
      assert StoredEvidences(items)[i] == StoredEvidence(items[i]);
    }
    if x in StoredEvidences(items) {
      var i :| 0 <= i < |items| && StoredEvidences(items)[i] == x;
      LastOfDistinct(items, i);
    }
  }

  lemma EvidenceRowsAre(t: Tables, c: Corpus)
    requires DistinctKeys(c.evidence, EvidenceKey()) && forall e :: e in c.evidence ==> e.integrity != ""
    ensures EvidenceRows(Stored(t, c), c.runId) == StoredEvidences(Sort(c.evidence, EvidenceKey()))
  {
    hide Stored, EvidenceSet;
    var run, s := c.runId, Sort(c.evidence, EvidenceKey());
    var m := StoredEvidences(s);
    SortSorts(c.evidence, EvidenceKey());
    DistinctPermutation(c.evidence, s, EvidenceKey());
    forall i, j | 0 <= i < j < |m|
      ensures !KeyLess(EvidenceExportKey()(m[j]), EvidenceExportKey()(m[i]))
      ensures EvidenceExportKey()(m[i]) != EvidenceExportKey()(m[j])
    {
      assert EvidenceExportKey()(m[i]) == EvidenceKey()(s[i]) && EvidenceExportKey()(m[j]) == EvidenceKey()(s[j]);
    }
    forall x ensures x in EvidenceSet(Stored(t, c), run) <==> x in m {
      EvidenceSetIs(t, c, x);
      if x in StoredEvidences(c.evidence) { EvidencePermuted(c.evidence, s, x); }
      if x in m { EvidencePermuted(s, c.evidence, x); }
    }
    EvidenceSeparates(Stored(t, c), run);
    OrderedIs(EvidenceSet(Stored(t, c), run), EvidenceExportKey(), m);
  }

  lemma EvidenceSeparates(t: Tables, run: string)
    ensures Separates(EvidenceSet(t, run), EvidenceExportKey())
  {
  }

  lemma EvidencePermuted(a: seq<Evidence>, b: seq<Evidence>, x: EvidenceExport)
    requires multiset(a) == multiset(b) && x in StoredEvidences(a)
    ensures x in StoredEvidences(b)
  {
    var i :| 0 <= i < |a| && StoredEvidences(a)[i] == x;
    MultisetMember(a, b, i);
    var j :| 0 <= j < |b| && b[j] == a[i];
    assert StoredEvidences(b)[j] == x;
  }

  lemma {:induction false} EvidencesReadBack(items: seq<Evidence>)
    ensures RestoredEvidences(StoredEvidences(items)) == items
  {
    if |items| > 0 {
      var init, last := items[..|items| - 1], items[|items| - 1];
      assert StoredEvidences(items)[..|items| - 1] == StoredEvidences(init);
      EvidencesReadBack(init);
      assert FromPersisted(ClassificationName(last.classification)) == Some(last.classification);
      assert init + [last] == items;
    }
  }

  // ----- the round trip

  ghost predicate ComesBack(t: Tables, c: Corpus, sdk: Sdk) {
    Reconstructed(Stored(t, c), c.runId, sdk) == Ok(SectionsSorted(c))
  }

  /** A storable corpus comes back with its sections sorted, from any state of the database. */
  lemma StorableComesBack(t: Tables, c: Corpus, sdk: Sdk)
    requires Storable(c) && forall s :: s in c.results ==> sdk.accepts(s.result)
    ensures ComesBack(t, c, sdk)
  {
    hide FrameworkRows, ControlRows, ResultRows, EvidenceRows, RestoredAll, RestoredEvidences, ReadBack, Sort,
         StorableResult, Stored;
    FrameworksComeBack(t, c);
    ControlsComeBack(t, c);
    ResultRowsAre(t, c);
    EvidenceRowsAre(t, c);
    EvidencesReadBack(Sort(c.evidence, EvidenceKey()));
    ResultsReadBack(c, sdk);
    StampIsStored(t, c);
  }

  lemma ResultsReadBack(c: Corpus, sdk: Sdk)
    requires Storable(c) && forall s :: s in c.results ==> sdk.accepts(s.result)
    ensures var results := Sort(c.results, ScopedKey());
            RestoredAll(Exports(c.runId, results), c.executedAt, sdk) == Ok(results)
  {
    hide RestoredAll, ReadBack, Sort, StorableResult;
    var results := Sort(c.results, ScopedKey());
    SortSorts(c.results, ScopedKey());
    forall s | s in results ensures ReadBack(c.runId, s, c.executedAt, sdk) {
      var i :| 0 <= i < |results| && results[i] == s;
      MultisetMember(results, c.results, i);
      StorableIsReadBack(c.runId, s, c.executedAt, sdk);
    }
    AllReadBack(c.runId, results, c.executedAt, sdk);
  }

  lemma StampIsStored(t: Tables, c: Corpus)
    requires c.executedAt != ""
    ensures c.runId in Stored(t, c).scanRuns && Stored(t, c).scanRuns[c.runId] == c.executedAt
  {
  }

  // ----- the converse: what does not come back

  function EvidenceIds(items: seq<Evidence>): set<string> {
    set e | e in items :: e.id
  }

  /** A database in which the run and every evidence of the corpus are already known, with something to keep. */
  function Occupied(c: Corpus): Tables {
    EMPTY.(scanRuns := map[c.runId := "earlier"],
           evidence := map id | id in EvidenceIds(c.evidence) :: EvidenceRow(None, "earlier", "", "Secret"))
  }

  lemma {:induction false} RestoredAllAt(rows: seq<ResultExport>, i: nat, runExecutedAt: string, sdk: Sdk)
    requires RestoredAll(rows, runExecutedAt, sdk).Ok? && i < |rows|
    ensures var rs := RestoredAll(rows, runExecutedAt, sdk).value;
            |rs| == |rows| && RestoredScoped(rows[i].row, runExecutedAt, sdk) == Ok(rs[i])
  {
    hide RestoredScoped;
    var n := |rows| - 1;
    if n > 0 { RestoredAllAt(rows[..n], if i < n then i else 0, runExecutedAt, sdk); }
  }

  lemma {:induction false} RestoredAllLength(rows: seq<ResultExport>, runExecutedAt: string, sdk: Sdk)
    requires RestoredAll(rows, runExecutedAt, sdk).Ok?
    ensures |RestoredAll(rows, runExecutedAt, sdk).value| == |rows|
  {
    hide RestoredScoped;
    if |rows| > 0 { RestoredAllLength(rows[..|rows| - 1], runExecutedAt, sdk); }
  }

  /** Whatever a row holds, what is restored from it is storable. */
  lemma RestoredIsStorable(row: ResultRow, runExecutedAt: string, sdk: Sdk)
    requires Describes(sdk) && RestoredScoped(row, runExecutedAt, sdk).Ok?
    ensures StorableResult(RestoredScoped(row, runExecutedAt, sdk).value)
    ensures var s := RestoredScoped(row, runExecutedAt, sdk).value;
            ScopedKey()(s) == [row.controlId, row.ruleId, row.frameworkId]
  {
  }

  lemma RunRowsWellKeyed(t: Tables, c: Corpus, x: ResultExport)
    requires x in ResultSet(Stored(t, c), c.runId)
    ensures x.id == EncodedId(x.row) && x.row.runId == c.runId
  {
    hide ControlResultRowId, Upserts;
    var run, cleared := c.runId, Without(t.results, OwnResult(c.runId));
    UpsertsGet(cleared, c.results, ResultId(run), ResultRowMerge(run), x.id);
    WrittenResult(Get(cleared, x.id), run, c.results, x.id);
    assert Get(Stored(t, c).results, x.id) == Some(x.row);
  }

  /** The results read back are storable and have distinct keys, for any corpus written. */
  lemma ReadResultsAreNormal(t: Tables, c: Corpus, runExecutedAt: string, sdk: Sdk)
    requires Describes(sdk) && RestoredAll(ResultRows(Stored(t, c), c.runId), runExecutedAt, sdk).Ok?
    ensures var rs := RestoredAll(ResultRows(Stored(t, c), c.runId), runExecutedAt, sdk).value;
            DistinctKeys(rs, ScopedKey()) && forall s :: s in rs ==> StorableResult(s)
  {
    hide Stored, ResultSet, RestoredAll, RestoredScoped, StorableResult, EncodedId;
    var rows := ResultRows(Stored(t, c), c.runId);
    var rs := RestoredAll(rows, runExecutedAt, sdk).value;
    RestoredAllLength(rows, runExecutedAt, sdk);
    ResultsSeparate(Stored(t, c), c.runId);
    OrderedIsSorted(ResultSet(Stored(t, c), c.runId), ResultExportKey());
    forall i | 0 <= i < |rs|
      ensures StorableResult(rs[i])
      ensures ScopedKey()(rs[i]) == [rows[i].row.controlId, rows[i].row.ruleId, rows[i].row.frameworkId]
      ensures rows[i].id == EncodedId(rows[i].row) && rows[i].row.runId == c.runId
    {
      RestoredAllAt(rows, i, runExecutedAt, sdk);
      RestoredIsStorable(rows[i].row, runExecutedAt, sdk);
      assert rows[i] in rows;
      RunRowsWellKeyed(t, c, rows[i]);
    }
    forall i, j | 0 <= i < j < |rs| ensures ScopedKey()(rs[i]) != ScopedKey()(rs[j]) {
      ColumnsDiffer(rows[i], rows[j]);
    }
  }

  lemma ColumnsDiffer(x: ResultExport, y: ResultExport)
    requires x.id == EncodedId(x.row) && y.id == EncodedId(y.row) && x.row.runId == y.row.runId
    requires ResultExportKey()(x) != ResultExportKey()(y)
    ensures [x.row.controlId, x.row.ruleId, x.row.frameworkId] != [y.row.controlId, y.row.ruleId, y.row.frameworkId]
  {
    var a := [x.row.controlId, x.row.ruleId, x.row.frameworkId];
    assert a[0] == x.row.controlId && a[1] == x.row.ruleId && a[2] == x.row.frameworkId;
  }

  /** Metadata rows that have a digest keep one. */
  lemma {:induction false} DigestStays(prior: EvidenceRow, owner: Option<string>, items: seq<Evidence>, id: string)
    requires prior.digest != ""
    ensures var row := Merged(Some(prior), items, EvidenceId(), EvidenceMerge(owner), id);
            row.Some? && row.value.digest != ""
  {
    if |items| > 0 { DigestStays(prior, owner, items[..|items| - 1], id); }
  }

  lemma LinksHaveDigests(c: Corpus, x: EvidenceExport)
    requires x in EvidenceSet(Stored(Occupied(c), c), c.runId)
    ensures x.link.digest != ""
  {
    hide PutLinks, EvidenceSet, Upserts;
    var t, run, items := Occupied(c), c.runId, c.evidence;
    var owner := OwnerOf(t.legacyOwner, run);
    InEvidenceSet(Stored(t, c), run, x);
    LinkGet(Without(t.evidenceLinks, OwnEvidence(run)), run, t.evidence, owner, items, (run, x.id));
    if LastItem(items, x.id).Some? {
      LastItemIsItem(items, x.id);
      assert x.id in t.evidence;
      UpsertsGet(t.evidence, items, EvidenceId(), EvidenceMerge(owner), x.id);
      DigestStays(t.evidence[x.id], owner, items, x.id);
    }
  }

  lemma {:induction false} RestoredEvidenceAt(rows: seq<EvidenceExport>, i: nat)
    requires i < |rows|
    ensures |RestoredEvidences(rows)| == |rows| && RestoredEvidences(rows)[i] == RestoredEvidence(rows[i])
  {
    hide RestoredEvidence;
    var n := |rows| - 1;
    if n > 0 { RestoredEvidenceAt(rows[..n], if i < n then i else 0); }
  }

  lemma ReadEvidenceIsNormal(c: Corpus)
    ensures var es := RestoredEvidences(EvidenceRows(Stored(Occupied(c), c), c.runId));
            DistinctKeys(es, EvidenceKey()) && forall e :: e in es ==> e.integrity != ""
  {
    hide Stored, EvidenceSet, Occupied, RestoredEvidences;
    var t := Stored(Occupied(c), c);
    var rows := EvidenceRows(t, c.runId);
    var es := RestoredEvidences(rows);
    EvidenceSeparates(t, c.runId);
    OrderedIsSorted(EvidenceSet(t, c.runId), EvidenceExportKey());
    if |rows| > 0 { RestoredEvidenceAt(rows, 0); } else { NothingRestored(rows); }
    forall i | 0 <= i < |es| ensures es[i].integrity != "" && EvidenceKey()(es[i]) == EvidenceExportKey()(rows[i]) {
      RestoredEvidenceAt(rows, i);
      assert rows[i] in rows;
      LinksHaveDigests(c, rows[i]);
    }
  }

  lemma NothingRestored(rows: seq<EvidenceExport>)
    requires |rows| == 0
    ensures |RestoredEvidences(rows)| == 0
  {
  }

  lemma DistinctBeforeSorting<T(!new)>(items: seq<T>, key: T -> Key)
    requires DistinctKeys(Sort(items, key), key)
    ensures DistinctKeys(items, key) && forall x :: x in items ==> x in Sort(items, key)
  {
    SortSorts(items, key);
    DistinctPermutation(Sort(items, key), items, key);
    forall x | x in items ensures x in Sort(items, key) {
      var i :| 0 <= i < |items| && items[i] == x;
      MultisetMember(items, Sort(items, key), i);
    }
  }

  lemma OnlyStorableComesBack(c: Corpus, sdk: Sdk)
    requires Describes(sdk) && ComesBack(Occupied(c), c, sdk)
    ensures Storable(c)
  {
    hide RestoredAll, RestoredEvidences, StorableResult, FrameworkSet, ControlSet, ResultRows, EvidenceRows, Sort;
    var t, run := Stored(Occupied(c), c), c.runId;
    FrameworksSeparate(t, run);
    OrderedIsSorted(FrameworkSet(t, run), FrameworkKey());
    DistinctBeforeSorting(c.frameworks, FrameworkKey());
    ControlsSeparate(t, run);
    OrderedIsSorted(ControlSet(t, run), ControlKey());
    DistinctBeforeSorting(c.controls, ControlKey());
    OutcomesStorable(c, sdk);
    RunIsStamped(c);
  }

  lemma OutcomesStorable(c: Corpus, sdk: Sdk)
    requires Describes(sdk) && ComesBack(Occupied(c), c, sdk)
    ensures DistinctKeys(c.results, ScopedKey()) && forall s :: s in c.results ==> StorableResult(s)
    ensures DistinctKeys(c.evidence, EvidenceKey()) && forall e :: e in c.evidence ==> e.integrity != ""
  {
    hide RestoredAll, RestoredEvidences, StorableResult, FrameworkRows, ControlRows, ResultRows, EvidenceRows, Sort,
         Stored, Occupied;
    ReadResultsAreNormal(Occupied(c), c, Stored(Occupied(c), c).scanRuns[c.runId], sdk);
    DistinctBeforeSorting(c.results, ScopedKey());
    ReadEvidenceIsNormal(c);
    DistinctBeforeSorting(c.evidence, EvidenceKey());
  }

  lemma RunIsStamped(c: Corpus)
    ensures c.runId in Stored(Occupied(c), c).scanRuns && Stored(Occupied(c), c).scanRuns[c.runId] != ""
  {
  }

  /** Exactly the storable corpora come back, sorted, from every database they are written to. */
  lemma RoundTrip(c: Corpus, sdk: Sdk)
    requires Describes(sdk) && forall s :: s in c.results ==> sdk.accepts(s.result)
    ensures Storable(c) <==> forall t :: ComesBack(t, c, sdk)
  {
    hide Storable, ComesBack;
    if Storable(c) {
      forall t ensures ComesBack(t, c, sdk) { StorableComesBack(t, c, sdk); }
    }
    if forall t :: ComesBack(t, c, sdk) {
      assert ComesBack(Occupied(c), c, sdk);
      OnlyStorableComesBack(c, sdk);
    }
  }

  /** A run exports its last write, whatever happens to other runs before and after. */
  lemma LastWriteIsExported(
    legacyOwner: bool, before: seq<Operation>, c: Corpus, after: seq<Operation>, sdk: Sdk)
    requires Storable(c) && Refusal(c) == None && forall s :: s in c.results ==> sdk.accepts(s.result)
    requires forall i :: 0 <= i < |after| ==> !TouchesRun(after[i], c.runId)
    ensures Reconstructed(Replayed(Fresh(legacyOwner), before + [Write(c)] + after), c.runId, sdk)
         == Ok(SectionsSorted(c))
  {
    hide Storable, Refusal, Reconstructed, Stored;
    OtherRunsKeepTheirExport(legacyOwner, before + [Write(c)], after, c.runId, sdk);
    assert (before + [Write(c)])[..|before|] == before;
    StorableComesBack(Replayed(Fresh(legacyOwner), before), c, sdk);
  }
}

/**
 What any corpus reads back as, storable or not, written to any database: of records with one key the last one, each
 column as it was or as the tables replace it, and the first result that cannot be read decides the error.
 */
module RunReadBack {
  import opened Wrappers
  import opened Ordering
  import opened Folds
  import opened Corpora
  import opened Database
  import opened WriteTwice
  import opened RunIsolation
  import opened RunRoundTrip

  // ----- the last record of each key

  /** Item `i` is the last one with its key. */
  ghost predicate IsLatest<T(!new)>(items: seq<T>, key: T -> Key, i: nat) {
    i < |items| && forall j :: i < j < |items| ==> key(items[j]) != key(items[i])
  }

  predicate Occurs<T>(items: seq<T>, key: T -> Key, k: Key) {
    exists i :: 0 <= i < |items| && key(items[i]) == k
  }

  /** The items that are the last of their key. */
  function Latest<T>(items: seq<T>, key: T -> Key): seq<T> {
    if |items| == 0 then []
    else (if Occurs(items[1..], key, key(items[0])) then [] else [items[0]]) + Latest(items[1..], key)
  }

  ghost predicate IsLatestItem<T(!new)>(items: seq<T>, key: T -> Key, x: T) {
    exists i: nat :: i < |items| && items[i] == x && IsLatest(items, key, i)
  }

  lemma LatestStep<T(!new)>(items: seq<T>, key: T -> Key, x: T)
    requires |items| > 0
    ensures IsLatestItem(items, key, x) <==>
            IsLatestItem(items[1..], key, x) || (x == items[0] && !Occurs(items[1..], key, key(items[0])))
  {
    hide IsLatest, Occurs;
    var rest := items[1..];
    FirstIsLatest(items, key);
    if IsLatestItem(items, key, x) {
      var i: nat :| i < |items| && items[i] == x && IsLatest(items, key, i);
      if i > 0 { RestIsLatest(items, key, i - 1); }
    }
    if IsLatestItem(rest, key, x) {
      var i: nat :| i < |rest| && rest[i] == x && IsLatest(rest, key, i);
      RestIsLatest(items, key, i);
    }
  }

  lemma {:induction false} LatestIs<T(!new)>(items: seq<T>, key: T -> Key)
    ensures forall x :: x in Latest(items, key) <==> IsLatestItem(items, key, x)
    ensures DistinctKeys(Latest(items, key), key)
  {
    hide IsLatest, Occurs;
    if |items| > 0 {
      var rest := items[1..];
      LatestIs(rest, key);
      forall x ensures x in Latest(items, key) <==> IsLatestItem(items, key, x) { LatestStep(items, key, x); }
      if !Occurs(rest, key, key(items[0])) {
        forall x | x in Latest(rest, key) ensures key(x) != key(items[0]) { LatestOccurs(rest, key, x); }
        DistinctStep(items[0], Latest(rest, key), key);
      }
    }
  }

  lemma LatestOccurs<T(!new)>(items: seq<T>, key: T -> Key, x: T)
    requires IsLatestItem(items, key, x)
    ensures Occurs(items, key, key(x))
  {
  }

  lemma DistinctStep<T(!new)>(x: T, rest: seq<T>, key: T -> Key)
    requires DistinctKeys(rest, key) && forall y :: y in rest ==> key(y) != key(x)
    ensures DistinctKeys([x] + rest, key)
  {
    var all := [x] + rest;
    forall i, j | 0 <= i < j < |all| ensures key(all[i]) != key(all[j]) {
      assert all[j] == rest[j - 1];
      if i > 0 { assert all[i] == rest[i - 1]; }
    }
  }

  lemma RestIsLatest<T(!new)>(items: seq<T>, key: T -> Key, i: nat)
    requires i + 1 < |items|
    ensures IsLatest(items, key, i + 1) <==> IsLatest(items[1..], key, i)
  {
    var rest := items[1..];
    assert forall j :: 0 <= j < |rest| ==> rest[j] == items[j + 1];
    assert forall j :: 1 <= j < |items| ==> items[j] == rest[j - 1];
  }

  lemma FirstIsLatest<T(!new)>(items: seq<T>, key: T -> Key)
    requires |items| > 0
    ensures IsLatest(items, key, 0) <==> !Occurs(items[1..], key, key(items[0]))
  {
    var rest := items[1..];
    assert forall j :: 0 <= j < |rest| ==> rest[j] == items[j + 1];
    assert forall j :: 1 <= j < |items| ==> items[j] == rest[j - 1];
  }

  /** The last item with a row key decides the row. */
  lemma {:induction false} LastDecides<K, V(!new), T(!new)>(
    prior: Option<V>, items: seq<T>, rowKey: T -> K, merge: (Option<V>, T) -> V, i: nat)
    requires LastWins(merge) && i < |items| && forall j :: i < j < |items| ==> rowKey(items[j]) != rowKey(items[i])
    ensures Merged(prior, items, rowKey, merge, rowKey(items[i])) == Some(merge(None, items[i]))
  {
    var n := |items| - 1;
    if i < n {
      assert rowKey(items[n]) != rowKey(items[i]) && items[..n][i] == items[i];
      LastDecides(prior, items[..n], rowKey, merge, i);
    }
  }

  lemma {:induction false} LastExists<K, T(!new)>(items: seq<T>, rowKey: T -> K, k: K) returns (i: nat)
    requires HasKey(items, rowKey, k)
    ensures i < |items| && rowKey(items[i]) == k && forall j :: i < j < |items| ==> rowKey(items[j]) != k
  {
    var n := |items| - 1;
    if rowKey(items[n]) == k {
      i := n;
    } else {
      var j :| 0 <= j < |items| && rowKey(items[j]) == k;
      assert items[..n][j] == items[j];
      i := LastExists(items[..n], rowKey, k);
    }
  }

  /** The two keys tell the same items apart. */
  ghost predicate SameKeys<K, T(!new)>(key: T -> Key, rowKey: T -> K) {
    forall x, y :: key(x) == key(y) <==> rowKey(x) == rowKey(y)
  }

  /** Where the last row wins, the earlier records of a key leave nothing. */
  lemma OnlyLatestCounts<K, V(!new), T(!new)>(
    prior: Option<V>, items: seq<T>, key: T -> Key, rowKey: T -> K, merge: (Option<V>, T) -> V, k: K)
    requires LastWins(merge) && SameKeys(key, rowKey)
    ensures Merged(prior, items, rowKey, merge, k) == Merged(prior, Latest(items, key), rowKey, merge, k)
  {
    hide LastWins, Merged;
    var latest := Latest(items, key);
    LatestIs(items, key);
    if HasKey(items, rowKey, k) {
      var i := LastExists(items, rowKey, k);
      LastDecides(prior, items, rowKey, merge, i);
      assert IsLatest(items, key, i) && IsLatestItem(items, key, items[i]);
      var h :| 0 <= h < |latest| && latest[h] == items[i];
      forall j | h < j < |latest| ensures rowKey(latest[j]) != rowKey(latest[h]) {
        assert key(latest[h]) != key(latest[j]);
      }
      LastDecides(prior, latest, rowKey, merge, h);
    } else {
      if HasKey(latest, rowKey, k) {
        var h :| 0 <= h < |latest| && rowKey(latest[h]) == k;
        assert latest[h] in latest;
        LatestOccurs(items, key, latest[h]);
        assert false;
      }
      NoKeyNoChange(prior, items, rowKey, merge, k);
      NoKeyNoChange(prior, latest, rowKey, merge, k);
    }
  }

  lemma OnlyLatestStored<K(!new), V(!new), T(!new)>(
    rows: map<K, V>, items: seq<T>, key: T -> Key, rowKey: T -> K, merge: (Option<V>, T) -> V)
    requires LastWins(merge) && SameKeys(key, rowKey)
    ensures Upserts(rows, items, rowKey, merge) == Upserts(rows, Latest(items, key), rowKey, merge)
  {
    hide LastWins, SameKeys, Upserts;
    var a, b := Upserts(rows, items, rowKey, merge), Upserts(rows, Latest(items, key), rowKey, merge);
    forall k ensures Get(a, k) == Get(b, k) {
      UpsertsGet(rows, items, rowKey, merge, k);
      UpsertsGet(rows, Latest(items, key), rowKey, merge, k);
      OnlyLatestCounts(Get(rows, k), items, key, rowKey, merge, k);
    }
    MapsEqual(a, b);
  }

  // ----- the corpus as its last records leave it

  function Settled(c: Corpus): Corpus {
    c.(frameworks := Latest(c.frameworks, FrameworkKey()), controls := Latest(c.controls, ControlKey()),
       results := Latest(c.results, ScopedKey()))
  }

  lemma KeysAgree(run: string)
    ensures SameKeys(FrameworkKey(), FrameworkLinkKey(run))
    ensures SameKeys(ControlKey(), ControlLinkKey(run))
  {
    forall x: Framework, y: Framework
      ensures FrameworkKey()(x) == FrameworkKey()(y) <==> FrameworkLinkKey(run)(x) == FrameworkLinkKey(run)(y)
    {
      var a, b := FrameworkKey()(x), FrameworkKey()(y);
      assert a == b <==> a[0] == b[0];
    }
    forall x: Control, y: Control
      ensures ControlKey()(x) == ControlKey()(y) <==> ControlLinkKey(run)(x) == ControlLinkKey(run)(y)
    {
      var a, b := ControlKey()(x), ControlKey()(y);
      assert a == b <==> a[0] == b[0] && a[1] == b[1];
    }
  }

  lemma ResultKeysAgree(run: string)
    ensures SameKeys(ScopedKey(), ResultId(run))
  {
    forall x: ScopedResult, y: ScopedResult
      ensures ScopedKey()(x) == ScopedKey()(y) <==> ResultId(run)(x) == ResultId(run)(y)
    {
      SameKeySameId(run, x, y);
    }
  }

  /** The tables read back depend on the last records only. */
  lemma SettledIsStored(t: Tables, c: Corpus)
    ensures var a, b := Stored(t, c), Stored(t, Settled(c));
            && a.frameworkLinks == b.frameworkLinks && a.controlLinks == b.controlLinks && a.results == b.results
            && a.scanRuns == b.scanRuns
  {
    hide Upserts, SameKeys, Latest;
    var run := c.runId;
    KeysAgree(run);
    ResultKeysAgree(run);
    OnlyLatestStored(Without(t.frameworkLinks, OwnFramework(run)), c.frameworks, FrameworkKey(), FrameworkLinkKey(run),
                     FrameworkLinkRow());
    OnlyLatestStored(Without(t.controlLinks, OwnControl(run)), c.controls, ControlKey(), ControlLinkKey(run),
                     ControlLinkRow());
    OnlyLatestStored(Without(t.results, OwnResult(run)), c.results, ScopedKey(), ResultId(run), ResultRowMerge(run));
  }

  lemma SectionsAre(t: Tables, c: Corpus)
    ensures FrameworkRows(Stored(t, c), c.runId) == Sort(Latest(c.frameworks, FrameworkKey()), FrameworkKey())
    ensures ControlRows(Stored(t, c), c.runId) == Sort(Latest(c.controls, ControlKey()), ControlKey())
    ensures ResultRows(Stored(t, c), c.runId) == Exports(c.runId, Sort(Latest(c.results, ScopedKey()), ScopedKey()))
  {
    hide Stored, Latest, Sort, Ordered;
    LatestIs(c.frameworks, FrameworkKey());
    LatestIs(c.controls, ControlKey());
    LatestIs(c.results, ScopedKey());
    FrameworksComeBack(t, Settled(c));
    ControlsComeBack(t, Settled(c));
    ResultRowsAre(t, Settled(c));
    SettledIsStored(t, c);
    SameLinksSameRows(Stored(t, c), Stored(t, Settled(c)), c.runId);
  }

  lemma SameLinksSameRows(t: Tables, u: Tables, run: string)
    requires t.frameworkLinks == u.frameworkLinks && t.controlLinks == u.controlLinks && t.results == u.results
    ensures FrameworkRows(t, run) == FrameworkRows(u, run) && ControlRows(t, run) == ControlRows(u, run)
    ensures ResultRows(t, run) == ResultRows(u, run)
  {
  }

  // ----- one result, column by column

  /** Nothing but white space, by code point: the characters with the Unicode property `White_Space`. */
  predicate SaysNothing(text: string) {
    forall i :: 0 <= i < |text| ==>
      var n := text[i] as int;
      n in {0x20, 0x85, 0xA0, 0x1680, 0x2028, 0x2029, 0x202F, 0x205F, 0x3000} || 0x09 <= n <= 0x0D
      || 0x2000 <= n <= 0x200A
  }

  lemma BlankSaysNothing(text: string)
    ensures Blank(text) <==> SaysNothing(text)
  {
  }

  /** What `s` is read back as: what the tables cannot hold is dropped, what is missing is filled in. */
  predicate ReadsAs(s: ScopedResult, r: ScopedResult, stamp: string, sdk: Sdk) {
    var x, y := s.result, r.result;
    && r.frameworkId == (if s.frameworkId == Some("") then None else s.frameworkId)
    && y.controlId == x.controlId && y.ruleId == x.ruleId && y.status == x.status
    && y.severity == x.severity && y.weight == x.weight && y.executionMetadata == x.executionMetadata
    && y.evidenceRefs == (if |x.evidenceRefs| > 0 && x.evidenceRefs[0] != "" then [x.evidenceRefs[0]] else [])
    && y.executedAt == (if x.executedAt != "" then x.executedAt else stamp)
    && y.reason == (if x.reason.Some? && !SaysNothing(x.reason.value) then x.reason
                    else if x.status == Pass then None else Some(sdk.description(x.status)))
  }

  /** Why `s` is not read back: no time at all, or the SDK does not take what it would be read as. */
  ghost predicate FailsWith(s: ScopedResult, e: DatabaseError, stamp: string, sdk: Sdk) {
    if s.result.executedAt == "" && stamp == "" then e == MissingTimestamp(s.result.controlId, s.result.ruleId)
    else
      && e == InvalidResult(s.result.controlId, s.result.ruleId)
      && exists r :: ReadsAs(s, r, stamp, sdk) && !sdk.accepts(r.result)
  }

  ghost predicate IsReadAs(s: ScopedResult, r: ScopedResult, stamp: string, sdk: Sdk) {
    && (s.result.executedAt != "" || stamp != "")
    && ReadsAs(s, r, stamp, sdk) && sdk.accepts(r.result)
  }

  lemma ResultIsRead(run: string, s: ScopedResult, stamp: string, sdk: Sdk)
    ensures match RestoredScoped(RowOf(run, s), stamp, sdk)
            case Ok(r) => IsReadAs(s, r, stamp, sdk)
            case Err(e) => FailsWith(s, e, stamp, sdk)
  {
    LabelsPersist(s.result.status);
    var x := s.result;
    if x.reason.Some? { BlankSaysNothing(x.reason.value); }
    var y := ControlResult(x.controlId, x.ruleId, x.status, x.severity, x.weight,
                           RestoredReason(RowOf(run, s), x.status, sdk),
                           if EvidenceRef(x) == "" then [] else [EvidenceRef(x)],
                           if x.executedAt == "" then stamp else x.executedAt, x.executionMetadata);
    assert ReadsAs(s, ScopedResult(if s.frameworkId == Some("") then None else s.frameworkId, y), stamp, sdk);
  }

  // ----- the results of a run

  ghost predicate Readable(s: ScopedResult, stamp: string, sdk: Sdk) {
    exists r :: IsReadAs(s, r, stamp, sdk)
  }

  /** Result `k` is the first one that is not read back. */
  ghost predicate FailsAt(listed: seq<ScopedResult>, k: nat, e: DatabaseError, stamp: string, sdk: Sdk) {
    && k < |listed| && FailsWith(listed[k], e, stamp, sdk)
    && forall j :: 0 <= j < k ==> Readable(listed[j], stamp, sdk)
  }

  /** Every listed result is read back, or the first one that cannot be decides the error. */
  ghost predicate ReadAll(listed: seq<ScopedResult>, outcome: Result<seq<ScopedResult>, DatabaseError>, stamp: string,
                          sdk: Sdk) {
    match outcome
    case Ok(rs) => |rs| == |listed| && forall k :: 0 <= k < |listed| ==> IsReadAs(listed[k], rs[k], stamp, sdk)
    case Err(e) => exists k: nat :: FailsAt(listed, k, e, stamp, sdk)
  }

  /** One result more. */
  function OneMore(init: Result<seq<ScopedResult>, DatabaseError>, last: Result<ScopedResult, DatabaseError>)
    : Result<seq<ScopedResult>, DatabaseError>
  {
    match init
    case Err(e) => Err(e)
    case Ok(rs) => match last
      case Err(e) => Err(e)
      case Ok(r) => Ok(rs + [r])
  }

  lemma ReadAllStep(listed: seq<ScopedResult>, s: ScopedResult, init: Result<seq<ScopedResult>, DatabaseError>,
                    last: Result<ScopedResult, DatabaseError>, stamp: string, sdk: Sdk)
    requires ReadAll(listed, init, stamp, sdk)
    requires match last case Ok(r) => IsReadAs(s, r, stamp, sdk) case Err(e) => FailsWith(s, e, stamp, sdk)
    ensures ReadAll(listed + [s], OneMore(init, last), stamp, sdk)
  {
    hide IsReadAs, FailsWith;
    var all, n := listed + [s], |listed|;
    assert all[n] == s && forall k :: 0 <= k < n ==> all[k] == listed[k];
    match (init, last)
    case (Err(e), _) =>
      var k: nat :| FailsAt(listed, k, e, stamp, sdk);
      assert FailsAt(all, k, e, stamp, sdk);
    case (Ok(rs), Err(e)) =>
      forall j | 0 <= j < n ensures Readable(all[j], stamp, sdk) { assert IsReadAs(listed[j], rs[j], stamp, sdk); }
      assert FailsAt(all, n, e, stamp, sdk);
    case (Ok(rs), Ok(r)) =>
  }

  lemma {:induction false} ResultsAreRead(run: string, listed: seq<ScopedResult>, stamp: string, sdk: Sdk)
    ensures ReadAll(listed, RestoredAll(Exports(run, listed), stamp, sdk), stamp, sdk)
  {
    hide RestoredScoped, IsReadAs, FailsWith, RowOf, ResultId;
    if |listed| > 0 {
      var init, last := listed[..|listed| - 1], listed[|listed| - 1];
      ExportsStep(run, listed);
      ResultsAreRead(run, init, stamp, sdk);
      ResultIsRead(run, last, stamp, sdk);
      ReadAllStep(init, last, RestoredAll(Exports(run, init), stamp, sdk), RestoredScoped(RowOf(run, last), stamp, sdk),
                  stamp, sdk);
      assert init + [last] == listed;
      RestoredStep(Exports(run, listed), stamp, sdk);
    }
  }

  lemma ExportsStep(run: string, listed: seq<ScopedResult>)
    requires |listed| > 0
    ensures var n := |listed| - 1;
            && Exports(run, listed)[..n] == Exports(run, listed[..n])
            && Exports(run, listed)[n].row == RowOf(run, listed[n])
  {
  }

  lemma RestoredStep(rows: seq<ResultExport>, stamp: string, sdk: Sdk)
    requires |rows| > 0
    ensures var n := |rows| - 1;
            RestoredAll(rows, stamp, sdk)
            == OneMore(RestoredAll(rows[..n], stamp, sdk), RestoredScoped(rows[n].row, stamp, sdk))
  {
    hide RestoredScoped;
  }

  // ----- the whole run

  /**
   Writing any corpus to any database and reading its run back: the run's own time or the one it had, the last
   framework and control of each id in order, and the last result of each control, rule and framework in order.
   */
  lemma AnyCorpusIsReadBack(t: Tables, c: Corpus, sdk: Sdk)
    ensures var stamp := if c.executedAt == "" && c.runId in t.scanRuns then t.scanRuns[c.runId] else c.executedAt;
            var listed := Sort(Latest(c.results, ScopedKey()), ScopedKey());
            match Reconstructed(Stored(t, c), c.runId, sdk)
            case Ok(r) =>
              && r.executedAt == stamp && r.runId == c.runId
              && r.frameworks == Sort(Latest(c.frameworks, FrameworkKey()), FrameworkKey())
              && r.controls == Sort(Latest(c.controls, ControlKey()), ControlKey())
              && ReadAll(listed, Ok(r.results), stamp, sdk)
            case Err(e) => ReadAll(listed, Err(e), stamp, sdk)
  {
    hide *;
    RunIsStampedWith(t, c);
    SectionsAre(t, c);
    ReconstructionIs(Stored(t, c), c.runId, sdk);
    ResultsAreRead(c.runId, Sort(Latest(c.results, ScopedKey()), ScopedKey()), Stored(t, c).scanRuns[c.runId], sdk);
  }

  lemma RunIsStampedWith(t: Tables, c: Corpus)
    ensures c.runId in Stored(t, c).scanRuns
    ensures Stored(t, c).scanRuns[c.runId]
         == if c.executedAt == "" && c.runId in t.scanRuns then t.scanRuns[c.runId] else c.executedAt
  {
  }

  lemma ReconstructionIs(t: Tables, run: string, sdk: Sdk)
    requires run in t.scanRuns
    ensures match (Reconstructed(t, run, sdk), RestoredAll(ResultRows(t, run), t.scanRuns[run], sdk))
            case (Ok(r), Ok(results)) =>
              && r.executedAt == t.scanRuns[run] && r.runId == run && r.results == results
              && r.frameworks == FrameworkRows(t, run) && r.controls == ControlRows(t, run)
            case (Err(e), Err(f)) => e == f
            case _ => false
  {
    hide FrameworkRows, ControlRows, ResultRows, EvidenceRows, RestoredAll, RestoredEvidences;
  }

  // ----- the order of the sections

  /** Compared by one text, then another, then a third. */
  predicate Earlier(a: (string, string, string), b: (string, string, string)) {
    || Less(a.0, b.0) || (a.0 == b.0 && Less(a.1, b.1)) || (a.0 == b.0 && a.1 == b.1 && Less(a.2, b.2))
  }

  lemma KeyOfThree(a: (string, string, string), b: (string, string, string))
    ensures KeyLess([a.0, a.1, a.2], [b.0, b.1, b.2]) <==> Earlier(a, b)
  {
    var k, l := [a.0, a.1, a.2], [b.0, b.1, b.2];
    KeyOfTwo(a.1, a.2, b.1, b.2);
    assert k[1..] == [a.1, a.2] && l[1..] == [b.1, b.2];
  }

  lemma KeyOfTwo(a: string, x: string, b: string, y: string)
    ensures KeyLess([a, x], [b, y]) <==> Less(a, b) || (a == b && Less(x, y))
  {
    assert [a, x][1..] == [x] && [b, y][1..] == [y];
    assert KeyLess([x], [y]) <==> Less(x, y) || (x == y && KeyLess([], []));
  }

  /** The last records sorted: each key before the next. */
  lemma LatestRise<T(!new)>(items: seq<T>, key: T -> Key, i: nat, j: nat)
    requires i < j < |Sort(Latest(items, key), key)|
    ensures var sorted := Sort(Latest(items, key), key); KeyLess(key(sorted[i]), key(sorted[j]))
  {
    hide Latest, Sort;
    var latest := Latest(items, key);
    var sorted := Sort(latest, key);
    LatestIs(items, key);
    SortSorts(latest, key);
    DistinctPermutation(latest, sorted, key);
    KeyLessTotal(key(sorted[i]), key(sorted[j]));
  }

  lemma CatalogueRises(c: Corpus)
    ensures var f, x := Sort(Latest(c.frameworks, FrameworkKey()), FrameworkKey()),
                        Sort(Latest(c.controls, ControlKey()), ControlKey());
            && (forall i, j :: 0 <= i < j < |f| ==> Less(f[i].id, f[j].id))
            && (forall i, j :: 0 <= i < j < |x| ==>
                  Less(x[i].frameworkId, x[j].frameworkId)
                  || (x[i].frameworkId == x[j].frameworkId && Less(x[i].id, x[j].id)))
  {
    hide Latest, Sort;
    var f, x := Sort(Latest(c.frameworks, FrameworkKey()), FrameworkKey()),
                Sort(Latest(c.controls, ControlKey()), ControlKey());
    forall i, j | 0 <= i < j < |f| ensures Less(f[i].id, f[j].id) {
      LatestRise(c.frameworks, FrameworkKey(), i, j);
    }
    forall i, j | 0 <= i < j < |x|
      ensures Less(x[i].frameworkId, x[j].frameworkId)
              || (x[i].frameworkId == x[j].frameworkId && Less(x[i].id, x[j].id))
    {
      LatestRise(c.controls, ControlKey(), i, j);
      KeyOfTwo(x[i].frameworkId, x[i].id, x[j].frameworkId, x[j].id);
    }
  }

  function ReadKey(r: ScopedResult): (string, string, string) {
    (r.result.controlId, r.result.ruleId, if r.frameworkId.Some? then r.frameworkId.value else "")
  }

  lemma ResultsRise(c: Corpus, rs: seq<ScopedResult>, stamp: string, sdk: Sdk, i: nat, j: nat)
    requires ReadAll(Sort(Latest(c.results, ScopedKey()), ScopedKey()), Ok(rs), stamp, sdk) && i < j < |rs|
    ensures Earlier(ReadKey(rs[i]), ReadKey(rs[j]))
  {
    hide Latest, Sort, Earlier;
    var listed := Sort(Latest(c.results, ScopedKey()), ScopedKey());
    LatestRise(c.results, ScopedKey(), i, j);
    forall k: nat | k < |rs| ensures ScopedKey()(listed[k]) == [ReadKey(rs[k]).0, ReadKey(rs[k]).1, ReadKey(rs[k]).2] {
      assert IsReadAs(listed[k], rs[k], stamp, sdk);
    }
    KeyOfThree(ReadKey(rs[i]), ReadKey(rs[j]));
  }

  /**
   The run read back has its frameworks by id, its controls by framework and id, and its results by control, rule and
   framework, each once.
   */
  lemma ReadBackIsOrdered(t: Tables, c: Corpus, sdk: Sdk)
    ensures match Reconstructed(Stored(t, c), c.runId, sdk)
            case Err(_) => true
            case Ok(r) =>
              && (forall i, j :: 0 <= i < j < |r.frameworks| ==> Less(r.frameworks[i].id, r.frameworks[j].id))
              && (forall i, j :: 0 <= i < j < |r.controls| ==>
                    var a, b := r.controls[i], r.controls[j];
                    Less(a.frameworkId, b.frameworkId) || (a.frameworkId == b.frameworkId && Less(a.id, b.id)))
              && (forall i, j :: 0 <= i < j < |r.results| ==> Earlier(ReadKey(r.results[i]), ReadKey(r.results[j])))
  {
    hide Latest, Sort, Earlier, ReadKey, ReadAll, Reconstructed, Stored;
    AnyCorpusIsReadBack(t, c, sdk);
    CatalogueRises(c);
    match Reconstructed(Stored(t, c), c.runId, sdk)
    case Err(_) =>
    case Ok(r) =>
      var stamp := if c.executedAt == "" && c.runId in t.scanRuns then t.scanRuns[c.runId] else c.executedAt;
      forall i: nat, j: nat | i < j < |r.results| ensures Earlier(ReadKey(r.results[i]), ReadKey(r.results[j])) {
        ResultsRise(c, r.results, stamp, sdk, i, j);
      }
  }

  // ----- the tables shared by all runs

  ghost predicate IsFirst(items: seq<Framework>, id: string, i: nat) {
    i < |items| && items[i].id == id && forall j :: 0 <= j < i ==> items[j].id != id
  }

  /** A framework's version stays if it has one, and is that of its first item otherwise. */
  lemma VersionIsKept(t: Tables, c: Corpus, id: string)
    ensures var u := Stored(t, c);
            && (id in t.frameworks ==> Get(u.frameworks, id) == Get(t.frameworks, id))
            && (id !in t.frameworks ==>
                  && (forall i: nat :: IsFirst(c.frameworks, id, i) ==>
                        Get(u.frameworks, id) == Some(c.frameworks[i].version))
                  && (!HasKey(c.frameworks, FrameworkId(), id) ==> Get(u.frameworks, id) == None))
  {
    hide Stored, Merged, IsFirst, HasKey;
    VersionsAre(t, c, id);
    MergedVersion(if id in t.frameworks then Some(t.frameworks[id]) else None, c.frameworks, id);
  }

  lemma VersionsAre(t: Tables, c: Corpus, id: string)
    ensures var prior := if id in t.frameworks then Some(t.frameworks[id]) else None;
            Get(Stored(t, c).frameworks, id) == Merged(prior, c.frameworks, FrameworkId(), KeepVersion(), id)
  {
    hide Upserts, Merged;
    UpsertsGet(t.frameworks, c.frameworks, FrameworkId(), KeepVersion(), id);
  }

  lemma MergedVersion(prior: Option<string>, items: seq<Framework>, id: string)
    ensures var version := Merged(prior, items, FrameworkId(), KeepVersion(), id);
            && (prior.Some? ==> version == prior)
            && (prior.None? && !HasKey(items, FrameworkId(), id) ==> version == None)
            && (prior.None? ==> forall i: nat :: IsFirst(items, id, i) ==> version == Some(items[i].version))
  {
    hide Merged, HasKey, IsFirst;
    if prior.Some? {
      FirstWinsKeeps(prior.value, items, FrameworkId(), KeepVersion(), id);
    } else {
      forall i: nat | IsFirst(items, id, i)
        ensures i < |items| && Merged(None, items, FrameworkId(), KeepVersion(), id) == Some(items[i].version)
      {
        FirstDecides(items, id, i);
      }
      if !HasKey(items, FrameworkId(), id) { NoKeyNoChange(None, items, FrameworkId(), KeepVersion(), id); }
    }
  }

  /** The catalogue of controls only grows, by the controls of the corpus, and the stamps of other runs stay. */
  lemma CatalogueIsKept(t: Tables, c: Corpus, id: string)
    ensures var u := Stored(t, c);
            && (id in u.controls <==> id in t.controls || exists x :: x in c.controls && x.id == id)
            && (id != c.runId ==> Get(u.scanRuns, id) == Get(t.scanRuns, id))
  {
    hide Upserts;
  }

  lemma {:induction false} FirstDecides(items: seq<Framework>, id: string, i: nat)
    requires IsFirst(items, id, i)
    ensures i < |items|
    ensures Merged(None, items, FrameworkId(), KeepVersion(), id) == Some(items[i].version)
  {
    var n := |items| - 1;
    if i < n {
      assert items[..n][i] == items[i];
      FirstDecides(items[..n], id, i);
    } else {
      forall j | 0 <= j < n ensures FrameworkId()(items[..n][j]) != id { assert items[..n][j] == items[j]; }
      NoKeyNoChange(None, items[..n], FrameworkId(), KeepVersion(), id);
    }
  }
}

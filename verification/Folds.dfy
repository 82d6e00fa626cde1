/** Table updates row by row: what a run of upserts leaves under one key. */
module Folds {
  import opened Wrappers
  import opened Ordering

  function Get<K, V>(m: map<K, V>, k: K): Option<V> {
    if k in m then Some(m[k]) else None
  }

  lemma MapsEqual<K, V>(a: map<K, V>, b: map<K, V>)
    requires forall k :: Get(a, k) == Get(b, k)
    ensures a == b
  {
    assert forall k :: k in a ==> Get(a, k) == Get(b, k);
    assert forall k :: k in b ==> Get(a, k) == Get(b, k);
  }

  /** A table without its rows for which `own` holds. */
  function Without<K, V>(m: map<K, V>, own: (K, V) -> bool): map<K, V> {
    map k | k in m && !own(k, m[k]) :: m[k]
  }

  lemma RemainingRows<K(!new), V>(m: map<K, V>, own: (K, V) -> bool, rest: map<K, V>)
    requires forall k :: k in rest <==> k in m && !own(k, m[k])
    requires forall k :: k in rest ==> rest[k] == m[k]
    ensures rest == Without(m, own)
  {
  }

  /** One upsert per item, in order: the row under the item's key becomes the merge of the old row and the item. */
  function Upserts<K, V, T>(m: map<K, V>, items: seq<T>, key: T -> K, merge: (Option<V>, T) -> V): map<K, V> {
    if |items| == 0 then m
    else
      var before, x := Upserts(m, items[..|items| - 1], key, merge), items[|items| - 1];
      before[key(x) := merge(Get(before, key(x)), x)]
  }

  /** What the upserts leave under key `k`, given what was there. */
  function Merged<K(==), V, T>(prior: Option<V>, items: seq<T>, key: T -> K, merge: (Option<V>, T) -> V, k: K)
    : Option<V>
  {
    if |items| == 0 then prior
    else
      var before, x := Merged(prior, items[..|items| - 1], key, merge, k), items[|items| - 1];
      if key(x) == k then Some(merge(before, x)) else before
  }

  lemma {:induction false} UpsertsGet<K, V, T>(
    m: map<K, V>, items: seq<T>, key: T -> K, merge: (Option<V>, T) -> V, k: K)
    ensures Get(Upserts(m, items, key, merge), k) == Merged(Get(m, k), items, key, merge, k)
  {
    if |items| > 0 {
      UpsertsGet(m, items[..|items| - 1], key, merge, k);
    }
  }

  lemma UpsertsStart<K, V, T>(m: map<K, V>, items: seq<T>, key: T -> K, merge: (Option<V>, T) -> V)
    ensures Upserts(m, items[..0], key, merge) == m
  {
  }

  lemma UpsertsStep<K, V, T>(m: map<K, V>, items: seq<T>, i: nat, key: T -> K, merge: (Option<V>, T) -> V)
    requires i < |items|
    ensures var before := Upserts(m, items[..i], key, merge);
            Upserts(m, items[..i + 1], key, merge)
            == before[key(items[i]) := merge(Get(before, key(items[i])), items[i])]
  {
    assert items[..i + 1][..i] == items[..i];
  }

  predicate HasKey<K(==), T>(items: seq<T>, key: T -> K, k: K) {
    exists i :: 0 <= i < |items| && key(items[i]) == k
  }

  lemma {:induction false} NoKeyNoChange<K, V, T>(
    prior: Option<V>, items: seq<T>, key: T -> K, merge: (Option<V>, T) -> V, k: K)
    requires !HasKey(items, key, k)
    ensures Merged(prior, items, key, merge, k) == prior
  {
    if |items| > 0 {
      var init := items[..|items| - 1];
      forall i | 0 <= i < |init| ensures key(init[i]) != k { assert init[i] == items[i]; }
      NoKeyNoChange(prior, init, key, merge, k);
      assert key(items[|items| - 1]) != k;
    }
  }

  /** Later rows replace earlier ones. */
  ghost predicate LastWins<V(!new), T(!new)>(merge: (Option<V>, T) -> V) {
    forall a, b, x :: merge(a, x) == merge(b, x)
  }

  /** A row that is there stays. */
  ghost predicate FirstWins<V(!new), T(!new)>(merge: (Option<V>, T) -> V) {
    forall v, x :: merge(Some(v), x) == v
  }

  /** When the last row wins, what was there before does not matter under a written key. */
  lemma {:induction false} LastWinsForgets<K, V(!new), T(!new)>(
    a: Option<V>, b: Option<V>, items: seq<T>, key: T -> K, merge: (Option<V>, T) -> V, k: K)
    requires LastWins(merge) && HasKey(items, key, k)
    ensures Merged(a, items, key, merge, k) == Merged(b, items, key, merge, k)
    ensures Merged(a, items, key, merge, k).Some?
  {
    var init := items[..|items| - 1];
    if key(items[|items| - 1]) != k {
      var i :| 0 <= i < |items| && key(items[i]) == k;
      assert init[i] == items[i];
      LastWinsForgets(a, b, init, key, merge, k);
    }
  }

  lemma {:induction false} FirstWinsKeeps<K, V(!new), T(!new)>(
    v: V, items: seq<T>, key: T -> K, merge: (Option<V>, T) -> V, k: K)
    requires FirstWins(merge)
    ensures Merged(Some(v), items, key, merge, k) == Some(v)
  {
    if |items| > 0 { FirstWinsKeeps(v, items[..|items| - 1], key, merge, k); }
  }

  /** Upserting twice is upserting once, whether the first or the last row wins. */
  lemma MergedTwice<K, V(!new), T(!new)>(
    prior: Option<V>, items: seq<T>, key: T -> K, merge: (Option<V>, T) -> V, k: K)
    requires LastWins(merge) || FirstWins(merge)
    ensures var once := Merged(prior, items, key, merge, k); Merged(once, items, key, merge, k) == once
  {
    var once := Merged(prior, items, key, merge, k);
    if !HasKey(items, key, k) {
      NoKeyNoChange(once, items, key, merge, k);
    } else if LastWins(merge) {
      LastWinsForgets(prior, once, items, key, merge, k);
    } else if once.Some? {
      FirstWinsKeeps(once.value, items, key, merge, k);
    } else {
      KeyIsWritten(prior, items, key, merge, k);
    }
  }

  /** Clearing a run's rows and writing them again changes nothing, whatever other rows there are. */
  lemma ClearedUpsertsTwice<K(!new), V(!new), T(!new)>(
    m: map<K, V>, items: seq<T>, key: T -> K, merge: (Option<V>, T) -> V, own: (K, V) -> bool)
    requires LastWins(merge) && forall x, prior :: own(key(x), merge(prior, x))
    ensures var once := Upserts(Without(m, own), items, key, merge);
            Upserts(Without(once, own), items, key, merge) == once
  {
    var once := Upserts(Without(m, own), items, key, merge);
    var twice := Upserts(Without(once, own), items, key, merge);
    forall k ensures Get(twice, k) == Get(once, k) {
      UpsertsGet(Without(m, own), items, key, merge, k);
      UpsertsGet(Without(once, own), items, key, merge, k);
      if HasKey(items, key, k) {
        LastWinsForgets(Get(Without(m, own), k), Get(Without(once, own), k), items, key, merge, k);
      } else {
        NoKeyNoChange(Get(Without(m, own), k), items, key, merge, k);
        NoKeyNoChange(Get(Without(once, own), k), items, key, merge, k);
      }
    }
    MapsEqual(twice, once);
  }

  lemma {:induction false} KeyIsWritten<K, V, T>(
    prior: Option<V>, items: seq<T>, key: T -> K, merge: (Option<V>, T) -> V, k: K)
    requires HasKey(items, key, k)
    ensures Merged(prior, items, key, merge, k).Some?
  {
    var init := items[..|items| - 1];
    if key(items[|items| - 1]) != k {
      var i :| 0 <= i < |items| && key(items[i]) == k;
      assert init[i] == items[i];
      KeyIsWritten(prior, init, key, merge, k);
    }
  }

  /** No two items share a key. */
  ghost predicate Unique<K, T(!new)>(items: seq<T>, key: T -> K) {
    forall i, j :: 0 <= i < j < |items| ==> key(items[i]) != key(items[j])
  }

  /** With unique keys, a key's row is the merge of what was there and its one item. */
  lemma {:induction false} MergedOnce<K, V, T(!new)>(
    prior: Option<V>, items: seq<T>, key: T -> K, merge: (Option<V>, T) -> V, i: nat)
    requires Unique(items, key) && i < |items|
    ensures Merged(prior, items, key, merge, key(items[i])) == Some(merge(prior, items[i]))
  {
    var n := |items| - 1;
    var init := items[..n];
    if i == n {
      forall j | 0 <= j < n ensures key(init[j]) != key(items[i]) { assert init[j] == items[j]; }
      NoKeyNoChange(prior, init, key, merge, key(items[i]));
    } else {
      assert init[i] == items[i];
      MergedOnce(prior, init, key, merge, i);
      assert key(items[n]) != key(items[i]);
    }
  }

  /** With unique keys the order of the items does not matter. */
  lemma MergedPermuted<K, V, T(!new)>(
    prior: Option<V>, a: seq<T>, b: seq<T>, key: T -> K, merge: (Option<V>, T) -> V, k: K)
    requires multiset(a) == multiset(b) && Unique(a, key) && Unique(b, key)
    ensures Merged(prior, a, key, merge, k) == Merged(prior, b, key, merge, k)
  {
    if HasKey(a, key, k) {
      var i :| 0 <= i < |a| && key(a[i]) == k;
      MultisetMember(a, b, i);
      var j :| 0 <= j < |b| && b[j] == a[i];
      MergedOnce(prior, a, key, merge, i);
      MergedOnce(prior, b, key, merge, j);
    } else {
      if HasKey(b, key, k) {
        var j :| 0 <= j < |b| && key(b[j]) == k;
        MultisetMember(b, a, j);
        assert false;
      }
      NoKeyNoChange(prior, a, key, merge, k);
      NoKeyNoChange(prior, b, key, merge, k);
    }
  }

  /** After clearing and writing a run, its rows are those under its items' keys. */
  lemma OwnRows<K(!new), V(!new), T(!new)>(
    m: map<K, V>, items: seq<T>, key: T -> K, merge: (Option<V>, T) -> V, own: (K, V) -> bool, k: K)
    requires LastWins(merge) && forall x, prior :: own(key(x), merge(prior, x))
    ensures var after := Upserts(Without(m, own), items, key, merge);
            (k in after && own(k, after[k])) <==> HasKey(items, key, k)
  {
    hide LastWins;
    var after, prior := Upserts(Without(m, own), items, key, merge), Get(Without(m, own), k);
    UpsertsGet(Without(m, own), items, key, merge, k);
    assert Get(after, k) == Merged(prior, items, key, merge, k);
    if HasKey(items, key, k) {
      LastMerge(prior, items, key, merge, k);
    } else {
      NoKeyNoChange(prior, items, key, merge, k);
    }
  }

  /** The row under a written key is the merge of some item with that key. */
  lemma {:induction false} LastMerge<K, V(!new), T(!new)>(
    prior: Option<V>, items: seq<T>, key: T -> K, merge: (Option<V>, T) -> V, k: K)
    requires HasKey(items, key, k)
    ensures exists i, before ::
              0 <= i < |items| && key(items[i]) == k
              && Merged(prior, items, key, merge, k) == Some(merge(before, items[i]))
  {
    var init, n := items[..|items| - 1], |items| - 1;
    if key(items[n]) == k {
      assert Merged(prior, items, key, merge, k) == Some(merge(Merged(prior, init, key, merge, k), items[n]));
    } else {
      var i :| 0 <= i < |items| && key(items[i]) == k;
      assert init[i] == items[i];
      LastMerge(prior, init, key, merge, k);
      var j, before :| 0 <= j < |init| && key(init[j]) == k
                       && Merged(prior, init, key, merge, k) == Some(merge(before, init[j]));
      assert items[j] == init[j];
    }
  }

  /** With unique keys each item's row is there as written. */
  lemma OwnRow<K(!new), V(!new), T(!new)>(
    m: map<K, V>, items: seq<T>, key: T -> K, merge: (Option<V>, T) -> V, i: nat)
    requires LastWins(merge) && Unique(items, key) && i < |items|
    ensures Get(Upserts(m, items, key, merge), key(items[i])) == Some(merge(None, items[i]))
  {
    UpsertsGet(m, items, key, merge, key(items[i]));
    MergedOnce(Get(m, key(items[i])), items, key, merge, i);
  }

  lemma UniquePermuted<K(!new), T(!new)>(a: seq<T>, b: seq<T>, key: T -> K)
    requires multiset(a) == multiset(b) && Unique(a, key)
    ensures Unique(b, key)
  {
    forall i, j | 0 <= i < j < |b| ensures key(b[i]) != key(b[j]) {
      if key(b[i]) == key(b[j]) {
        MultisetMember(b, a, i);
        MultisetMember(b, a, j);
        var p :| 0 <= p < |a| && a[p] == b[i];
        var q :| 0 <= q < |a| && a[q] == b[j];
        assert p == q;
        TwiceCounted(b, i, j);
        OnceCounted(a, p);
      }
    }
  }

  // ----- rows in order

  /** Distinct items have distinct keys. */
  ghost predicate Separates<T(!new)>(s: set<T>, key: T -> Key) {
    forall x, y :: x in s && y in s && key(x) == key(y) ==> x == y
  }

  predicate IsLeast<T(==)>(s: set<T>, key: T -> Key, x: T) {
    x in s && forall y :: y in s ==> y == x || KeyLess(key(x), key(y))
  }

  lemma {:induction false} LeastExists<T(!new)>(s: set<T>, key: T -> Key)
    requires s != {} && Separates(s, key)
    ensures exists x :: IsLeast(s, key, x)
    decreases |s|
  {
    var y :| y in s;
    if s == {y} {
      assert IsLeast(s, key, y);
    } else {
      var rest := s - {y};
      LeastExists(rest, key);
      var z :| IsLeast(rest, key, z);
      KeyLessTotal(key(y), key(z));
      var x := if KeyLess(key(y), key(z)) then y else z;
      forall w | w in s ensures w == x || KeyLess(key(x), key(w)) {
        if w != y && w != z && x == y { KeyLessTransitive(key(y), key(z), key(w)); }
      }
      assert IsLeast(s, key, x);
    }
  }

  lemma LeastIsUnique<T(!new)>(s: set<T>, key: T -> Key)
    ensures forall x, y :: IsLeast(s, key, x) && IsLeast(s, key, y) ==> x == y
  {
    forall x, y | IsLeast(s, key, x) && IsLeast(s, key, y) ensures x == y {
      if x != y { KeyLessAsymmetric(key(x), key(y)); }
    }
  }

  function Least<T(==, !new)>(s: set<T>, key: T -> Key): (x: T)
    requires s != {} && Separates(s, key)
    ensures IsLeast(s, key, x)
  {
    LeastExists(s, key);
    LeastIsUnique(s, key);
    var x :| x in s && IsLeast(s, key, x);
    x
  }

  /** The items of a set in the order of their keys: the rows an `ORDER BY` on a key of the table yields. */
  function Ordered<T(==, !new)>(s: set<T>, key: T -> Key): (r: seq<T>)
    requires Separates(s, key)
    ensures |r| == |s| && forall x :: x in r <==> x in s
    decreases |s|
  {
    if s == {} then []
    else
      var x := Least(s, key);
      [x] + Ordered(s - {x}, key)
  }

  lemma {:induction false} OrderedIsSorted<T(!new)>(s: set<T>, key: T -> Key)
    requires Separates(s, key)
    ensures Sorted(Ordered(s, key), key) && DistinctKeys(Ordered(s, key), key)
    decreases |s|
  {
    if s != {} {
      var r := Ordered(s, key);
      OrderedIsSorted(s - {r[0]}, key);
      forall j | 1 <= j < |r| ensures KeyLess(key(r[0]), key(r[j])) && !KeyLess(key(r[j]), key(r[0])) {
        assert r[j] in Ordered(s - {r[0]}, key);
        KeyLessAsymmetric(key(r[0]), key(r[j]));
      }
      forall i, j | 0 <= i < j < |r| ensures !KeyLess(key(r[j]), key(r[i])) && key(r[i]) != key(r[j]) {
        if i == 0 { KeyLessIrreflexive(key(r[0])); }
      }
    }
  }

  lemma {:induction false} NoRepeats<T(!new)>(a: seq<T>, b: seq<T>)
    requires forall i, j :: 0 <= i < j < |a| ==> a[i] != a[j]
    requires forall i, j :: 0 <= i < j < |b| ==> b[i] != b[j]
    requires forall x :: x in a <==> x in b
    ensures multiset(a) == multiset(b)
  {
    forall x ensures multiset(a)[x] == multiset(b)[x] {
      if x in a {
        var i :| 0 <= i < |a| && a[i] == x;
        var j :| 0 <= j < |b| && b[j] == x;
        forall q | 0 <= q < |a| && q != i ensures a[q] != x { if q < i { } }
        forall q | 0 <= q < |b| && q != j ensures b[q] != x { if q < j { } }
        OnceCounted(a, i);
        OnceCounted(b, j);
      } else {
        assert x !in multiset(a) && x !in multiset(b);
      }
    }
  }

  /** A sequence with distinct keys, sorted, is its set of items in order. */
  lemma SortedIsOrdered<T(!new)>(items: seq<T>, s: set<T>, key: T -> Key)
    requires DistinctKeys(items, key) && Separates(s, key) && forall x :: x in s <==> x in items
    ensures Ordered(s, key) == Sort(items, key)
  {
    OrderedIsSorted(s, key);
    SortSorts(items, key);
    NoRepeats(Ordered(s, key), items);
    SortedUnique(Ordered(s, key), Sort(items, key), key);
  }

  /** The rows of a set in order are its only ordered listing. */
  lemma OrderedIs<T(!new)>(s: set<T>, key: T -> Key, m: seq<T>)
    requires Sorted(m, key) && DistinctKeys(m, key) && Separates(s, key) && forall x :: x in s <==> x in m
    ensures Ordered(s, key) == m
  {
    OrderedIsSorted(s, key);
    NoRepeats(Ordered(s, key), m);
    SortedUnique(Ordered(s, key), m, key);
  }
}

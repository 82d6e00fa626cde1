/** String order and sorting, shared by the exporter's `sort_by` calls and the database's `ORDER BY`. */
module Ordering {
  /** Strict order of strings by scalar value, which is also their UTF-8 byte order. */
  predicate Less(a: string, b: string) {
    |b| > 0 && (|a| == 0 || a[0] < b[0] || (a[0] == b[0] && Less(a[1..], b[1..])))
  }

  /** A proper prefix comes first; otherwise the first characters that differ decide, by their code points. */
  lemma {:induction false} LessIsLexicographic(a: string, b: string)
    ensures Less(a, b) <==>
            || (|a| < |b| && a == b[..|a|])
            || exists i :: 0 <= i < |a| && i < |b| && a[..i] == b[..i] && a[i] as int < b[i] as int
  {
    if |a| > 0 && |b| > 0 && a[0] == b[0] {
      var c, d := a[1..], b[1..];
      LessIsLexicographic(c, d);
      assert a == [a[0]] + c && b == [b[0]] + d;
      forall i | 0 <= i <= |c| && i <= |d| ensures a[..i + 1] == [a[0]] + c[..i] && b[..i + 1] == [b[0]] + d[..i] {}
      if i :| 0 <= i < |c| && i < |d| && c[..i] == d[..i] && c[i] < d[i] { assert a[i + 1] < b[i + 1]; }
      if i :| 0 <= i < |a| && i < |b| && a[..i] == b[..i] && a[i] < b[i] {
        assert c[..i - 1] == a[..i][1..] && d[..i - 1] == b[..i][1..];
        assert c[i - 1] < d[i - 1];
      }
      if |c| < |d| && c == d[..|c|] { assert a == b[..|a|]; }
      if |a| < |b| && a == b[..|a|] { assert c == d[..|c|]; }
    } else if |a| > 0 && |b| > 0 {
      assert a[..0] == b[..0];
      assert a == a[..|a|];
      forall i | 0 < i <= |a| && i <= |b| ensures a[..i] != b[..i] {
        assert a[..i][0] == a[0] && b[..i][0] == b[0];
      }
    }
  }

  lemma LessIrreflexive(a: string)
    ensures !Less(a, a)
  {
    if |a| > 0 { LessIrreflexive(a[1..]); }
  }

  lemma LessTransitive(a: string, b: string, c: string)
    requires Less(a, b) && Less(b, c)
    ensures Less(a, c)
  {
    if |a| > 0 && a[0] == b[0] == c[0] { LessTransitive(a[1..], b[1..], c[1..]); }
  }

  lemma LessTotal(a: string, b: string)
    ensures a == b || Less(a, b) || Less(b, a)
  {
    if |a| > 0 && |b| > 0 && a[0] == b[0] {
      LessTotal(a[1..], b[1..]);
      assert a == [a[0]] + a[1..] && b == [b[0]] + b[1..];
    }
  }

  /** A sort key: columns compared one after the other; a missing column sorts first. */
  type Key = seq<string>

  predicate KeyLess(a: Key, b: Key) {
    |b| > 0 && (|a| == 0 || Less(a[0], b[0]) || (a[0] == b[0] && KeyLess(a[1..], b[1..])))
  }

  lemma KeyLessIrreflexive(a: Key)
    ensures !KeyLess(a, a)
  {
    if |a| > 0 {
      LessIrreflexive(a[0]);
      KeyLessIrreflexive(a[1..]);
    }
  }

  lemma KeyLessTransitive(a: Key, b: Key, c: Key)
    requires KeyLess(a, b) && KeyLess(b, c)
    ensures KeyLess(a, c)
  {
    if |a| > 0 {
      if Less(a[0], b[0]) && Less(b[0], c[0]) {
        LessTransitive(a[0], b[0], c[0]);
      } else if a[0] == b[0] == c[0] {
        KeyLessTransitive(a[1..], b[1..], c[1..]);
      }
    }
  }

  lemma KeyLessTotal(a: Key, b: Key)
    ensures a == b || KeyLess(a, b) || KeyLess(b, a)
  {
    if |a| > 0 && |b| > 0 {
      LessTotal(a[0], b[0]);
      if a[0] == b[0] {
        KeyLessTotal(a[1..], b[1..]);
        assert a == [a[0]] + a[1..] && b == [b[0]] + b[1..];
      }
    }
  }

  lemma KeyLessAsymmetric(a: Key, b: Key)
    requires KeyLess(a, b)
    ensures !KeyLess(b, a)
  {
    if KeyLess(b, a) {
      KeyLessTransitive(a, b, a);
      KeyLessIrreflexive(a);
    }
  }

  /** `items` is ordered by `key`; equal keys may stand side by side. */
  ghost predicate Sorted<T(!new)>(items: seq<T>, key: T -> Key) {
    forall i, j :: 0 <= i < j < |items| ==> !KeyLess(key(items[j]), key(items[i]))
  }

  ghost predicate DistinctKeys<T(!new)>(items: seq<T>, key: T -> Key) {
    forall i, j :: 0 <= i < j < |items| ==> key(items[i]) != key(items[j])
  }

  /** Puts `x` after every item whose key is not greater than its own. */
  function Insert<T>(items: seq<T>, x: T, key: T -> Key): seq<T> {
    if |items| == 0 then [x]
    else if KeyLess(key(x), key(items[|items| - 1]))
    then Insert(items[..|items| - 1], x, key) + [items[|items| - 1]]
    else items + [x]
  }

  /** Stable sort. */
  function Sort<T>(items: seq<T>, key: T -> Key): seq<T> {
    if |items| == 0 then [] else Insert(Sort(items[..|items| - 1], key), items[|items| - 1], key)
  }

  lemma {:induction false} InsertAdds<T(!new)>(items: seq<T>, x: T, key: T -> Key)
    ensures multiset(Insert(items, x, key)) == multiset(items) + multiset{x}
  {
    if |items| > 0 {
      assert items == items[..|items| - 1] + [items[|items| - 1]];
      InsertAdds(items[..|items| - 1], x, key);
    }
  }

  lemma {:induction false} InsertSorted<T(!new)>(items: seq<T>, x: T, key: T -> Key)
    requires Sorted(items, key)
    ensures Sorted(Insert(items, x, key), key)
  {
    if |items| > 0 {
      var init, last := items[..|items| - 1], items[|items| - 1];
      if KeyLess(key(x), key(last)) {
        KeyLessAsymmetric(key(x), key(last));
        InsertSorted(init, x, key);
        InsertAdds(init, x, key);
        LastIsGreatest(items, x, Insert(init, x, key), key);
      } else {
        forall i | 0 <= i < |items| ensures !KeyLess(key(x), key(items[i])) {
          if KeyLess(key(x), key(items[i])) {
            KeyLessTotal(key(items[i]), key(last));
            if KeyLess(key(items[i]), key(last)) { KeyLessTransitive(key(x), key(items[i]), key(last)); }
          }
        }
      }
    }
  }

  lemma LastIsGreatest<T(!new)>(items: seq<T>, x: T, r: seq<T>, key: T -> Key)
    requires |items| > 0 && Sorted(items, key) && !KeyLess(key(items[|items| - 1]), key(x))
    requires multiset(r) == multiset(items[..|items| - 1]) + multiset{x}
    ensures forall i :: 0 <= i < |r| ==> !KeyLess(key(items[|items| - 1]), key(r[i]))
  {
    forall i | 0 <= i < |r| ensures !KeyLess(key(items[|items| - 1]), key(r[i])) {
      assert r[i] in multiset(r);
      if r[i] != x { assert r[i] in multiset(items[..|items| - 1]); }
    }
  }

  /** Sorting yields an ordered permutation. */
  lemma {:induction false} SortSorts<T(!new)>(items: seq<T>, key: T -> Key)
    ensures multiset(Sort(items, key)) == multiset(items)
    ensures Sorted(Sort(items, key), key)
    ensures |Sort(items, key)| == |items|
  {
    if |items| > 0 {
      var init, last := items[..|items| - 1], items[|items| - 1];
      assert items == init + [last];
      SortSorts(init, key);
      InsertAdds(Sort(init, key), last, key);
      InsertSorted(Sort(init, key), last, key);
    }
    assert |multiset(Sort(items, key))| == |Sort(items, key)|;
    assert |multiset(items)| == |items|;
  }

  /** The items with key `k`, in order. */
  function WithKey<T>(items: seq<T>, key: T -> Key, k: Key): seq<T> {
    if |items| == 0 then []
    else WithKey(items[..|items| - 1], key, k) + if key(items[|items| - 1]) == k then [items[|items| - 1]] else []
  }

  lemma {:induction false} InsertIsStable<T(!new)>(items: seq<T>, x: T, key: T -> Key, k: Key)
    ensures WithKey(Insert(items, x, key), key, k) == WithKey(items, key, k) + if key(x) == k then [x] else []
  {
    if |items| > 0 && KeyLess(key(x), key(items[|items| - 1])) {
      var init, last := items[..|items| - 1], items[|items| - 1];
      KeyLessIrreflexive(key(x));
      InsertIsStable(init, x, key, k);
      assert Insert(items, x, key)[..|Insert(items, x, key)| - 1] == Insert(init, x, key);
    } else {
      assert (items + [x])[..|items|] == items;
    }
  }

  /** Items with equal keys keep the order they came in. */
  lemma {:induction false} SortIsStable<T(!new)>(items: seq<T>, key: T -> Key, k: Key)
    ensures WithKey(Sort(items, key), key, k) == WithKey(items, key, k)
  {
    if |items| > 0 {
      SortIsStable(items[..|items| - 1], key, k);
      InsertIsStable(Sort(items[..|items| - 1], key), items[|items| - 1], key, k);
    }
  }

  lemma MultisetMember<T>(a: seq<T>, b: seq<T>, i: nat)
    requires multiset(a) == multiset(b) && i < |a|
    ensures exists j :: 0 <= j < |b| && b[j] == a[i]
  {
    assert a[i] in multiset(b);
  }

  lemma DistinctPermutation<T(!new)>(a: seq<T>, b: seq<T>, key: T -> Key)
    requires multiset(a) == multiset(b) && DistinctKeys(a, key)
    ensures DistinctKeys(b, key)
  {
    forall i, j | 0 <= i < j < |b| ensures key(b[i]) != key(b[j]) {
      if key(b[i]) == key(b[j]) {
        MultisetMember(b, a, i);
        MultisetMember(b, a, j);
        var p :| 0 <= p < |a| && a[p] == b[i];
        var q :| 0 <= q < |a| && a[q] == b[j];
        assert key(a[p]) == key(a[q]);
        assert p == q;
        var x := b[i];
        assert b[j] == x;
        TwiceCounted(b, i, j);
        OnceCounted(a, p);
      }
    }
  }

  lemma TwiceCounted<T>(b: seq<T>, i: nat, j: nat)
    requires i < j < |b| && b[i] == b[j]
    ensures multiset(b)[b[i]] >= 2
  {
    assert b == b[..j] + b[j..];
    assert multiset(b) == multiset(b[..j]) + multiset(b[j..]);
    assert b[..j][i] == b[i] && b[j..][0] == b[i];
  }

  lemma OnceCounted<T>(a: seq<T>, p: nat)
    requires p < |a| && forall q :: 0 <= q < |a| && q != p ==> a[q] != a[p]
    ensures multiset(a)[a[p]] == 1
  {
    assert a == a[..p] + [a[p]] + a[p + 1..];
    assert multiset(a) == multiset(a[..p]) + multiset{a[p]} + multiset(a[p + 1..]);
    assert a[p] !in a[..p] && a[p] !in a[p + 1..];
  }

  /** Items with one key are the same item. */
  ghost predicate KeysIdentify<T(!new)>(items: seq<T>, key: T -> Key) {
    forall i, j :: 0 <= i < |items| && 0 <= j < |items| && key(items[i]) == key(items[j]) ==> items[i] == items[j]
  }

  /** Two ordered arrangements of the same items start with the same item. */
  lemma SameFirst<T(!new)>(a: seq<T>, b: seq<T>, key: T -> Key)
    requires multiset(a) == multiset(b) && |a| > 0 && |b| > 0
    requires Sorted(a, key) && Sorted(b, key) && KeysIdentify(a, key)
    ensures a[0] == b[0]
  {
    MultisetMember(a, b, 0);
    MultisetMember(b, a, 0);
    var i :| 0 <= i < |b| && b[i] == a[0];
    var j :| 0 <= j < |a| && a[j] == b[0];
    if j > 0 {
      assert !KeyLess(key(a[j]), key(a[0]));
      assert i == 0 || !KeyLess(key(b[i]), key(b[0]));
      KeyLessTotal(key(a[0]), key(b[0]));
    }
  }

  lemma TailPermutation<T>(a: seq<T>, b: seq<T>)
    requires multiset(a) == multiset(b) && |a| > 0 && |b| > 0 && a[0] == b[0]
    ensures multiset(a[1..]) == multiset(b[1..])
  {
    assert a == [a[0]] + a[1..] && b == [b[0]] + b[1..];
    assert multiset(a[1..]) == multiset(a) - multiset{a[0]};
    assert multiset(b[1..]) == multiset(b) - multiset{b[0]};
  }

  /** Where keys identify items there is one ordered arrangement, whatever the sorting algorithm. */
  lemma {:induction false} SortedUnique<T(!new)>(a: seq<T>, b: seq<T>, key: T -> Key)
    requires multiset(a) == multiset(b)
    requires Sorted(a, key) && Sorted(b, key) && KeysIdentify(a, key)
    ensures a == b
  {
    assert |b| == |multiset(b)| == |multiset(a)| == |a|;
    if |a| > 0 {
      SameFirst(a, b, key);
      TailPermutation(a, b);
      SortedUnique(a[1..], b[1..], key);
      assert a == [a[0]] + a[1..] && b == [b[0]] + b[1..];
    }
  }

  lemma IdentifyPermutation<T(!new)>(a: seq<T>, b: seq<T>, key: T -> Key)
    requires multiset(a) == multiset(b) && KeysIdentify(a, key)
    ensures KeysIdentify(b, key)
  {
    forall i, j | 0 <= i < |b| && 0 <= j < |b| && key(b[i]) == key(b[j]) ensures b[i] == b[j] {
      MultisetMember(b, a, i);
      MultisetMember(b, a, j);
    }
  }

  /** Sorting forgets the order its input came in, when keys identify items. */
  lemma SortForgetsOrder<T(!new)>(a: seq<T>, b: seq<T>, key: T -> Key)
    requires multiset(a) == multiset(b) && KeysIdentify(a, key)
    ensures Sort(a, key) == Sort(b, key)
  {
    SortSorts(a, key);
    SortSorts(b, key);
    IdentifyPermutation(a, Sort(a, key), key);
    SortedUnique(Sort(a, key), Sort(b, key), key);
  }

  /** Sorting forgets the order its input came in, when keys are distinct. */
  lemma SortPermutation<T(!new)>(a: seq<T>, b: seq<T>, key: T -> Key)
    requires multiset(a) == multiset(b) && DistinctKeys(a, key)
    ensures Sort(a, key) == Sort(b, key)
  {
    SortForgetsOrder(a, b, key);
  }

  lemma {:induction false} WithKeyConcat<T>(a: seq<T>, b: seq<T>, key: T -> Key, k: Key)
    ensures WithKey(a + b, key, k) == WithKey(a, key, k) + WithKey(b, key, k)
    decreases |b|
  {
    if |b| == 0 {
      assert a + b == a;
    } else {
      assert (a + b)[..|a + b| - 1] == a + b[..|b| - 1];
      WithKeyConcat(a, b[..|b| - 1], key, k);
    }
  }

  /** Where an item stands among those with its key. */
  lemma WithKeyAt<T>(items: seq<T>, i: nat, key: T -> Key)
    requires i < |items|
    ensures var k := key(items[i]);
            var p := |WithKey(items[..i], key, k)|;
            p < |WithKey(items, key, k)| && WithKey(items, key, k)[p] == items[i]
  {
    var k := key(items[i]);
    assert items == items[..i] + ([items[i]] + items[i + 1..]);
    WithKeyConcat(items[..i], [items[i]] + items[i + 1..], key, k);
    WithKeyConcat([items[i]], items[i + 1..], key, k);
    assert [items[i]][..0] == [];
    assert WithKey([items[i]], key, k) == [items[i]];
  }

  /** With two different items of one key, another arrangement of the same items sorts differently. */
  lemma TiesShow<T(!new)>(items: seq<T>, key: T -> Key, i: nat, j: nat) returns (other: seq<T>)
    requires i < j < |items| && key(items[i]) == key(items[j]) && items[i] != items[j]
    ensures multiset(other) == multiset(items) && Sort(other, key) != Sort(items, key)
  {
    other := items[i := items[j]][j := items[i]];
    var k := key(items[i]);
    assert other[..i] == items[..i] && other[i] == items[j];
    WithKeyAt(items, i, key);
    WithKeyAt(other, i, key);
    SortIsStable(items, key, k);
    SortIsStable(other, key, k);
  }

  /** The order of the input never shows after sorting exactly when items with one key are the same item. */
  lemma OrderForgottenExactly<T(!new)>(items: seq<T>, key: T -> Key)
    ensures (forall other :: multiset(other) == multiset(items) ==> Sort(other, key) == Sort(items, key))
       <==> KeysIdentify(items, key)
  {
    if KeysIdentify(items, key) {
      forall other | multiset(other) == multiset(items) ensures Sort(other, key) == Sort(items, key) {
        SortForgetsOrder(items, other, key);
      }
    } else {
      var i, j :| 0 <= i < |items| && 0 <= j < |items| && key(items[i]) == key(items[j]) && items[i] != items[j];
      if i < j { var other := TiesShow(items, key, i, j); } else { var other := TiesShow(items, key, j, i); }
    }
  }
}

/** Generic building blocks shared by the chart preludes: grouping in
    first-occurrence order (what d3.rollup/d3.rollups/d3.groups yield), sums
    over a group, distinct counts, dictionary fills and index lookups. */
module Collections {

  datatype Option<T> = None | Some(value: T)

  /** Reading `obj[key]` from a JS object: None (undefined) for a missing key. */
  function Lookup<K, V>(obj: map<K, V>, key: K): (v: Option<V>)
    ensures v.Some? <==> key in obj
    ensures v.Some? ==> v.value == obj[key]
  {
    if key in obj then Some(obj[key]) else None
  }

  /** No value occurs twice. */
  predicate Distinct<T(==)>(s: seq<T>) {
    forall i, j | 0 <= i < j < |s| :: s[i] != s[j]
  }

  function Min(a: int, b: int): int {
    if a < b then a else b
  }

  /** The group of key value `k`: the elements of `s` whose key is `k`, in their order in `s`. */
  function Group<T, K(==, !new)>(s: seq<T>, key: T -> K, k: K): (g: seq<T>)
    ensures |g| <= |s|
    ensures forall x | x in g :: x in s && key(x) == k
    ensures forall i | 0 <= i < |s| && key(s[i]) == k :: s[i] in g
    decreases |s|
  {
    if s == [] then []
    else
      var g := Group(s[..|s| - 1], key, k);
      assert forall i | 0 <= i < |s| - 1 :: s[..|s| - 1][i] == s[i];
      g + (if key(s[|s| - 1]) == k then [s[|s| - 1]] else [])
  }

  /** The distinct keys of `s`, each where it first occurs: the order in which
      d3's internal map receives them. */
  function Keys<T, K(==, !new)>(s: seq<T>, key: T -> K): (ks: seq<K>)
    ensures Distinct(ks)
    ensures forall k :: k in ks <==> Group(s, key, k) != []
    decreases |s|
  {
    if s == [] then []
    else
      var ks := Keys(s[..|s| - 1], key);
      var k := key(s[|s| - 1]);
      assert forall k' :: Group(s, key, k') == Group(s[..|s| - 1], key, k') + (if k == k' then [s[|s| - 1]] else []);
      if k in ks then ks else ks + [k]
  }

  /** The rows of a rollup over the key values `ks`: each key with the reduction of its group. */
  function RollupOver<T, K(==, !new), V>(s: seq<T>, key: T -> K, reduce: seq<T> -> V, ks: seq<K>): (r: seq<(K, V)>)
    ensures |r| == |ks|
    ensures forall i | 0 <= i < |ks| :: r[i] == (ks[i], reduce(Group(s, key, ks[i])))
    decreases |ks|
  {
    if ks == [] then []
    else RollupOver(s, key, reduce, ks[..|ks| - 1]) + [(ks[|ks| - 1], reduce(Group(s, key, ks[|ks| - 1])))]
  }

  /** d3.rollups with one key function: one row per distinct key, in order of
      first occurrence, holding the reduction of that key's group. Nested
      rollups over several keys are a reducer that rolls up again. */
  function Rollups<T, K(==, !new), V>(s: seq<T>, key: T -> K, reduce: seq<T> -> V): (r: seq<(K, V)>)
    ensures |r| == |Keys(s, key)|
    ensures forall i | 0 <= i < |r| :: r[i].0 == Keys(s, key)[i] && r[i].1 == reduce(Group(s, key, r[i].0))
  {
    RollupOver(s, key, reduce, Keys(s, key))
  }

  /** The rows of a rollup: no key twice, no empty group, and every element's key present. */
  lemma RollupsRows<T, K(!new), V>(s: seq<T>, key: T -> K, reduce: seq<T> -> V)
    ensures forall i, j | 0 <= i < j < |Rollups(s, key, reduce)| :: Rollups(s, key, reduce)[i].0 != Rollups(s, key, reduce)[j].0
    ensures forall i | 0 <= i < |Rollups(s, key, reduce)| :: Group(s, key, Rollups(s, key, reduce)[i].0) != []
    ensures forall x | x in s :: exists i | 0 <= i < |Rollups(s, key, reduce)| :: Rollups(s, key, reduce)[i].0 == key(x)
  {
    var ks := Keys(s, key);
    var r := Rollups(s, key, reduce);
    forall i | 0 <= i < |r|
      ensures Group(s, key, r[i].0) != []
    {
      assert r[i].0 in ks;
    }
    forall x | x in s
      ensures exists i | 0 <= i < |r| :: r[i].0 == key(x)
    {
      assert x in Group(s, key, key(x));
      var i :| 0 <= i < |ks| && ks[i] == key(x);
      assert r[i].0 == key(x);
    }
  }

  /** Index lemma for a key: the row of a key that occurs in the input. */
  lemma RowOfKey<T, K(!new), V>(s: seq<T>, key: T -> K, reduce: seq<T> -> V, k: K) returns (i: nat)
    requires Group(s, key, k) != []
    ensures i < |Rollups(s, key, reduce)| && Rollups(s, key, reduce)[i] == (k, reduce(Group(s, key, k)))
  {
    var ks := Keys(s, key);
    assert k in ks;
    i :| 0 <= i < |ks| && ks[i] == k;
  }

  /** Keys of a prefix are a prefix of the keys: the order is that of first occurrence. */
  lemma {:induction false} KeysPrefix<T, K(!new)>(s: seq<T>, key: T -> K, n: nat)
    requires n <= |s|
    ensures Keys(s[..n], key) <= Keys(s, key)
    decreases |s| - n
  {
    if n < |s| {
      KeysPrefix(s[..|s| - 1], key, n);
      assert s[..|s| - 1][..n] == s[..n];
    } else {
      assert s[..n] == s;
    }
  }

  /** The first key is the key of the first element. */
  lemma KeysFirst<T, K(!new)>(s: seq<T>, key: T -> K)
    requires s != []
    ensures Keys(s, key) != [] && Keys(s, key)[0] == key(s[0])
  {
    KeysPrefix(s, key, 1);
    assert s[..1][..0] == [];
  }

  /** A group is non-empty exactly when some element has that key. */
  lemma GroupNonEmpty<T, K(!new)>(s: seq<T>, key: T -> K, k: K)
    ensures Group(s, key, k) != [] <==> exists i | 0 <= i < |s| :: key(s[i]) == k
  {
    if Group(s, key, k) != [] {
      var x := Group(s, key, k)[0];
      assert x in Group(s, key, k);
    }
  }

  /** The first element of a key's group is the first element of `s` with that key. */
  lemma {:induction false} GroupHead<T, K(!new)>(s: seq<T>, key: T -> K)
    requires s != []
    ensures Group(s, key, key(s[0])) != [] && Group(s, key, key(s[0]))[0] == s[0]
    decreases |s|
  {
    if |s| > 1 {
      var p := s[..|s| - 1];
      GroupHead(p, key);
      assert p[0] == s[0];
    }
  }

  /** A non-empty input has a first row, keyed by its first element. */
  lemma RollupsHead<T, K(!new), V>(s: seq<T>, key: T -> K, reduce: seq<T> -> V)
    requires s != []
    ensures Rollups(s, key, reduce) != []
    ensures Rollups(s, key, reduce)[0] == (key(s[0]), reduce(Group(s, key, key(s[0]))))
  {
    KeysFirst(s, key);
  }

  /** Appending an element extends its key's group and leaves the other groups alone. */
  lemma GroupSnoc<T, K(!new)>(p: seq<T>, x: T, key: T -> K, k: K)
    ensures key(x) == k ==> Group(p + [x], key, k) == Group(p, key, k) + [x]
    ensures key(x) != k ==> Group(p + [x], key, k) == Group(p, key, k)
  {
    assert (p + [x])[..|p + [x]| - 1] == p;
    assert Group(p, key, k) + [] == Group(p, key, k);
  }

  /** Appending an element adds its key at the end, unless the key is already present. */
  lemma KeysSnoc<T, K(!new)>(p: seq<T>, x: T, key: T -> K)
    ensures key(x) in Keys(p, key) ==> Keys(p + [x], key) == Keys(p, key)
    ensures key(x) !in Keys(p, key) ==> Keys(p + [x], key) == Keys(p, key) + [key(x)]
  {
    assert (p + [x])[..|p + [x]| - 1] == p;
  }

  /** The group in a prefix of the input is a prefix of the group. */
  lemma {:induction false} GroupPrefix<T, K(!new)>(s: seq<T>, key: T -> K, k: K, n: nat)
    requires n <= |s|
    ensures Group(s[..n], key, k) <= Group(s, key, k)
    decreases |s| - n
  {
    if n < |s| {
      GroupPrefix(s[..|s| - 1], key, k, n);
      assert s[..|s| - 1][..n] == s[..n];
    } else {
      assert s[..n] == s;
    }
  }

  /** The position of the first element of `s` whose key is `k`. */
  function FirstIndex<T, K(==)>(s: seq<T>, key: T -> K, k: K): (i: nat)
    requires exists j | 0 <= j < |s| :: key(s[j]) == k
    ensures i < |s| && key(s[i]) == k
    ensures forall j | 0 <= j < i :: key(s[j]) != k
    decreases |s|
  {
    if key(s[0]) == k then 0
    else
      var j :| 0 <= j < |s| && key(s[j]) == k;
      assert key(s[1..][j - 1]) == k;
      1 + FirstIndex(s[1..], key, k)
  }

  /** No element with key `k` means an empty group. */
  lemma GroupEmpty<T, K(!new)>(p: seq<T>, key: T -> K, k: K)
    requires forall j | 0 <= j < |p| :: key(p[j]) != k
    ensures Group(p, key, k) == []
  {
    GroupNonEmpty(p, key, k);
  }

  /** Up to the first element with key `k`, the group of `k` is that element alone. */
  lemma GroupUpToFirst<T, K(!new)>(s: seq<T>, key: T -> K, k: K, i: nat)
    requires i < |s| && key(s[i]) == k
    requires forall j | 0 <= j < i :: key(s[j]) != k
    ensures Group(s[..i + 1], key, k) == [s[i]]
  {
    var p := s[..i];
    GroupEmpty(p, key, k);
    GroupSnoc(p, s[i], key, k);
    assert s[..i + 1] == p + [s[i]];
  }

  /** The group of a key starts at the key's first position. */
  lemma GroupStartsAt<T, K(!new)>(s: seq<T>, key: T -> K, k: K, i: nat)
    requires i < |s| && key(s[i]) == k
    requires forall j | 0 <= j < i :: key(s[j]) != k
    ensures Group(s, key, k) != [] && Group(s, key, k)[0] == s[i]
  {
    GroupUpToFirst(s, key, k, i);
    GroupPrefix(s, key, k, i + 1);
    var g := Group(s, key, k);
    assert [s[i]] <= g;
    assert g[0] == [s[i]][0];
  }

  /** A group starts with the first element that has its key. */
  lemma GroupFirst<T, K(!new)>(s: seq<T>, key: T -> K, k: K)
    requires Group(s, key, k) != []
    ensures exists j | 0 <= j < |s| :: key(s[j]) == k
    ensures Group(s, key, k)[0] == s[FirstIndex(s, key, k)]
  {
    var x := Group(s, key, k)[0];
    assert x in Group(s, key, k);
    var j :| 0 <= j < |s| && s[j] == x;
    assert key(s[j]) == k;
    GroupStartsAt(s, key, k, FirstIndex(s, key, k));
  }

  /** The first position of a key depends only on the keys. */
  lemma {:induction false} FirstIndexSameKeys<T, K(!new)>(s: seq<T>, s': seq<T>, key: T -> K, k: K)
    requires |s| == |s'| && forall j | 0 <= j < |s| :: key(s[j]) == key(s'[j])
    requires exists j | 0 <= j < |s| :: key(s[j]) == k
    ensures exists j | 0 <= j < |s'| :: key(s'[j]) == k
    ensures FirstIndex(s, key, k) == FirstIndex(s', key, k)
    decreases |s|
  {
    var j :| 0 <= j < |s| && key(s[j]) == k;
    assert key(s'[j]) == k;
    if key(s[0]) != k {
      assert key(s[1..][j - 1]) == k;
      FirstIndexSameKeys(s[1..], s'[1..], key, k);
    }
  }

  /** Grouping looks only at the keys: inputs with the same keys at the same places have the same key order. */
  lemma {:induction false} KeysSameKeys<T, K(!new)>(s: seq<T>, s': seq<T>, key: T -> K)
    requires |s| == |s'| && forall j | 0 <= j < |s| :: key(s[j]) == key(s'[j])
    ensures Keys(s, key) == Keys(s', key)
    decreases |s|
  {
    if s != [] {
      KeysSameKeys(s[..|s| - 1], s'[..|s| - 1], key);
    }
  }

  /** Sum of `f` over a sequence (d3.sum over integers). */
  function SumOf<T>(s: seq<T>, f: T -> int): int
    decreases |s|
  {
    if s == [] then 0 else SumOf(s[..|s| - 1], f) + f(s[|s| - 1])
  }

  lemma SumOfSnoc<T>(p: seq<T>, x: T, f: T -> int)
    ensures SumOf(p + [x], f) == SumOf(p, f) + f(x)
  {
    assert (p + [x])[..|p|] == p;
  }

  lemma {:induction false} SumOfAppend<T>(a: seq<T>, b: seq<T>, f: T -> int)
    ensures SumOf(a + b, f) == SumOf(a, f) + SumOf(b, f)
    decreases |b|
  {
    if b != [] {
      SumOfAppend(a, b[..|b| - 1], f);
      assert (a + b)[..|a + b| - 1] == a + b[..|b| - 1];
    } else {
      assert a + b == a;
    }
  }

  /** Reordering does not change a sum. */
  lemma {:induction false} SumOfPermutation<T>(a: seq<T>, b: seq<T>, f: T -> int)
    requires multiset(a) == multiset(b)
    ensures SumOf(a, f) == SumOf(b, f)
    decreases |a|
  {
    if a != [] {
      var p, x := a[..|a| - 1], a[|a| - 1];
      assert a == p + [x];
      assert x in multiset(b);
      var k :| 0 <= k < |b| && b[k] == x;
      var b1, b2 := b[..k], b[k + 1..];
      assert b == b1 + [x] + b2;
      assert multiset(b) == multiset(b1) + multiset{x} + multiset(b2);
      assert multiset(a) == multiset(p) + multiset{x};
      assert multiset(b1 + b2) == multiset(b1) + multiset(b2);
      assert multiset(p) + multiset{x} == multiset(b1 + b2) + multiset{x};
      assert multiset(p) == multiset(p) + multiset{x} - multiset{x};
      assert multiset(b1 + b2) == multiset(b1 + b2) + multiset{x} - multiset{x};
      SumOfPermutation(p, b1 + b2, f);
      SumOfAppend(b1, b2, f);
      SumOfAppend(b1 + [x], b2, f);
      SumOfSnoc(b1, x, f);
    }
  }

  /** Sum over the groups of the keys `ks`, each group summed separately. */
  function GroupTotals<T, K(==, !new)>(s: seq<T>, key: T -> K, f: T -> int, ks: seq<K>): int
    decreases |ks|
  {
    if ks == [] then 0
    else GroupTotals(s, key, f, ks[..|ks| - 1]) + SumOf(Group(s, key, ks[|ks| - 1]), f)
  }

  lemma {:induction false} GroupTotalsSnoc<T, K(!new)>(p: seq<T>, x: T, key: T -> K, f: T -> int, ks: seq<K>)
    requires Distinct(ks)
    ensures GroupTotals(p + [x], key, f, ks) == GroupTotals(p, key, f, ks) + (if key(x) in ks then f(x) else 0)
    decreases |ks|
  {
    if ks != [] {
      var ks', k := ks[..|ks| - 1], ks[|ks| - 1];
      assert ks == ks' + [k];
      GroupTotalsSnoc(p, x, key, f, ks');
      assert (p + [x])[..|p + [x]| - 1] == p;
      var extra: seq<T> := if key(x) == k then [x] else [];
      assert Group(p + [x], key, k) == Group(p, key, k) + extra;
      SumOfAppend(Group(p, key, k), extra, f);
      assert SumOf([x], f) == f(x) by { assert [x][..0] == []; }
      assert key(x) in ks <==> key(x) in ks' || key(x) == k;
      assert k !in ks';
    }
  }

  /** Partition law: the groups of all keys split the sum of the whole sequence. */
  lemma {:induction false} GroupTotalsPartition<T, K(!new)>(s: seq<T>, key: T -> K, f: T -> int)
    ensures GroupTotals(s, key, f, Keys(s, key)) == SumOf(s, f)
    decreases |s|
  {
    if s != [] {
      GroupTotalsPartition(s[..|s| - 1], key, f);
      GroupTotalsLast(s, key, f);
    }
  }

  /** One step of the partition law: the last element adds its value to the group totals. */
  lemma GroupTotalsLast<T, K(!new)>(s: seq<T>, key: T -> K, f: T -> int)
    requires s != []
    ensures GroupTotals(s, key, f, Keys(s, key))
      == GroupTotals(s[..|s| - 1], key, f, Keys(s[..|s| - 1], key)) + f(s[|s| - 1])
  {
    var p, x := s[..|s| - 1], s[|s| - 1];
    assert s == p + [x];
    var ks := Keys(p, key);
    GroupTotalsSnoc(p, x, key, f, ks);
    KeysSnoc(p, x, key);
    if key(x) !in ks {
      GroupTotalsNewKey(p, x, key, f);
    }
  }

  /** The case of a key not seen before: its group is the new element alone. */
  lemma GroupTotalsNewKey<T, K(!new)>(p: seq<T>, x: T, key: T -> K, f: T -> int)
    requires key(x) !in Keys(p, key)
    ensures GroupTotals(p + [x], key, f, Keys(p, key) + [key(x)])
      == GroupTotals(p + [x], key, f, Keys(p, key)) + f(x)
  {
    var ks, k := Keys(p, key), key(x);
    GroupTotalsAppendKey(p + [x], key, f, ks, k);
    GroupSnoc(p, x, key, k);
    assert Group(p, key, k) == [];
    SumOfSingle(x, f);
  }

  lemma GroupTotalsAppendKey<T, K(!new)>(s: seq<T>, key: T -> K, f: T -> int, ks: seq<K>, k: K)
    ensures GroupTotals(s, key, f, ks + [k]) == GroupTotals(s, key, f, ks) + SumOf(Group(s, key, k), f)
  {
    assert (ks + [k])[..|ks|] == ks;
  }

  lemma SumOfSingle<T>(x: T, f: T -> int)
    ensures SumOf([x], f) == f(x)
  {
    assert [x][..0] == [];
  }

  /** Rows whose values are the sums of the groups of `ks` add up to the group totals. */
  lemma {:induction false} RowsMatchGroupTotals<T, K(!new), R>(s: seq<T>, key: T -> K, f: T -> int, ks: seq<K>, rows: seq<R>, value: R -> int)
    requires |rows| == |ks|
    requires forall i | 0 <= i < |ks| :: value(rows[i]) == SumOf(Group(s, key, ks[i]), f)
    ensures SumOf(rows, value) == GroupTotals(s, key, f, ks)
    decreases |ks|
  {
    if ks != [] {
      RowsMatchGroupTotals(s, key, f, ks[..|ks| - 1], rows[..|rows| - 1], value);
    }
  }

  /** The set of values of `f` over a sequence (a JS Set built from a mapped array). */
  function Image<T(==), K>(s: seq<T>, f: T -> K): set<K> {
    set x | x in s :: f(x)
  }

  /** Two keyings that agree on which elements are alike have equally many distinct values. */
  lemma {:induction false} ImageCardSame<T, K, L>(s: seq<T>, f: T -> K, g: T -> L)
    requires forall x, y | x in s && y in s :: f(x) == f(y) <==> g(x) == g(y)
    ensures |Image(s, f)| == |Image(s, g)|
    decreases |s|
  {
    if s != [] {
      var p, x := s[..|s| - 1], s[|s| - 1];
      assert s == p + [x];
      ImageCardSame(p, f, g);
      assert Image(s, f) == Image(p, f) + {f(x)};
      assert Image(s, g) == Image(p, g) + {g(x)};
      if f(x) in Image(p, f) {
        var y :| y in p && f(y) == f(x);
        assert g(x) in Image(p, g);
      }
      if g(x) in Image(p, g) {
        var y :| y in p && g(y) == g(x);
        assert f(x) in Image(p, f);
      }
      if f(x) in Image(p, f) {
        assert Image(s, f) == Image(p, f) && Image(s, g) == Image(p, g);
      } else {
        assert |Image(s, f)| == |Image(p, f)| + 1 && |Image(s, g)| == |Image(p, g)| + 1;
      }
    }
  }

  /** A map's size after a group-by: as many keys as distinct key values. */
  lemma KeysCount<T, K(!new)>(s: seq<T>, key: T -> K)
    ensures |Keys(s, key)| == |Image(s, key)|
  {
    var ks := Keys(s, key);
    DistinctCard(ks);
    forall k
      ensures k in ks <==> k in Image(s, key)
    {
      GroupNonEmpty(s, key, k);
    }
    assert (set k | k in ks) == Image(s, key);
  }

  lemma {:induction false} SubsetCard<K>(a: set<K>, b: set<K>)
    requires a <= b
    ensures |a| <= |b|
    decreases |a|
  {
    if a != {} {
      var x :| x in a;
      SubsetCard(a - {x}, b - {x});
    }
  }

  /** A subset as large as its superset is the whole superset. */
  lemma SubsetSameCard<K>(a: set<K>, b: set<K>)
    requires a <= b && |a| == |b|
    ensures a == b
  {
    if b - a != {} {
      var y :| y in b - a;
      SubsetCard(a, b - {y});
    }
  }

  /** A subsequence's distinct values are among the whole sequence's, so there are no more of them. */
  lemma ImageOfSubset<T, K>(g: seq<T>, s: seq<T>, f: T -> K)
    requires forall x | x in g :: x in s
    ensures Image(g, f) <= Image(s, f) && |Image(g, f)| <= |Image(s, f)|
  {
    SubsetCard(Image(g, f), Image(s, f));
  }

  /** A non-empty sequence has at least one distinct value. */
  lemma ImageNonEmpty<T, K>(s: seq<T>, f: T -> K)
    requires s != []
    ensures |Image(s, f)| >= 1
  {
    assert f(s[0]) in Image(s, f);
  }

  lemma {:induction false} DistinctCard<K>(ks: seq<K>)
    requires Distinct(ks)
    ensures |set k | k in ks| == |ks|
    decreases |ks|
  {
    if ks != [] {
      var p := ks[..|ks| - 1];
      DistinctCard(p);
      assert (set k | k in ks) == (set k | k in p) + {ks[|ks| - 1]};
    }
  }

  /** There are no more distinct values than elements. */
  lemma {:induction false} ImageCardBound<T, K>(s: seq<T>, f: T -> K)
    ensures |Image(s, f)| <= |s|
    decreases |s|
  {
    if s != [] {
      var p := s[..|s| - 1];
      ImageCardBound(p, f);
      assert s == p + [s[|s| - 1]];
      assert Image(s, f) == Image(p, f) + {f(s[|s| - 1])};
    }
  }

  /** A value occurs at most once in a sequence without repetitions. */
  lemma {:induction false} CountAtMostOne<T>(a: seq<T>, x: T)
    requires Distinct(a)
    ensures multiset(a)[x] <= 1
    decreases |a|
  {
    if a != [] {
      var p := a[..|a| - 1];
      CountAtMostOne(p, x);
      assert a == p + [a[|a| - 1]];
      assert a[|a| - 1] == x ==> x !in p;
    }
  }

  /** A value at two positions occurs at least twice. */
  lemma CountTwoPositions<T>(b: seq<T>, i: nat, j: nat)
    requires i < j < |b|
    ensures b[i] == b[j] ==> multiset(b)[b[i]] >= 2
  {
    if b[i] == b[j] {
      assert b == b[..j] + [b[j]] + b[j + 1..];
      assert b[i] in multiset(b[..j]);
    }
  }

  /** Reordering rows whose keys are pairwise different keeps the keys pairwise different. */
  lemma PermutationKeepsDistinctKeys<T, K>(a: seq<T>, b: seq<T>, proj: T -> K)
    requires multiset(a) == multiset(b)
    requires forall i, j | 0 <= i < j < |a| :: proj(a[i]) != proj(a[j])
    ensures forall i, j | 0 <= i < j < |b| :: proj(b[i]) != proj(b[j])
  {
    assert Distinct(a);
    forall i, j | 0 <= i < j < |b|
      ensures proj(b[i]) != proj(b[j])
    {
      assert b[i] in multiset(b) && b[j] in multiset(b);
      var p :| 0 <= p < |a| && a[p] == b[i];
      var q :| 0 <= q < |a| && a[q] == b[j];
      CountAtMostOne(a, b[i]);
      CountTwoPositions(b, i, j);
      assert b[i] != b[j];
      assert p != q;
    }
  }

  lemma AppendAssoc<T>(a: seq<T>, b: seq<T>, c: seq<T>)
    ensures (a + b) + c == a + (b + c)
  {
  }

  /** No two positions of `s` share a projection. */
  predicate DistinctBy<T, K(==)>(s: seq<T>, proj: T -> K) {
    forall i, j | 0 <= i < j < |s| :: proj(s[i]) != proj(s[j])
  }

  /** Two sequences without repeated projections and with no projection in common join into one. */
  lemma DistinctByAppend<T, K>(a: seq<T>, b: seq<T>, proj: T -> K)
    requires DistinctBy(a, proj) && DistinctBy(b, proj)
    requires forall x, y | x in a && y in b :: proj(x) != proj(y)
    ensures DistinctBy(a + b, proj)
  {
    var s := a + b;
    forall i, j | 0 <= i < j < |s|
      ensures proj(s[i]) != proj(s[j])
    {
      if j < |a| {
        assert s[i] == a[i] && s[j] == a[j];
      } else if |a| <= i {
        assert s[i] == b[i - |a|] && s[j] == b[j - |a|];
      } else {
        assert s[i] == a[i] && s[j] == b[j - |a|];
        assert a[i] in a && b[j - |a|] in b;
      }
    }
  }

  /** A group of a sequence without repeated projections has none either. */
  lemma {:induction false} GroupKeepsDistinctBy<T, K(!new), L>(s: seq<T>, key: T -> K, k: K, proj: T -> L)
    requires DistinctBy(s, proj)
    ensures DistinctBy(Group(s, key, k), proj)
    decreases |s|
  {
    if s != [] {
      var p, x := s[..|s| - 1], s[|s| - 1];
      assert DistinctBy(p, proj);
      GroupKeepsDistinctBy(p, key, k, proj);
      if key(x) == k {
        forall y, z | y in Group(p, key, k) && z in [x]
          ensures proj(y) != proj(z)
        {
          var i :| 0 <= i < |p| && p[i] == y;
          assert s[i] == y;
        }
        DistinctByAppend(Group(p, key, k), [x], proj);
      }
    }
  }

  /** Array.prototype.filter: the elements that pass the test, in their order. */
  function Filter<T>(s: seq<T>, keep: T -> bool): (r: seq<T>)
    ensures |r| <= |s|
    ensures forall x | x in r :: x in s && keep(x)
    ensures forall x | x in s && keep(x) :: x in r
    decreases |s|
  {
    if s == [] then []
    else
      assert forall x | x in s[1..] :: x in s;
      (if keep(s[0]) then [s[0]] else []) + Filter(s[1..], keep)
  }

  /** Every element that passes the test is kept as often as it occurs, and no other is kept. */
  lemma {:induction false} FilterCounts<T>(s: seq<T>, keep: T -> bool)
    ensures forall x :: multiset(Filter(s, keep))[x] == if keep(x) then multiset(s)[x] else 0
    decreases |s|
  {
    if s != [] {
      FilterCounts(s[1..], keep);
      assert s == [s[0]] + s[1..];
      assert multiset(s) == multiset([s[0]]) + multiset(s[1..]);
      var head := if keep(s[0]) then [s[0]] else [];
      assert multiset(Filter(s, keep)) == multiset(head) + multiset(Filter(s[1..], keep));
    }
  }

  /** When every element passes the test the filter keeps them all, and when none does it keeps nothing. */
  lemma {:induction false} FilterAllOrNone<T>(s: seq<T>, keep: T -> bool)
    ensures (forall x | x in s :: keep(x)) ==> Filter(s, keep) == s
    ensures (forall x | x in s :: !keep(x)) ==> Filter(s, keep) == []
    decreases |s|
  {
    if s != [] {
      assert forall x | x in s[1..] :: x in s;
      FilterAllOrNone(s[1..], keep);
      assert s == [s[0]] + s[1..];
    }
  }

  /** Filtering keeps the order: the filter of a concatenation is the concatenation of the filters. */
  lemma {:induction false} FilterAppend<T>(s: seq<T>, t: seq<T>, keep: T -> bool)
    ensures Filter(s + t, keep) == Filter(s, keep) + Filter(t, keep)
    decreases |s|
  {
    if s == [] {
      assert s + t == t;
    } else {
      assert (s + t)[0] == s[0];
      assert (s + t)[1..] == s[1..] + t;
      FilterAppend(s[1..], t, keep);
    }
  }

  /** Filtering keeps keys distinct. */
  lemma {:induction false} FilterKeepsDistinctKeys<T, K>(s: seq<T>, keep: T -> bool, proj: T -> K)
    requires forall i, j | 0 <= i < j < |s| :: proj(s[i]) != proj(s[j])
    ensures forall i, j | 0 <= i < j < |Filter(s, keep)| :: proj(Filter(s, keep)[i]) != proj(Filter(s, keep)[j])
    decreases |s|
  {
    if s != [] {
      var u := s[1..];
      forall i, j | 0 <= i < j < |u|
        ensures proj(u[i]) != proj(u[j])
      {
        assert u[i] == s[i + 1] && u[j] == s[j + 1];
      }
      FilterKeepsDistinctKeys(u, keep, proj);
      var f := Filter(u, keep);
      forall y | y in f
        ensures proj(y) != proj(s[0])
      {
        var j :| 0 <= j < |u| && u[j] == y;
        assert y == s[j + 1];
      }
      var r := Filter(s, keep);
      forall i, j | 0 <= i < j < |r|
        ensures proj(r[i]) != proj(r[j])
      {
        if keep(s[0]) {
          assert r == [s[0]] + f;
          assert r[j] == f[j - 1] && r[j] in f;
          if i > 0 {
            assert r[i] == f[i - 1];
          }
        } else {
          assert r == f;
        }
      }
    }
  }

  /** What the averaging reducers return for one group: the sum of the amounts
      and the number of distinct periods the group spans. */
  datatype Totals = Totals(total: int, count: nat)

  /** total / count, as an exact quotient. */
  function Average(total: int, count: nat): real
    requires count > 0
  {
    total as real / count as real
  }

  /** Over a positive count, the average is positive exactly when the total is. */
  lemma AverageSign(total: int, count: nat)
    requires count > 0
    ensures Average(total, count) > 0.0 <==> total > 0
  {
    var q := Average(total, count);
    assert q * count as real == total as real;
  }

  /** part / whole for two counts, as an exact quotient. */
  function Ratio(part: nat, whole: nat): real
    requires whole > 0
  {
    part as real / whole as real
  }

  /** A part of a non-empty whole is a fraction in (0, 1]. */
  lemma RatioBounds(part: nat, whole: nat)
    requires 1 <= part <= whole
    ensures 0.0 < Ratio(part, whole) <= 1.0
  {
    var q := Ratio(part, whole);
    assert q * whole as real == part as real;
  }

  /** A ratio of counts is 1 exactly when the part is the whole. */
  lemma RatioOne(part: nat, whole: nat)
    requires whole > 0
    ensures Ratio(part, whole) == 1.0 <==> part == whole
  {
    var q := Ratio(part, whole);
    assert q * whole as real == part as real;
  }

  /** The JS number a division of a count by a looked-up value gives. */
  datatype Quotient = Finite(value: real) | NaN | Infinity

  /** `n / obj[key]` in JS: NaN when the key is missing (undefined) or for 0 / 0,
      Infinity for a positive count over 0, otherwise the exact quotient. */
  function Divide(n: nat, d: Option<nat>): (q: Quotient)
    ensures d.Some? && d.value > 0 <==> q.Finite?
    ensures q.Finite? ==> q.value == Ratio(n, d.value)
  {
    match d
    case None => NaN
    case Some(v) => if v > 0 then Finite(Ratio(n, v)) else if n == 0 then NaN else Infinity
  }

  /** The integers lo, ..., hi - 1. */
  function Range(lo: int, hi: int): (r: set<int>)
    ensures forall i :: i in r <==> lo <= i < hi
    ensures |r| == if lo <= hi then hi - lo else 0
    decreases hi - lo
  {
    if hi <= lo then {} else Range(lo, hi - 1) + {hi - 1}
  }

  /** Pigeonhole: distinct keys that an injective `code` sends into [lo, hi) are at most hi - lo. */
  lemma DistinctCodesBound<K>(ks: seq<K>, code: K -> int, lo: int, hi: int)
    requires Distinct(ks)
    requires forall i | 0 <= i < |ks| :: lo <= code(ks[i]) < hi
    requires forall i, j | 0 <= i < |ks| && 0 <= j < |ks| && code(ks[i]) == code(ks[j]) :: i == j
    ensures |ks| <= if lo <= hi then hi - lo else 0
  {
    var cs := seq(|ks|, i requires 0 <= i < |ks| => code(ks[i]));
    DistinctCard(cs);
    assert (set c | c in cs) <= Range(lo, hi);
    SubsetCard((set c | c in cs), Range(lo, hi));
  }

  /** Array.prototype.indexOf: the first position of `x`, or -1. */
  function IndexOf<T(==)>(s: seq<T>, x: T): (r: int)
    ensures -1 <= r
    ensures r == -1 <==> x !in s
    ensures 0 <= r ==> r < |s| && s[r] == x && x !in s[..r]
    decreases |s|
  {
    if s == [] then -1
    else if s[0] == x then 0
    else
      var r := IndexOf(s[1..], x);
      if r == -1 then -1
      else
        assert s[..r + 1] == [s[0]] + s[1..][..r];
        r + 1
  }

  /** A JS object filled by assigning `obj[key] = value` for each pair in turn;
      a later pair with the same key overwrites an earlier one. */
  function Assoc<K, V>(pairs: seq<(K, V)>): map<K, V>
    decreases |pairs|
  {
    if pairs == [] then map[]
    else Assoc(pairs[..|pairs| - 1])[pairs[|pairs| - 1].0 := pairs[|pairs| - 1].1]
  }

  /** With distinct keys, every pair can be read back from the filled object. */
  lemma {:induction false} AssocLookup<K, V>(pairs: seq<(K, V)>, i: nat)
    requires forall a, b | 0 <= a < b < |pairs| :: pairs[a].0 != pairs[b].0
    requires i < |pairs|
    ensures pairs[i].0 in Assoc(pairs) && Assoc(pairs)[pairs[i].0] == pairs[i].1
    decreases |pairs|
  {
    if i < |pairs| - 1 {
      AssocLookup(pairs[..|pairs| - 1], i);
    }
  }

  /** When every pair with key `k` holds `v`, the filled object maps `k` to `v`,
      whichever of those pairs came last. */
  lemma {:induction false} AssocValue<K, V>(pairs: seq<(K, V)>, k: K, v: V)
    requires exists i | 0 <= i < |pairs| :: pairs[i].0 == k
    requires forall i | 0 <= i < |pairs| && pairs[i].0 == k :: pairs[i].1 == v
    ensures k in Assoc(pairs) && Assoc(pairs)[k] == v
    decreases |pairs|
  {
    var p := pairs[..|pairs| - 1];
    if pairs[|pairs| - 1].0 != k {
      var i :| 0 <= i < |pairs| && pairs[i].0 == k;
      assert p[i] == pairs[i];
      AssocValue(p, k, v);
    }
  }

  /** Reading back a key written at position `p`, when every pair with that key holds `v`. */
  lemma LookupAssoc<K, V>(pairs: seq<(K, V)>, k: K, v: V, p: nat)
    requires p < |pairs| && pairs[p].0 == k
    requires forall i | 0 <= i < |pairs| && pairs[i].0 == k :: pairs[i].1 == v
    ensures Lookup(Assoc(pairs), k) == Some(v)
  {
    AssocValue(pairs, k, v);
  }

  /** `obj[key] = value` for each pair in turn, starting from `{}`. */
  method FillObject<K, V>(pairs: seq<(K, V)>) returns (obj: map<K, V>)
    ensures obj == Assoc(pairs)
  {
    obj := map[];
    for i := 0 to |pairs|
      invariant obj == Assoc(pairs[..i])
    {
      assert pairs[..i + 1][..i] == pairs[..i];
      obj := obj[pairs[i].0 := pairs[i].1];
    }
    assert pairs[..|pairs|] == pairs;
  }

  /** How many charts the C9 and C10 pages draw at most. */
  const MaxCharts := 5

  /** The chartIndex loop shared by the two small-multiples pages: walk the
      groups in order with a counter starting at 1 and skip every group once
      the counter exceeds MaxCharts; only the groups not skipped are drawn. */
  method FirstCharts<V>(groups: seq<V>) returns (shown: seq<V>)
    ensures shown == groups[..Min(|groups|, MaxCharts)]
  {
    var chartIndex := 1;
    shown := [];
    for i := 0 to |groups|
      invariant chartIndex == |shown| + 1
      invariant shown == groups[..Min(i, MaxCharts)]
    {
      if chartIndex > MaxCharts {
        continue;
      }
      shown := shown + [groups[i]];
      chartIndex := chartIndex + 1;
    }
  }

  /** Elements whose projections are pairwise distinct have as many projections as elements. */
  lemma {:induction false} ImageDistinctBy<T, K>(g: seq<T>, proj: T -> K)
    requires DistinctBy(g, proj)
    ensures |Image(g, proj)| == |g|
    decreases |g|
  {
    if g != [] {
      var p, x := g[..|g| - 1], g[|g| - 1];
      forall i, j | 0 <= i < j < |p|
        ensures proj(p[i]) != proj(p[j])
      {
        assert p[i] == g[i] && p[j] == g[j];
      }
      ImageDistinctBy(p, proj);
      forall y | y in p
        ensures proj(y) != proj(x)
      {
        var i :| 0 <= i < |p| && p[i] == y;
        assert g[i] == y;
      }
      assert g == p + [x];
      assert Image(g, proj) == Image(p, proj) + {proj(x)};
    }
  }

  /** The sum of one per element is the number of elements. */
  lemma {:induction false} SumOfOnes<T>(s: seq<T>, f: T -> int)
    requires forall x | x in s :: f(x) == 1
    ensures SumOf(s, f) == |s|
    decreases |s|
  {
    if s != [] {
      SumOfOnes(s[..|s| - 1], f);
    }
  }
}

/** Array.prototype.sort with a comparator. Since ES2019 (section 22.1.3.27 of
    ECMA-262, 10th edition) the sort must be stable, so its result is fixed:
    the elements ordered by the comparator, tied elements in their original
    order. `less(a, b)` stands for "the comparator returns a negative number
    for (a, b)". The model is a stable insertion sort, as a function for the
    sorts that reorder a freshly built array and as a method for the one that
    sorts an array in place. */
module Sorting {

  /** What a consistent comparator gives: asymmetric, and "not before" is transitive. */
  ghost predicate StrictWeakOrder<T(!new)>(less: (T, T) -> bool) {
    && (forall a, b :: less(a, b) ==> !less(b, a))
    && (forall a, b, c :: !less(a, b) && !less(b, c) ==> !less(a, c))
  }

  /** No element is before an earlier one. */
  predicate Sorted<T>(s: seq<T>, less: (T, T) -> bool) {
    forall i, j | 0 <= i < j < |s| :: !less(s[j], s[i])
  }

  /** The comparator returns 0: neither goes first. */
  predicate Tied<T>(less: (T, T) -> bool, a: T, b: T) {
    !less(a, b) && !less(b, a)
  }

  /** The elements tied with `v`, in their order in `s`. */
  function Ties<T>(s: seq<T>, less: (T, T) -> bool, v: T): seq<T>
    decreases |s|
  {
    if s == [] then []
    else (if Tied(less, s[0], v) then [s[0]] else []) + Ties(s[1..], less, v)
  }

  /** Puts `x` before the first element of `t` that is not before `x`. */
  function Insert<T>(x: T, t: seq<T>, less: (T, T) -> bool): (r: seq<T>)
    ensures |r| == |t| + 1
    decreases |t|
  {
    if t == [] || !less(t[0], x) then [x] + t
    else [t[0]] + Insert(x, t[1..], less)
  }

  /** The stable sort of `s` under `less`. */
  function SortBy<T>(s: seq<T>, less: (T, T) -> bool): (r: seq<T>)
    ensures |r| == |s|
    decreases |s|
  {
    if s == [] then []
    else Insert(s[0], SortBy(s[1..], less), less)
  }

  lemma {:induction false} InsertPermutes<T>(x: T, t: seq<T>, less: (T, T) -> bool)
    ensures multiset(Insert(x, t, less)) == multiset(t) + multiset{x}
    decreases |t|
  {
    if t != [] && less(t[0], x) {
      InsertPermutes(x, t[1..], less);
      assert t == [t[0]] + t[1..];
    }
  }

  /** The sorted result is a permutation of the input. */
  lemma {:induction false} SortByPermutes<T>(s: seq<T>, less: (T, T) -> bool)
    ensures multiset(SortBy(s, less)) == multiset(s)
    decreases |s|
  {
    if s != [] {
      SortByPermutes(s[1..], less);
      InsertPermutes(s[0], SortBy(s[1..], less), less);
      assert s == [s[0]] + s[1..];
    }
  }

  /** Two comparators that agree on the elements at hand sort them alike. */
  lemma {:induction false} InsertAgree<T>(x: T, t: seq<T>, less: (T, T) -> bool, less': (T, T) -> bool)
    requires forall y | y in t :: less(y, x) == less'(y, x)
    ensures Insert(x, t, less) == Insert(x, t, less')
    decreases |t|
  {
    if t != [] {
      assert t[0] in t;
      if less(t[0], x) {
        assert forall y | y in t[1..] :: y in t;
        InsertAgree(x, t[1..], less, less');
      }
    }
  }

  lemma {:induction false} SortByAgree<T>(s: seq<T>, less: (T, T) -> bool, less': (T, T) -> bool)
    requires forall a, b | a in s && b in s :: less(a, b) == less'(a, b)
    ensures SortBy(s, less) == SortBy(s, less')
    decreases |s|
  {
    if s != [] {
      var u := s[1..];
      assert forall y | y in u :: y in s;
      SortByAgree(u, less, less');
      SortByPermutes(u, less);
      forall y | y in SortBy(u, less)
        ensures less(y, s[0]) == less'(y, s[0])
      {
        assert y in multiset(SortBy(u, less));
        assert y in u;
      }
      InsertAgree(s[0], SortBy(u, less), less, less');
    }
  }

  lemma {:induction false} InsertSorted<T(!new)>(x: T, t: seq<T>, less: (T, T) -> bool)
    requires StrictWeakOrder(less) && Sorted(t, less)
    ensures Sorted(Insert(x, t, less), less)
    decreases |t|
  {
    if t != [] && less(t[0], x) {
      InsertSorted(x, t[1..], less);
      var r := Insert(x, t[1..], less);
      InsertPermutes(x, t[1..], less);
      forall y | y in r
        ensures !less(y, t[0])
      {
        assert y in multiset(r);
        if y != x {
          assert y in multiset(t[1..]);
          var k :| 0 <= k < |t[1..]| && t[1..][k] == y;
          assert t[k + 1] == y;
        }
      }
      assert Insert(x, t, less) == [t[0]] + r;
    }
  }

  /** The sorted result is ordered by the comparator. */
  lemma {:induction false} SortBySorted<T(!new)>(s: seq<T>, less: (T, T) -> bool)
    requires StrictWeakOrder(less)
    ensures Sorted(SortBy(s, less), less)
    decreases |s|
  {
    if s != [] {
      SortBySorted(s[1..], less);
      InsertSorted(s[0], SortBy(s[1..], less), less);
    }
  }

  lemma {:induction false} InsertTies<T(!new)>(x: T, t: seq<T>, less: (T, T) -> bool, v: T)
    requires StrictWeakOrder(less)
    ensures Ties(Insert(x, t, less), less, v) == (if Tied(less, x, v) then [x] else []) + Ties(t, less, v)
    decreases |t|
  {
    if t == [] || !less(t[0], x) {
      assert Insert(x, t, less) == [x] + t;
      assert ([x] + t)[1..] == t;
    } else {
      var u := Insert(x, t[1..], less);
      assert Insert(x, t, less) == [t[0]] + u;
      InsertTies(x, t[1..], less, v);
      assert ([t[0]] + u)[1..] == u;
      assert !(Tied(less, t[0], v) && Tied(less, x, v));
      assert Ties(t, less, v) == (if Tied(less, t[0], v) then [t[0]] else []) + Ties(t[1..], less, v);
      assert Ties([t[0]] + u, less, v) == (if Tied(less, t[0], v) then [t[0]] else []) + Ties(u, less, v);
    }
  }

  /** Stability: the elements tied with any `v` keep their original order. */
  lemma {:induction false} SortByStable<T(!new)>(s: seq<T>, less: (T, T) -> bool, v: T)
    requires StrictWeakOrder(less)
    ensures Ties(SortBy(s, less), less, v) == Ties(s, less, v)
    decreases |s|
  {
    if s != [] {
      SortByStable(s[1..], less, v);
      InsertTies(s[0], SortBy(s[1..], less), less, v);
    }
  }

  /** Insert places `x` after exactly the leading elements of `t` that are before it. */
  lemma {:induction false} InsertAt<T>(x: T, t: seq<T>, less: (T, T) -> bool, k: nat)
    requires k <= |t|
    requires forall m | 0 <= m < k :: less(t[m], x)
    requires k == |t| || !less(t[k], x)
    ensures Insert(x, t, less) == t[..k] + [x] + t[k..]
    decreases k
  {
    if k > 0 {
      var u := t[1..];
      assert less(t[0], x);
      assert Insert(x, t, less) == [t[0]] + Insert(x, u, less);
      assert forall m | 0 <= m < k - 1 :: u[m] == t[m + 1];
      InsertAt(x, u, less, k - 1);
      calc {
        Insert(x, t, less);
        [t[0]] + (u[..k - 1] + [x] + u[k - 1..]);
        ([t[0]] + u[..k - 1]) + [x] + u[k - 1..];
        { assert t[..k] == [t[0]] + u[..k - 1]; assert t[k..] == u[k - 1..]; }
        t[..k] + [x] + t[k..];
      }
    } else {
      assert t[..0] == [];
      assert t[0..] == t;
    }
  }

  /** One step of the in-place sort: moves a[i] rightwards past the elements of
      the suffix a[i + 1..] that go before it. */
  method InsertInPlace<T>(a: array<T>, i: nat, less: (T, T) -> bool)
    requires i < a.Length
    modifies a
    ensures a[..i] == old(a[..i])
    ensures a[i..] == Insert(old(a[i]), old(a[i + 1..]), less)
  {
    var n := a.Length;
    var x := a[i];
    ghost var t := a[i + 1..];
    var j := i;
    while j + 1 < n && less(a[j + 1], x)
      invariant i <= j < n
      invariant a[..i] == old(a[..i])
      invariant a[i..j] == t[..j - i]
      invariant a[j + 1..] == t[j - i..]
      invariant forall m | 0 <= m < j - i :: less(t[m], x)
    {
      assert a[j + 1] == t[j - i];
      a[j] := a[j + 1];
      j := j + 1;
    }
    ghost var b := a[..];
    assert b[i..j] == t[..j - i] && b[j + 1..] == t[j - i..];
    a[j] := x;
    assert a[..] == b[j := x];
    InsertAt(x, t, less, j - i);
    UpdateSplit(b, i, j, x);
    assert a[i..] == b[j := x][i..];
  }

  /** Writing `x` at `j` of `b` and reading from `i` on gives the part before `j`, `x`, and the part after. */
  lemma UpdateSplit<T>(b: seq<T>, i: nat, j: nat, x: T)
    requires i <= j < |b|
    ensures b[j := x][..i] == b[..i]
    ensures b[j := x][i..] == b[i..j] + [x] + b[j + 1..]
  {
  }

  /** items.sort(comparator) on an array: the same stable sort, done in place by
      inserting each element, from the last to the first, into the sorted suffix. */
  method SortInPlace<T>(a: array<T>, less: (T, T) -> bool)
    modifies a
    ensures a[..] == SortBy(old(a[..]), less)
  {
    var i := a.Length;
    while i > 0
      invariant 0 <= i <= a.Length
      invariant a[..i] == old(a[..i])
      invariant a[i..] == SortBy(old(a[..])[i..], less)
    {
      i := i - 1;
      ghost var before := a[..];
      assert before[i] == old(a[..])[i] by { assert a[..i + 1] == old(a[..i + 1]); }
      assert old(a[..])[i..][1..] == old(a[..])[i + 1..];
      InsertInPlace(a, i, less);
      assert a[..i] == old(a[..i]) by { assert before[..i] == old(a[..i]); }
    }
    assert a[..] == a[0..];
    assert old(a[..]) == old(a[..])[0..];
  }
}

/** Customers per spending band (C12.js): total each customer's amounts, take
    the largest total, cut [0, ceil(max / 50000) * 50000 + 50000) into
    50,000-wide bands, add an open-ended band from the last finite band's lower
    edge, and count the customers whose total lies in each band. */
module Chart12 {
  import opened Collections
  import opened Records
  import opened Text

  /** One element of spendingArray: `customer` and `spending`. */
  datatype Spending = Spending(customer: string, spending: int)

  /** The width of a band, `step`. */
  const Step: int := 50000

  /** What one customer spent: d3.sum of its amounts. */
  function Spent(s: seq<Record>, c: string): int {
    SumAmounts(Group(s, CustomerOf, c))
  }

  /** spendingArray: one element per customer, in order of first occurrence. */
  function SpendingArray(s: seq<Record>): (a: seq<Spending>)
    ensures |a| == |Keys(s, CustomerOf)|
    ensures forall i | 0 <= i < |a| :: a[i].customer == Keys(s, CustomerOf)[i] && a[i].spending == Spent(s, a[i].customer)
  {
    var ks := Keys(s, CustomerOf);
    seq(|ks|, i requires 0 <= i < |ks| => Spending(ks[i], Spent(s, ks[i])))
  }

  function CustomerName(d: Spending): string { d.customer }

  /** maxSpending: d3.max over the spending totals. */
  function MaxSpending(a: seq<Spending>): (m: int)
    requires a != []
    ensures forall i | 0 <= i < |a| :: a[i].spending <= m
    ensures exists i | 0 <= i < |a| :: a[i].spending == m
    decreases |a|
  {
    if |a| == 1 then a[0].spending
    else
      var r := MaxSpending(a[1..]);
      assert forall i | 1 <= i < |a| :: a[i] == a[1..][i - 1];
      if a[0].spending > r then a[0].spending else r
  }

  /** numBins: Math.ceil(maxSpending / step), the least number of steps reaching `m`. */
  function NumBins(m: int): (n: int)
    ensures (n - 1) * Step < m <= n * Step
  {
    -((-m) / Step)
  }

  /** The upper edge of a band: a number, or Infinity. */
  datatype Limit = Below(bound: int) | Unbounded

  /** One element of spendingCategories: `range`, `min` and `max`. */
  datatype Bucket = Bucket(range: string, min: int, max: Limit)

  /** `{ length: numBins + 1 }` read by Array.from, which takes a negative length as 0. */
  function FiniteLength(numBins: int): (n: nat)
    ensures numBins >= -1 ==> n == numBins + 1
  {
    if numBins + 1 < 0 then 0 else numBins + 1
  }

  /** The `i`-th finite band, `${i * 50}k`, from i * step up to (i + 1) * step. */
  function FiniteBucket(i: nat): Bucket {
    Bucket(DecimalString(i * 50) + "k", i * Step, Below((i + 1) * Step))
  }

  /** The band pushed last, `Trên ${numBins * 50}k`, from numBins * step with no upper edge. */
  function Overflow(numBins: int): Bucket {
    Bucket("Trên " + IntString(numBins * 50) + "k", numBins * Step, Unbounded)
  }

  /** spendingCategories once the push is done. */
  function Categories(numBins: int): (cats: seq<Bucket>)
    ensures |cats| == FiniteLength(numBins) + 1
    ensures forall i | 0 <= i < FiniteLength(numBins) :: cats[i] == FiniteBucket(i)
    ensures cats[|cats| - 1] == Overflow(numBins)
  {
    seq(FiniteLength(numBins), i requires 0 <= i < FiniteLength(numBins) => FiniteBucket(i)) + [Overflow(numBins)]
  }

  /** Array.from builds the finite bands, then push appends the open-ended one. */
  method BuildCategories(numBins: int) returns (cats: seq<Bucket>)
    ensures cats == Categories(numBins)
  {
    var n := FiniteLength(numBins);
    cats := seq(n, i requires 0 <= i < n => FiniteBucket(i));
    cats := cats + [Overflow(numBins)];
  }

  /** `d.spending >= category.min && d.spending < category.max`. */
  predicate InBucket(b: Bucket, x: int): (inside: bool)
    ensures b.max == Below(b.min + Step) && b.min % Step == 0 ==> (inside <==> x / Step == b.min / Step)
  {
    x >= b.min && (b.max.Unbounded? || x < b.max.bound)
  }

  /** spendingArray.filter(...).length for one band. */
  function CountIn(a: seq<Spending>, b: Bucket): (n: nat)
    ensures n <= |a|
    ensures (forall d | d in a :: InBucket(b, d.spending)) ==> n == |a|
    ensures (forall d | d in a :: !InBucket(b, d.spending)) ==> n == 0
  {
    FilterAllOrNone(a, (d: Spending) => InBucket(b, d.spending));
    |Filter(a, (d: Spending) => InBucket(b, d.spending))|
  }

  /** One element of spendingDistribution: `range` and `count`. */
  datatype Bar = Bar(range: string, count: nat)

  /** The bands of the records, from their largest customer total. */
  function BucketsOf(s: seq<Record>): seq<Bucket>
    requires s != []
  {
    KeysFirst(s, CustomerOf);
    Categories(NumBins(MaxSpending(SpendingArray(s))))
  }

  /** The label of the one band an empty file gets: d3.max of no elements is
      undefined, so numBins is NaN, Array.from({ length: NaN }) is empty and the
      pushed band's label prints NaN. Its bounds are NaN too, so it counts nobody. */
  const EmptyFileBand := "Trên NaNk"

  /** The bars of a non-empty file: each band's label and count, in band order. */
  function BandCounts(s: seq<Record>): (bars: seq<Bar>)
    requires s != []
    ensures |bars| == |BucketsOf(s)|
    ensures forall i | 0 <= i < |bars| :: bars[i].range == BucketsOf(s)[i].range
  {
    KeysFirst(s, CustomerOf);
    var a, cats := SpendingArray(s), BucketsOf(s);
    seq(|cats|, i requires 0 <= i < |cats| => Bar(cats[i].range, CountIn(a, cats[i])))
  }

  /** spendingDistribution: a single empty NaN band for an empty file, the
      counted bands otherwise. */
  function Distribution(s: seq<Record>): (bars: seq<Bar>)
    ensures s == [] ==> bars == [Bar(EmptyFileBand, 0)]
    ensures s != [] ==> bars == BandCounts(s)
  {
    if s == [] then [Bar(EmptyFileBand, 0)] else BandCounts(s)
  }

  /** One element per customer, no customer twice. */
  lemma SpendingRows(s: seq<Record>)
    ensures |SpendingArray(s)| == |Image(s, CustomerOf)|
    ensures DistinctBy(SpendingArray(s), CustomerName)
    ensures forall d | d in SpendingArray(s) :: d.customer in Image(s, CustomerOf) && d.spending == Spent(s, d.customer)
  {
    var a, ks := SpendingArray(s), Keys(s, CustomerOf);
    KeysCount(s, CustomerOf);
    forall d | d in a
      ensures d.customer in Image(s, CustomerOf)
    {
      var i :| 0 <= i < |a| && a[i] == d;
      assert ks[i] in ks;
      var x := Group(s, CustomerOf, ks[i])[0];
      assert x in s;
    }
  }

  /** Every customer of the records has its element, with its total. */
  lemma SpendingCover(s: seq<Record>, c: string) returns (i: nat)
    requires c in Image(s, CustomerOf)
    ensures i < |SpendingArray(s)| && SpendingArray(s)[i] == Spending(c, Spent(s, c))
  {
    var x :| x in s && CustomerOf(x) == c;
    assert x in Group(s, CustomerOf, c);
    var ks := Keys(s, CustomerOf);
    assert c in ks;
    i :| 0 <= i < |ks| && ks[i] == c;
  }

  /** maxSpending is the largest total of any customer, and some customer spent it. */
  lemma MaxIsLargest(s: seq<Record>)
    requires s != []
    ensures SpendingArray(s) != []
    ensures forall c | c in Image(s, CustomerOf) :: Spent(s, c) <= MaxSpending(SpendingArray(s))
    ensures exists c | c in Image(s, CustomerOf) :: Spent(s, c) == MaxSpending(SpendingArray(s))
  {
    KeysFirst(s, CustomerOf);
    var a := SpendingArray(s);
    SpendingRows(s);
    forall c | c in Image(s, CustomerOf)
      ensures Spent(s, c) <= MaxSpending(a)
    {
      var i := SpendingCover(s, c);
    }
    var i :| 0 <= i < |a| && a[i].spending == MaxSpending(a);
    assert a[i] in a;
  }

  /** The customers whose total lies in band `b`. */
  function CustomersIn(s: seq<Record>, b: Bucket): set<string> {
    set c | c in Image(s, CustomerOf) && InBucket(b, Spent(s, c))
  }

  /** Filtering spendingArray by a band keeps one element per customer whose total lies in it. */
  lemma CountInCustomers(s: seq<Record>, b: Bucket)
    ensures CountIn(SpendingArray(s), b) == |CustomersIn(s, b)|
  {
    var a := SpendingArray(s);
    var keep := (d: Spending) => InBucket(b, d.spending);
    var g := Filter(a, keep);
    SpendingRows(s);
    FilterKeepsDistinctKeys(a, keep, CustomerName);
    ImageDistinctBy(g, CustomerName);
    forall c | c in CustomersIn(s, b)
      ensures c in Image(g, CustomerName)
    {
      var j := SpendingCover(s, c);
      assert a[j] in g;
    }
    assert Image(g, CustomerName) == CustomersIn(s, b);
  }

  /** A band's count is the number of distinct customers whose total lies in the band. */
  lemma DistributionCounts(s: seq<Record>, i: nat)
    requires s != [] && i < |Distribution(s)|
    ensures Distribution(s)[i].count == |CustomersIn(s, BucketsOf(s)[i])|
  {
    CountInCustomers(s, BucketsOf(s)[i]);
  }

  /** The table has numBins + 1 finite bands labelled `${i * 50}k` and the
      open-ended band labelled `Trên ${numBins * 50}k`; when the largest total
      is not negative that is numBins + 2 bands. */
  lemma DistributionLabels(s: seq<Record>)
    requires s != []
    ensures var n := NumBins(MaxSpending(SpendingArray(s)));
      && |Distribution(s)| == FiniteLength(n) + 1
      && (MaxSpending(SpendingArray(s)) >= 0 ==> n >= 0 && |Distribution(s)| == n + 2)
      && (forall i | 0 <= i < FiniteLength(n) :: Distribution(s)[i].range == DecimalString(i * 50) + "k")
      && Distribution(s)[|Distribution(s)| - 1].range == "Trên " + IntString(n * 50) + "k"
  {
    KeysFirst(s, CustomerOf);
  }

  /** Finite bands are disjoint and contiguous: a total from 0 up to numBins
      * step lies in exactly the band x / step. */
  lemma FiniteBandsPartition(n: int, x: int)
    requires 0 <= x <= n * Step
    ensures x / Step < FiniteLength(n)
    ensures forall i | 0 <= i < FiniteLength(n) :: InBucket(FiniteBucket(i), x) <==> i == x / Step
  {
    forall i | 0 <= i < FiniteLength(n)
      ensures InBucket(FiniteBucket(i), x) <==> i == x / Step
    {
      if i < x / Step {
        assert (i + 1) * Step <= (x / Step) * Step <= x;
      } else if i > x / Step {
        assert i * Step >= (x / Step + 1) * Step > x;
      }
    }
  }

  /** Every customer who did not spend a negative total is counted in exactly one finite band. */
  lemma OneFiniteBand(s: seq<Record>, c: string)
    requires c in Image(s, CustomerOf) && Spent(s, c) >= 0
    ensures s != []
    ensures Spent(s, c) / Step < |BucketsOf(s)| - 1
    ensures forall i | 0 <= i < |BucketsOf(s)| - 1 :: InBucket(BucketsOf(s)[i], Spent(s, c)) <==> i == Spent(s, c) / Step
  {
    SpentWithinBins(s, c);
    var n := NumBins(MaxSpending(SpendingArray(s)));
    FiniteBandsPartition(n, Spent(s, c));
  }

  /** No customer's total exceeds maxSpending, nor therefore numBins * step. */
  lemma SpentWithinBins(s: seq<Record>, c: string)
    requires c in Image(s, CustomerOf)
    ensures s != []
    ensures Spent(s, c) <= MaxSpending(SpendingArray(s)) <= NumBins(MaxSpending(SpendingArray(s))) * Step
  {
    MaxIsLargest(s);
  }

  /** No total exceeds numBins * step, so the open-ended band holds exactly the
      customers who spent numBins * step; when that is not negative they are
      also in the last finite band and are counted twice. */
  lemma OverflowOverlaps(s: seq<Record>, c: string)
    requires c in Image(s, CustomerOf)
    ensures s != []
    ensures var cats, n := BucketsOf(s), NumBins(MaxSpending(SpendingArray(s)));
      && (InBucket(cats[|cats| - 1], Spent(s, c)) <==> Spent(s, c) == n * Step)
      && (Spent(s, c) == n * Step >= 0 ==> n < |cats| - 1 && InBucket(cats[n], Spent(s, c)))
  {
    SpentWithinBins(s, c);
    var n, sp := NumBins(MaxSpending(SpendingArray(s))), Spent(s, c);
    assert BucketsOf(s) == Categories(n);
    if sp == n * Step >= 0 {
      assert FiniteLength(n) == n + 1;
      assert Categories(n)[n] == FiniteBucket(n);
    }
  }

  /** A customer with a negative total is in no finite band, and in the
      open-ended one only when it spent exactly numBins * step; when some
      customer's total is not negative, it is counted nowhere. */
  lemma NegativeUncounted(s: seq<Record>, c: string)
    requires c in Image(s, CustomerOf) && Spent(s, c) < 0
    ensures s != []
    ensures forall i | 0 <= i < |BucketsOf(s)| - 1 :: !InBucket(BucketsOf(s)[i], Spent(s, c))
    ensures MaxSpending(SpendingArray(s)) >= 0 ==> forall i | 0 <= i < |BucketsOf(s)| :: !InBucket(BucketsOf(s)[i], Spent(s, c))
  {
    SpentWithinBins(s, c);
    var n := NumBins(MaxSpending(SpendingArray(s)));
    var cats := Categories(n);
    assert BucketsOf(s) == cats;
    forall i | 0 <= i < |cats| - 1
      ensures cats[i].min >= 0
    {
      assert cats[i] == FiniteBucket(i);
    }
  }
}

/** How many customers bought how many times (C11.js): roll the records up by
    customer counting distinct order ids, roll those customers up by their
    count, and sort the resulting (times, count) pairs ascending by times.
    Order ids are compared as written, without trimming. */
module Chart11 {
  import opened Collections
  import opened Sorting
  import opened Records

  /** One element of purchaseTimesArray: `customer` and `times`. */
  datatype Purchases = Purchases(customer: string, times: nat)

  /** One element of purchaseDistributionArray: `times` and `count`. */
  datatype Bar = Bar(times: nat, count: nat)

  /** How many distinct orders one customer placed. */
  function Times(s: seq<Record>, c: string): nat {
    DistinctOrders(Group(s, CustomerOf, c))
  }

  /** The customers whose number of distinct orders is `t`. */
  function CustomersWith(s: seq<Record>, t: nat): set<string> {
    set c | c in Image(s, CustomerOf) && Times(s, c) == t
  }

  /** purchaseTimesArray: one element per customer, in order of first occurrence. */
  function PurchaseTimes(s: seq<Record>): (a: seq<Purchases>)
    ensures |a| == |Keys(s, CustomerOf)|
    ensures forall i | 0 <= i < |a| :: a[i].customer == Keys(s, CustomerOf)[i] && a[i].times == Times(s, a[i].customer)
  {
    var ks := Keys(s, CustomerOf);
    seq(|ks|, i requires 0 <= i < |ks| => Purchases(ks[i], Times(s, ks[i])))
  }

  function CustomerName(p: Purchases): string { p.customer }
  function TimesOf(p: Purchases): nat { p.times }

  /** purchaseDistributionArray before the sort: one bar per `times` value, in
      order of first occurrence, counting its customers with `v => v.length`. */
  function Bars(a: seq<Purchases>): (bars: seq<Bar>)
    ensures |bars| == |Keys(a, TimesOf)|
    ensures forall i | 0 <= i < |bars| :: bars[i].times == Keys(a, TimesOf)[i] && bars[i].count == |Group(a, TimesOf, bars[i].times)|
  {
    var ks := Keys(a, TimesOf);
    seq(|ks|, i requires 0 <= i < |ks| => Bar(ks[i], |Group(a, TimesOf, ks[i])|))
  }

  /** d3.ascending on `times` is negative when the first bar has fewer. */
  predicate Ascending(a: Bar, b: Bar) {
    a.times < b.times
  }

  lemma AscendingOrder()
    ensures StrictWeakOrder(Ascending)
  {
  }

  /** purchaseDistributionArray. */
  function Histogram(s: seq<Record>): (h: seq<Bar>)
    ensures multiset(h) == multiset(Bars(PurchaseTimes(s)))
    ensures forall i, j | 0 <= i < j < |h| :: h[i].times <= h[j].times
  {
    var b := Bars(PurchaseTimes(s));
    AscendingOrder();
    SortByPermutes(b, Ascending);
    SortBySorted(b, Ascending);
    SortBy(b, Ascending)
  }

  /** Every customer has exactly one element, and every element's `times` is at least 1. */
  lemma PurchaseTimesRows(s: seq<Record>)
    ensures |PurchaseTimes(s)| == |Image(s, CustomerOf)|
    ensures DistinctBy(PurchaseTimes(s), CustomerName)
    ensures forall p | p in PurchaseTimes(s) :: p.customer in Image(s, CustomerOf) && 1 <= p.times
  {
    var a, ks := PurchaseTimes(s), Keys(s, CustomerOf);
    KeysCount(s, CustomerOf);
    forall p | p in a
      ensures p.customer in Image(s, CustomerOf) && 1 <= p.times
    {
      var i :| 0 <= i < |a| && a[i] == p;
      assert ks[i] in ks;
      var x := Group(s, CustomerOf, ks[i])[0];
      assert x in s;
    }
  }

  /** Every customer of the records has the element of its own order count. */
  lemma PurchaseTimesCover(s: seq<Record>, c: string) returns (i: nat)
    requires c in Image(s, CustomerOf)
    ensures i < |PurchaseTimes(s)| && PurchaseTimes(s)[i] == Purchases(c, Times(s, c))
  {
    var x :| x in s && CustomerOf(x) == c;
    assert x in Group(s, CustomerOf, c);
    var ks := Keys(s, CustomerOf);
    assert c in ks;
    i :| 0 <= i < |ks| && ks[i] == c;
  }

  /** Each bar of the histogram is one of the bars before the sort. */
  lemma BarSource(s: seq<Record>, i: nat) returns (p: nat)
    requires i < |Histogram(s)|
    ensures p < |Bars(PurchaseTimes(s))| && Histogram(s)[i] == Bars(PurchaseTimes(s))[p]
  {
    var b := Bars(PurchaseTimes(s));
    SortByPermutes(b, Ascending);
    assert Histogram(s)[i] in multiset(b);
    p :| 0 <= p < |b| && b[p] == Histogram(s)[i];
  }

  /** A bar's count is the number of distinct customers who placed exactly that many orders, at least one. */
  lemma HistogramCounts(s: seq<Record>, i: nat)
    requires i < |Histogram(s)|
    ensures Histogram(s)[i].count == |CustomersWith(s, Histogram(s)[i].times)| >= 1
  {
    var a := PurchaseTimes(s);
    var p := BarSource(s, i);
    var t := Histogram(s)[i].times;
    var g := Group(a, TimesOf, t);
    assert t in Keys(a, TimesOf);
    PurchaseTimesRows(s);
    GroupKeepsDistinctBy(a, TimesOf, t, CustomerName);
    ImageDistinctBy(g, CustomerName);
    forall c | c in CustomersWith(s, t)
      ensures c in Image(g, CustomerName)
    {
      var j := PurchaseTimesCover(s, c);
      assert a[j] in g;
    }
    assert Image(g, CustomerName) == CustomersWith(s, t);
  }

  /** Each bar before the sort is in the histogram. */
  lemma BarPlace(s: seq<Record>, p: nat) returns (i: nat)
    requires p < |Bars(PurchaseTimes(s))|
    ensures i < |Histogram(s)| && Histogram(s)[i] == Bars(PurchaseTimes(s))[p]
  {
    var b := Bars(PurchaseTimes(s));
    SortByPermutes(b, Ascending);
    assert b[p] in multiset(Histogram(s));
    i :| 0 <= i < |Histogram(s)| && Histogram(s)[i] == b[p];
  }

  /** Every customer's order count has its bar. */
  lemma HistogramCovers(s: seq<Record>, c: string) returns (i: nat)
    requires c in Image(s, CustomerOf)
    ensures i < |Histogram(s)| && Histogram(s)[i].times == Times(s, c)
  {
    var a := PurchaseTimes(s);
    var j := PurchaseTimesCover(s, c);
    assert a[j] in Group(a, TimesOf, Times(s, c));
    var ks := Keys(a, TimesOf);
    assert Times(s, c) in ks;
    var p :| 0 <= p < |ks| && ks[p] == Times(s, c);
    i := BarPlace(s, p);
  }

  /** The bars are strictly ascending in `times`, so no `times` value appears twice. */
  lemma HistogramAscending(s: seq<Record>)
    ensures forall i, j | 0 <= i < j < |Histogram(s)| :: Histogram(s)[i].times < Histogram(s)[j].times
  {
    var b, h := Bars(PurchaseTimes(s)), Histogram(s);
    var ks := Keys(PurchaseTimes(s), TimesOf);
    AscendingOrder();
    SortBySorted(b, Ascending);
    SortByPermutes(b, Ascending);
    forall i, j | 0 <= i < j < |b|
      ensures BarTimes(b[i]) != BarTimes(b[j])
    {
      assert b[i].times == ks[i] && b[j].times == ks[j];
    }
    PermutationKeepsDistinctKeys(b, h, BarTimes);
    forall i, j | 0 <= i < j < |h|
      ensures h[i].times < h[j].times
    {
      assert !Ascending(h[j], h[i]);
      assert BarTimes(h[i]) != BarTimes(h[j]);
    }
  }

  function BarTimes(b: Bar): nat { b.times }

  function CountOf(b: Bar): int { b.count }

  function One(p: Purchases): int { 1 }

  /** The counts add up to the number of distinct customers. */
  lemma HistogramTotal(s: seq<Record>)
    ensures SumOf(Histogram(s), CountOf) == |Image(s, CustomerOf)|
  {
    var a, b := PurchaseTimes(s), Bars(PurchaseTimes(s));
    SortByPermutes(b, Ascending);
    SumOfPermutation(Histogram(s), b, CountOf);
    var ks := Keys(a, TimesOf);
    forall i | 0 <= i < |ks|
      ensures CountOf(b[i]) == SumOf(Group(a, TimesOf, ks[i]), One)
    {
      SumOfOnes(Group(a, TimesOf, ks[i]), One);
    }
    RowsMatchGroupTotals(a, TimesOf, One, ks, b, CountOf);
    GroupTotalsPartition(a, TimesOf, One);
    SumOfOnes(a, One);
    PurchaseTimesRows(s);
  }

  /** Customer C1 with two lines of order A and customer C2 with order B: two customers who bought once. */
  lemma OnceEach(x: Record, y: Record, z: Record)
    requires x.customerId == y.customerId != z.customerId
    requires x.orderId == y.orderId
    ensures Histogram([x, y, z]) == [Bar(1, 2)]
  {
    OnceEachTimes(x, y, z);
    TwoOnce(x.customerId, z.customerId);
    assert SortBy([Bar(1, 2)], Ascending) == Insert(Bar(1, 2), [], Ascending) == [Bar(1, 2)];
  }

  /** Two customers with one order each make the single bar (1, 2). */
  lemma TwoOnce(c: string, d: string)
    ensures Bars([Purchases(c, 1), Purchases(d, 1)]) == [Bar(1, 2)]
  {
    var a := [Purchases(c, 1), Purchases(d, 1)];
    assert a[..1] == [a[0]] && a[..1][..0] == [];
    assert Keys(a[..1], TimesOf) == [1];
    assert Keys(a, TimesOf) == [1];
    assert Group(a[..1], TimesOf, 1) == [a[0]];
    assert Group(a, TimesOf, 1) == a;
  }

  /** The two customers of the example each placed one order. */
  lemma OnceEachTimes(x: Record, y: Record, z: Record)
    requires x.customerId == y.customerId != z.customerId
    requires x.orderId == y.orderId
    ensures PurchaseTimes([x, y, z]) == [Purchases(x.customerId, 1), Purchases(z.customerId, 1)]
  {
    var s := [x, y, z];
    OnceEachCustomers(x, y, z);
    OneOrder(x, y);
    OneOrder(z, z);
    assert Times(s, x.customerId) == 1 && Times(s, z.customerId) == 1;
  }

  /** Two lines of one order, or one line twice, make one order. */
  lemma OneOrder(x: Record, y: Record)
    requires x.orderId == y.orderId
    ensures DistinctOrders([x, y]) == 1 && DistinctOrders([x]) == 1
  {
    forall o | o in Image([x, y], OrderIdOf)
      ensures o == x.orderId
    {
      var r :| r in [x, y] && OrderIdOf(r) == o;
    }
    assert x in [x] && x in [x, y];
    assert x.orderId in Image([x], OrderIdOf) && x.orderId in Image([x, y], OrderIdOf);
    assert Image([x, y], OrderIdOf) == {x.orderId};
    assert Image([x], OrderIdOf) <= Image([x, y], OrderIdOf);
    assert Image([x], OrderIdOf) == {x.orderId};
  }

  /** The example's customers in order of first occurrence, with their lines. */
  lemma OnceEachCustomers(x: Record, y: Record, z: Record)
    requires x.customerId == y.customerId != z.customerId
    ensures Keys([x, y, z], CustomerOf) == [x.customerId, z.customerId]
    ensures Group([x, y, z], CustomerOf, x.customerId) == [x, y]
    ensures Group([x, y, z], CustomerOf, z.customerId) == [z]
  {
    var s := [x, y, z];
    assert s[..2] == [x, y] && [x, y][..1] == [x] && [x][..0] == [];
    assert Keys([x], CustomerOf) == [x.customerId];
    assert Keys([x, y], CustomerOf) == [x.customerId];
    assert Group([x], CustomerOf, x.customerId) == [x];
    assert Group([x, y], CustomerOf, x.customerId) == [x, y];
    assert Group([x, y], CustomerOf, z.customerId) == [];
  }
}

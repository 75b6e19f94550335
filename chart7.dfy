/** Purchase probability by category (C7.js): for each category label
    "[code] name", the share of all distinct order ids that hold at least one
    line of that category, sorted from the most to the least likely category.
    Order ids are compared as written, without trimming. */
module Chart7 {
  import opened Collections
  import opened Sorting
  import opened Records

  /** One bar of the chart: `category` and `probability`. */
  datatype CategoryShare = CategoryShare(category: string, probability: real)

  /** uniqueOrdersByCategory: distinct orders per category label, in order of first occurrence. */
  function ByCategory(s: seq<Record>): seq<(string, nat)> {
    Rollups(s, CategoryLabel, DistinctOrders)
  }

  /** The fraction of the orders of `s` that hold a line of category `c`. */
  function Share(s: seq<Record>, c: string): (p: real)
    requires Group(s, CategoryLabel, c) != []
    ensures 0.0 < p <= 1.0
  {
    var g := Group(s, CategoryLabel, c);
    DistinctOrdersOfPart(g, s);
    RatioBounds(DistinctOrders(g), DistinctOrders(s));
    Ratio(DistinctOrders(g), DistinctOrders(s))
  }

  /** The Array.from step on the `i`-th row: count / numOfUniqueOrders. */
  function RowAt(s: seq<Record>, i: nat): (row: CategoryShare)
    requires i < |Keys(s, CategoryLabel)|
    ensures row.category == Keys(s, CategoryLabel)[i]
    ensures Group(s, CategoryLabel, row.category) != []
    ensures row.probability == Share(s, row.category)
  {
    var c := Keys(s, CategoryLabel)[i];
    assert c in Keys(s, CategoryLabel);
    CategoryShare(c, Ratio(ByCategory(s)[i].1, DistinctOrders(s)))
  }

  /** The rows before sorting, one per category label in order of first occurrence. */
  function CategoryRows(s: seq<Record>): (rows: seq<CategoryShare>)
    ensures |rows| == |Keys(s, CategoryLabel)|
    ensures forall i | 0 <= i < |rows| :: rows[i] == RowAt(s, i)
  {
    seq(|Keys(s, CategoryLabel)|, i requires 0 <= i < |Keys(s, CategoryLabel)| => RowAt(s, i))
  }

  /** The comparator `(a, b) => b.probability - a.probability` is negative when `a` is more likely. */
  predicate MoreLikely(a: CategoryShare, b: CategoryShare) {
    b.probability - a.probability < 0.0
  }

  lemma MoreLikelyOrder()
    ensures StrictWeakOrder(MoreLikely)
  {
  }

  /** salesProbabilityByCategory: the rows from the most to the least likely category. */
  function SalesProbability(s: seq<Record>): (rows: seq<CategoryShare>)
    ensures multiset(rows) == multiset(CategoryRows(s))
    ensures forall i, j | 0 <= i < j < |rows| :: rows[i].probability >= rows[j].probability
  {
    var r := CategoryRows(s);
    MoreLikelyOrder();
    SortByPermutes(r, MoreLikely);
    SortBySorted(r, MoreLikely);
    SortBy(r, MoreLikely)
  }

  /** Each row is the row of some present category. */
  lemma RowSource(s: seq<Record>, i: nat) returns (p: nat)
    requires i < |SalesProbability(s)|
    ensures p < |Keys(s, CategoryLabel)| && SalesProbability(s)[i] == RowAt(s, p)
  {
    var r, rows := CategoryRows(s), SalesProbability(s);
    assert rows[i] in multiset(r);
    p :| 0 <= p < |r| && r[p] == rows[i];
  }

  /** Every probability is a fraction in (0, 1] of the orders. */
  lemma SalesProbabilityBounds(s: seq<Record>)
    ensures forall i | 0 <= i < |SalesProbability(s)| :: 0.0 < SalesProbability(s)[i].probability <= 1.0
  {
    forall i | 0 <= i < |SalesProbability(s)|
      ensures 0.0 < SalesProbability(s)[i].probability <= 1.0
    {
      var _ := RowSource(s, i);
    }
  }

  /** One row per category label present, and no label twice. */
  lemma SalesProbabilityRows(s: seq<Record>)
    ensures |SalesProbability(s)| == |Keys(s, CategoryLabel)| == |Image(s, CategoryLabel)|
    ensures forall i, j | 0 <= i < j < |SalesProbability(s)| :: SalesProbability(s)[i].category != SalesProbability(s)[j].category
  {
    var r, rows := CategoryRows(s), SalesProbability(s);
    assert |rows| == |r| by { assert |multiset(rows)| == |multiset(r)|; }
    forall i, j | 0 <= i < j < |r|
      ensures r[i].category != r[j].category
    {
      assert r[i] == RowAt(s, i) && r[j] == RowAt(s, j);
    }
    PermutationKeepsDistinctKeys(r, rows, (row: CategoryShare) => row.category);
    KeysCount(s, CategoryLabel);
  }

  /** Every record's category has a row holding that category's share of the orders. */
  lemma SalesProbabilityCovers(s: seq<Record>, x: Record)
    requires x in s
    ensures Group(s, CategoryLabel, CategoryLabel(x)) != []
    ensures exists i | 0 <= i < |SalesProbability(s)| ::
      SalesProbability(s)[i] == CategoryShare(CategoryLabel(x), Share(s, CategoryLabel(x)))
  {
    var r, rows := CategoryRows(s), SalesProbability(s);
    var c := CategoryLabel(x);
    assert x in Group(s, CategoryLabel, c);
    assert c in Keys(s, CategoryLabel);
    var k :| 0 <= k < |r| && Keys(s, CategoryLabel)[k] == c;
    assert r[k] == RowAt(s, k);
    assert r[k] in multiset(rows);
    var i :| 0 <= i < |rows| && rows[i] == r[k];
  }

  /** A category's probability is 1 exactly when every order holds a line of that category. */
  lemma ShareOne(s: seq<Record>, c: string)
    requires Group(s, CategoryLabel, c) != []
    ensures Share(s, c) == 1.0 <==> Image(Group(s, CategoryLabel, c), OrderIdOf) == Image(s, OrderIdOf)
  {
    var g := Group(s, CategoryLabel, c);
    ImageOfSubset(g, s, OrderIdOf);
    RatioOne(DistinctOrders(g), DistinctOrders(s));
    if DistinctOrders(g) == DistinctOrders(s) {
      SubsetSameCard(Image(g, OrderIdOf), Image(s, OrderIdOf));
    }
  }

  /** Two lines of one order count once: another line of an order the category
      already has, for any item of that category, leaves the share unchanged. */
  lemma RepeatedLineSameShare(s: seq<Record>, x: Record)
    requires exists y | y in s :: y.orderId == x.orderId && CategoryLabel(y) == CategoryLabel(x)
    ensures Group(s + [x], CategoryLabel, CategoryLabel(x)) != []
    ensures Share(s + [x], CategoryLabel(x)) == Share(s, CategoryLabel(x))
  {
    var c := CategoryLabel(x);
    var y :| y in s && y.orderId == x.orderId && CategoryLabel(y) == c;
    var g := Group(s, CategoryLabel, c);
    GroupSnoc(s, x, CategoryLabel, c);
    assert y in g;
    DistinctOrdersRepeat(g, x);
    DistinctOrdersRepeat(s, x);
  }
}

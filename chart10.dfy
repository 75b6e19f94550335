/** Purchase probability of each item within its category (C10.js): roll the
    records up by category label; for each category count its distinct order
    ids, roll its records up by item label counting distinct orders, give each
    item its count over the category's count, and sort the items in place from
    the most to the least likely; then draw the first five categories in the
    order the rollup met them. Order ids are compared as written, without
    trimming. */
module Chart10 {
  import opened Collections
  import opened Sorting
  import opened Records

  /** One bar: `MatHang`, `totalOrders` and `probability`. */
  datatype ItemShare = ItemShare(item: string, totalOrders: nat, probability: real)

  /** itemCounts: distinct orders per item label of one category's records. */
  function ItemCounts(v: seq<Record>): seq<(string, nat)> {
    Rollups(v, ItemLabel, DistinctOrders)
  }

  /** The .map step on the `i`-th item: its count and that count over uniqueOrders. */
  function ItemRowAt(v: seq<Record>, i: nat): (row: ItemShare)
    requires i < |Keys(v, ItemLabel)|
    ensures row.item == Keys(v, ItemLabel)[i]
    ensures Group(v, ItemLabel, row.item) != []
    ensures row.totalOrders == DistinctOrders(Group(v, ItemLabel, row.item))
    ensures DistinctOrders(v) >= 1
    ensures row.probability == Ratio(row.totalOrders, DistinctOrders(v))
  {
    var k := Keys(v, ItemLabel)[i];
    assert k in Keys(v, ItemLabel);
    ItemShare(k, ItemCounts(v)[i].1, Ratio(ItemCounts(v)[i].1, DistinctOrders(v)))
  }

  /** items before the sort, one per item label in order of first occurrence. */
  function ItemRows(v: seq<Record>): (rows: seq<ItemShare>)
    ensures |rows| == |Keys(v, ItemLabel)|
    ensures forall i | 0 <= i < |rows| :: rows[i] == ItemRowAt(v, i)
  {
    seq(|Keys(v, ItemLabel)|, i requires 0 <= i < |Keys(v, ItemLabel)| => ItemRowAt(v, i))
  }

  /** The comparator `(a, b) => b.probability - a.probability` is negative when `a` is more likely. */
  predicate MoreLikely(a: ItemShare, b: ItemShare) {
    b.probability - a.probability < 0.0
  }

  lemma MoreLikelyOrder()
    ensures StrictWeakOrder(MoreLikely)
  {
  }

  /** What the reducer returns for one category's records. */
  function SortedItems(v: seq<Record>): (items: seq<ItemShare>)
    ensures multiset(items) == multiset(ItemRows(v))
    ensures forall i, j | 0 <= i < j < |items| :: items[i].probability >= items[j].probability
  {
    var r := ItemRows(v);
    MoreLikelyOrder();
    SortByPermutes(r, MoreLikely);
    SortBySorted(r, MoreLikely);
    SortBy(r, MoreLikely)
  }

  /** The reducer: build the items array, then items.sort(...) in place. */
  method Reduce(v: seq<Record>) returns (items: seq<ItemShare>)
    ensures items == SortedItems(v)
  {
    var rows := ItemRows(v);
    var a := new ItemShare[|rows|](i requires 0 <= i < |rows| => rows[i]);
    assert a[..] == rows;
    SortInPlace(a, MoreLikely);
    items := a[..];
  }

  /** nestedData: the sorted items of each category label, in order of first occurrence. */
  function Nested(s: seq<Record>): (nested: seq<(string, seq<ItemShare>)>)
    ensures forall i | 0 <= i < |nested| ::
      Group(s, CategoryLabel, nested[i].0) != [] && nested[i].1 == SortedItems(Group(s, CategoryLabel, nested[i].0))
  {
    RollupsRows(s, CategoryLabel, SortedItems);
    Rollups(s, CategoryLabel, SortedItems)
  }

  /** d3.rollup calling the reducer on each category's records in turn. */
  method BuildNested(s: seq<Record>) returns (nested: seq<(string, seq<ItemShare>)>)
    ensures nested == Nested(s)
  {
    var ks := Keys(s, CategoryLabel);
    nested := [];
    for i := 0 to |ks|
      invariant |nested| == i
      invariant forall j | 0 <= j < i :: nested[j] == (ks[j], SortedItems(Group(s, CategoryLabel, ks[j])))
    {
      var items := Reduce(Group(s, CategoryLabel, ks[i]));
      nested := nested + [(ks[i], items)];
    }
  }

  /** The prelude: the nested data and the categories the chartIndex loop draws. */
  method Charts(s: seq<Record>) returns (nested: seq<(string, seq<ItemShare>)>, shown: seq<(string, seq<ItemShare>)>)
    ensures nested == Nested(s)
    ensures shown == Nested(s)[..Min(|Nested(s)|, MaxCharts)]
    ensures |shown| <= MaxCharts
  {
    nested := BuildNested(s);
    shown := FirstCharts(nested);
  }

  /** Each sorted item is the row of some item label. */
  lemma ItemSource(v: seq<Record>, i: nat) returns (p: nat)
    requires i < |SortedItems(v)|
    ensures p < |Keys(v, ItemLabel)| && SortedItems(v)[i] == ItemRowAt(v, p)
  {
    var r, items := ItemRows(v), SortedItems(v);
    assert items[i] in multiset(r);
    p :| 0 <= p < |r| && r[p] == items[i];
  }

  /** Every item's count is at least 1 and at most the category's, so its probability is in (0, 1]. */
  lemma SortedItemsBounds(v: seq<Record>)
    ensures forall i | 0 <= i < |SortedItems(v)| ::
      1 <= SortedItems(v)[i].totalOrders <= DistinctOrders(v) && 0.0 < SortedItems(v)[i].probability <= 1.0
  {
    forall i | 0 <= i < |SortedItems(v)|
      ensures 1 <= SortedItems(v)[i].totalOrders <= DistinctOrders(v)
      ensures 0.0 < SortedItems(v)[i].probability <= 1.0
    {
      var p := ItemSource(v, i);
      var row := SortedItems(v)[i];
      DistinctOrdersOfPart(Group(v, ItemLabel, row.item), v);
      RatioBounds(row.totalOrders, DistinctOrders(v));
    }
  }

  /** One item per item label of the category, and no label twice. */
  lemma SortedItemsRows(v: seq<Record>)
    ensures |SortedItems(v)| == |Keys(v, ItemLabel)| == |Image(v, ItemLabel)|
    ensures forall i, j | 0 <= i < j < |SortedItems(v)| :: SortedItems(v)[i].item != SortedItems(v)[j].item
  {
    var r, items := ItemRows(v), SortedItems(v);
    assert |items| == |r| by { assert |multiset(items)| == |multiset(r)|; }
    forall i, j | 0 <= i < j < |r|
      ensures r[i].item != r[j].item
    {
      assert r[i] == ItemRowAt(v, i) && r[j] == ItemRowAt(v, j);
    }
    PermutationKeepsDistinctKeys(r, items, (row: ItemShare) => row.item);
    KeysCount(v, ItemLabel);
  }

  /** Every record's item has its row in its category's items. */
  lemma SortedItemsCover(v: seq<Record>, x: Record)
    requires x in v
    ensures exists i | 0 <= i < |SortedItems(v)| ::
      SortedItems(v)[i].item == ItemLabel(x)
      && SortedItems(v)[i].totalOrders == DistinctOrders(Group(v, ItemLabel, ItemLabel(x)))
  {
    var r, items := ItemRows(v), SortedItems(v);
    assert x in Group(v, ItemLabel, ItemLabel(x));
    assert ItemLabel(x) in Keys(v, ItemLabel);
    var k :| 0 <= k < |r| && Keys(v, ItemLabel)[k] == ItemLabel(x);
    assert r[k] == ItemRowAt(v, k);
    assert r[k] in multiset(items);
    var i :| 0 <= i < |items| && items[i] == r[k];
  }

  /** The sort is stable: items of equal probability keep the order in which the rollup met them. */
  lemma SortedItemsTies(v: seq<Record>, row: ItemShare)
    ensures Ties(SortedItems(v), MoreLikely, row) == Ties(ItemRows(v), MoreLikely, row)
  {
    MoreLikelyOrder();
    SortByStable(ItemRows(v), MoreLikely, row);
  }

  /** Every record's category has its entry, holding the sorted items of exactly that category's records. */
  lemma NestedCovers(s: seq<Record>, x: Record) returns (i: nat)
    requires x in s
    ensures i < |Nested(s)|
    ensures Nested(s)[i].0 == CategoryLabel(x)
    ensures Nested(s)[i].1 == SortedItems(Group(s, CategoryLabel, CategoryLabel(x)))
  {
    assert x in Group(s, CategoryLabel, CategoryLabel(x));
    i := RowOfKey(s, CategoryLabel, SortedItems, CategoryLabel(x));
  }

  /** One entry per category label, no label twice. */
  lemma NestedRows(s: seq<Record>)
    ensures |Nested(s)| == |Image(s, CategoryLabel)|
    ensures forall i, j | 0 <= i < j < |Nested(s)| :: Nested(s)[i].0 != Nested(s)[j].0
  {
    RollupsRows(s, CategoryLabel, SortedItems);
    KeysCount(s, CategoryLabel);
  }
}

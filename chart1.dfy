/** Revenue by item (C1.js): roll the records up by item code, then item name,
    then category code, summing the amounts; keep for each item code only its
    first name subgroup and, inside it, its first category subgroup; sort by
    revenue, highest first. */
module Chart1 {
  import opened Collections
  import opened Sorting
  import opened Records

  /** One bar of the chart. */
  datatype ItemRevenue = ItemRevenue(itemCode: string, itemName: string, categoryCode: string, revenue: int)

  /** The innermost rollup: revenue per category code. */
  function ByCategory(v: seq<Record>): seq<(string, int)> {
    Rollups(v, CategoryCodeOf, SumAmounts)
  }

  /** The middle rollup: per item name, the rollup by category code. */
  function ByName(v: seq<Record>): seq<(string, seq<(string, int)>)> {
    Rollups(v, ItemNameOf, ByCategory)
  }

  /** The outer rollup: per item code, the rollup by item name. */
  function ByItem(s: seq<Record>): seq<(string, seq<(string, seq<(string, int)>)>)> {
    Rollups(s, ItemCodeOf, ByName)
  }

  /** The .map step: `values[0]` and then `groupValues[0]`. */
  function FirstSubgroup(code: string, values: seq<(string, seq<(string, int)>)>): ItemRevenue
    requires values != [] && values[0].1 != []
  {
    ItemRevenue(code, values[0].0, values[0].1[0].0, values[0].1[0].1)
  }

  predicate HasItemCode(s: seq<Record>, c: string) {
    exists j | 0 <= j < |s| :: ItemCodeOf(s[j]) == c
  }

  /** Revenue of the records with item code `c`, item name `n` and category code `k`. */
  function MatchingRevenue(s: seq<Record>, c: string, n: string, k: string): int
    decreases |s|
  {
    if s == [] then 0
    else
      var x := s[|s| - 1];
      MatchingRevenue(s[..|s| - 1], c, n, k)
        + (if x.itemCode == c && x.itemName == n && x.categoryCode == k then x.amount else 0)
  }

  /** The row of item code `c`, stated without rollups: the first record with
      that code gives the name and the category, and the revenue adds up the
      records that have all three. */
  function CodeRow(s: seq<Record>, c: string): ItemRevenue
    requires HasItemCode(s, c)
  {
    var first := s[FirstIndex(s, ItemCodeOf, c)];
    ItemRevenue(c, first.itemName, first.categoryCode, MatchingRevenue(s, c, first.itemName, first.categoryCode))
  }

  /** The records the rollup puts under item code `c`, name `n` and category code `k`. */
  function NestedGroup(s: seq<Record>, c: string, n: string, k: string): seq<Record> {
    Group(Group(Group(s, ItemCodeOf, c), ItemNameOf, n), CategoryCodeOf, k)
  }

  lemma NestedGroupSnoc(p: seq<Record>, x: Record, c: string, n: string, k: string)
    ensures SumAmounts(NestedGroup(p + [x], c, n, k))
      == SumAmounts(NestedGroup(p, c, n, k)) + (if x.itemCode == c && x.itemName == n && x.categoryCode == k then x.amount else 0)
  {
    var g1 := Group(p, ItemCodeOf, c);
    var g2 := Group(g1, ItemNameOf, n);
    var g3 := Group(g2, CategoryCodeOf, k);
    GroupSnoc(p, x, ItemCodeOf, c);
    if x.itemCode == c {
      GroupSnoc(g1, x, ItemNameOf, n);
      if x.itemName == n {
        GroupSnoc(g2, x, CategoryCodeOf, k);
        if x.categoryCode == k {
          assert NestedGroup(p + [x], c, n, k) == g3 + [x];
          SumOfSnoc(g3, x, AmountOf);
        } else {
          assert g3 + [] == g3;
          assert NestedGroup(p + [x], c, n, k) == g3;
        }
      } else {
        assert g2 + [] == g2;
        assert NestedGroup(p + [x], c, n, k) == g3;
      }
    } else {
      assert g1 + [] == g1;
      assert NestedGroup(p + [x], c, n, k) == g3;
    }
  }

  /** The three nested groups select exactly the records matching all three keys. */
  lemma {:induction false} NestedGroupRevenue(s: seq<Record>, c: string, n: string, k: string)
    ensures SumAmounts(NestedGroup(s, c, n, k)) == MatchingRevenue(s, c, n, k)
    decreases |s|
  {
    if s != [] {
      var p, x := s[..|s| - 1], s[|s| - 1];
      NestedGroupRevenue(p, c, n, k);
      NestedGroupSnoc(p, x, c, n, k);
      assert s == p + [x];
    }
  }

  /** What the .map step reads from the rollup of one item code is that code's row. */
  lemma FirstSubgroupRow(s: seq<Record>, c: string)
    requires Group(s, ItemCodeOf, c) != []
    ensures HasItemCode(s, c)
    ensures ByName(Group(s, ItemCodeOf, c)) != [] && ByName(Group(s, ItemCodeOf, c))[0].1 != []
    ensures FirstSubgroup(c, ByName(Group(s, ItemCodeOf, c))) == CodeRow(s, c)
  {
    var g := Group(s, ItemCodeOf, c);
    GroupFirst(s, ItemCodeOf, c);
    var first := g[0];
    RollupsHead(g, ItemNameOf, ByCategory);
    var h := Group(g, ItemNameOf, first.itemName);
    GroupHead(g, ItemNameOf);
    RollupsHead(h, CategoryCodeOf, SumAmounts);
    GroupHead(h, CategoryCodeOf);
    NestedGroupRevenue(s, c, first.itemName, first.categoryCode);
  }

  /** The .map step on the `i`-th row of the outer rollup. */
  function RowAt(s: seq<Record>, i: nat): (row: ItemRevenue)
    requires i < |Keys(s, ItemCodeOf)|
    ensures HasItemCode(s, row.itemCode) && row.itemCode == Keys(s, ItemCodeOf)[i]
    ensures row == CodeRow(s, row.itemCode)
  {
    var (code, values) := ByItem(s)[i];
    assert code in Keys(s, ItemCodeOf);
    FirstSubgroupRow(s, code);
    FirstSubgroup(code, values)
  }

  /** The rows before sorting: one per item code, in order of first occurrence. */
  function ItemRows(s: seq<Record>): (rows: seq<ItemRevenue>)
    ensures |rows| == |Keys(s, ItemCodeOf)|
    ensures forall i | 0 <= i < |rows| :: rows[i] == RowAt(s, i)
  {
    seq(|Keys(s, ItemCodeOf)|, i requires 0 <= i < |Keys(s, ItemCodeOf)| => RowAt(s, i))
  }

  function RowCode(row: ItemRevenue): string { row.itemCode }

  /** The comparator `(a, b) => b.ThanhTien - a.ThanhTien` is negative when `a` has more revenue. */
  predicate RevenueFirst(a: ItemRevenue, b: ItemRevenue) {
    b.revenue - a.revenue < 0
  }

  lemma RevenueFirstOrder()
    ensures StrictWeakOrder(RevenueFirst)
  {
  }

  /** dataset1: the item rows sorted by revenue, highest first. */
  function RevenueByItem(s: seq<Record>): (rows: seq<ItemRevenue>)
    ensures multiset(rows) == multiset(ItemRows(s))
    ensures forall i, j | 0 <= i < j < |rows| :: rows[i].revenue >= rows[j].revenue
  {
    var r := ItemRows(s);
    RevenueFirstOrder();
    SortByPermutes(r, RevenueFirst);
    SortBySorted(r, RevenueFirst);
    SortBy(r, RevenueFirst)
  }

  /** One row per distinct item code: as many rows as codes, and no code twice. */
  lemma RevenueByItemDistinct(s: seq<Record>)
    ensures |RevenueByItem(s)| == |Keys(s, ItemCodeOf)|
    ensures forall i, j | 0 <= i < j < |RevenueByItem(s)| :: RevenueByItem(s)[i].itemCode != RevenueByItem(s)[j].itemCode
  {
    var r, rows := ItemRows(s), RevenueByItem(s);
    assert |rows| == |r| by { assert |multiset(rows)| == |multiset(r)|; }
    PermutationKeepsDistinctKeys(r, rows, RowCode);
  }

  /** Every item code of the input has a row. */
  lemma RevenueByItemCovers(s: seq<Record>, x: Record)
    requires x in s
    ensures exists i | 0 <= i < |RevenueByItem(s)| :: RevenueByItem(s)[i].itemCode == x.itemCode
  {
    var r, rows, ks := ItemRows(s), RevenueByItem(s), Keys(s, ItemCodeOf);
    assert x in Group(s, ItemCodeOf, x.itemCode);
    assert x.itemCode in ks;
    var k :| 0 <= k < |ks| && ks[k] == x.itemCode;
    assert r[k] == RowAt(s, k);
    assert r[k] in multiset(rows);
    var i :| 0 <= i < |rows| && rows[i] == r[k];
    assert rows[i].itemCode == x.itemCode;
  }

  /** Each row is the row of its item code. */
  lemma RevenueByItemRowsOfCodes(s: seq<Record>, i: nat)
    requires i < |RevenueByItem(s)|
    ensures HasItemCode(s, RevenueByItem(s)[i].itemCode)
    ensures RevenueByItem(s)[i] == CodeRow(s, RevenueByItem(s)[i].itemCode)
  {
    var r, rows := ItemRows(s), RevenueByItem(s);
    assert rows[i] in multiset(r);
  }

  /** Rows of equal revenue keep the order in which their item codes first occur. */
  lemma RevenueByItemStable(s: seq<Record>, v: ItemRevenue)
    ensures Ties(RevenueByItem(s), RevenueFirst, v) == Ties(ItemRows(s), RevenueFirst, v)
  {
    RevenueFirstOrder();
    SortByStable(ItemRows(s), RevenueFirst, v);
  }

  /** An empty file gives an empty chart. */
  lemma RevenueByItemEmpty()
    ensures RevenueByItem([]) == []
  {
    assert |Keys([], ItemCodeOf)| == 0;
  }

  /** A record whose name or category differs from those of the first record
      with its item code counts for nothing: changing its amount changes no row. */
  lemma DroppedRecordIgnored(s: seq<Record>, i: nat, amount: int)
    requires i < |s|
    requires var first := s[FirstIndex(s, ItemCodeOf, s[i].itemCode)];
      first.itemName != s[i].itemName || first.categoryCode != s[i].categoryCode
    ensures RevenueByItem(s[i := s[i].(amount := amount)]) == RevenueByItem(s)
  {
    var s' := s[i := s[i].(amount := amount)];
    KeysSameKeys(s, s', ItemCodeOf);
    var r, r' := ItemRows(s), ItemRows(s');
    forall m | 0 <= m < |r|
      ensures r'[m] == r[m]
    {
      var c := r[m].itemCode;
      FirstIndexSameKeys(s, s', ItemCodeOf, c);
      var f := FirstIndex(s, ItemCodeOf, c);
      assert f != i;
      assert s'[f] == s[f];
      MatchingRevenueIgnores(s, i, amount, c, s[f].itemName, s[f].categoryCode);
    }
    assert r' == r;
  }

  /** Changing the amount of a record that does not match leaves the matching revenue alone. */
  lemma {:induction false} MatchingRevenueIgnores(s: seq<Record>, i: nat, amount: int, c: string, n: string, k: string)
    requires i < |s|
    requires s[i].itemCode != c || s[i].itemName != n || s[i].categoryCode != k
    ensures MatchingRevenue(s[i := s[i].(amount := amount)], c, n, k) == MatchingRevenue(s, c, n, k)
    decreases |s|
  {
    var s' := s[i := s[i].(amount := amount)];
    if i < |s| - 1 {
      assert s'[..|s| - 1] == s[..|s| - 1][i := s[i].(amount := amount)];
      MatchingRevenueIgnores(s[..|s| - 1], i, amount, c, n, k);
    } else {
      assert s'[..|s| - 1] == s[..|s| - 1];
    }
  }
}

/** Revenue by category (C2.js): roll the records up by category code, then
    category name, summing the amounts; keep for each code only its first name
    subgroup; sort by revenue, highest first. */
module Chart2 {
  import opened Collections
  import opened Sorting
  import opened Records

  /** One bar of the chart. */
  datatype CategoryRevenue = CategoryRevenue(categoryCode: string, categoryName: string, revenue: int)

  /** The inner rollup: revenue per category name. */
  function ByName(v: seq<Record>): seq<(string, int)> {
    Rollups(v, CategoryNameOf, SumAmounts)
  }

  /** The outer rollup: per category code, the rollup by name. */
  function ByCategory(s: seq<Record>): seq<(string, seq<(string, int)>)> {
    Rollups(s, CategoryCodeOf, ByName)
  }

  predicate HasCategoryCode(s: seq<Record>, c: string) {
    exists j | 0 <= j < |s| :: CategoryCodeOf(s[j]) == c
  }

  /** Revenue of the records with category code `c` and category name `n`. */
  function MatchingRevenue(s: seq<Record>, c: string, n: string): int
    decreases |s|
  {
    if s == [] then 0
    else
      var x := s[|s| - 1];
      MatchingRevenue(s[..|s| - 1], c, n) + (if x.categoryCode == c && x.categoryName == n then x.amount else 0)
  }

  /** The row of category code `c`, stated without rollups: the first record
      with that code gives the name, and the revenue adds up the records that
      have both. */
  function CodeRow(s: seq<Record>, c: string): CategoryRevenue
    requires HasCategoryCode(s, c)
  {
    var first := s[FirstIndex(s, CategoryCodeOf, c)];
    CategoryRevenue(c, first.categoryName, MatchingRevenue(s, c, first.categoryName))
  }

  /** The records the rollup puts under category code `c` and name `n`. */
  function NestedGroup(s: seq<Record>, c: string, n: string): seq<Record> {
    Group(Group(s, CategoryCodeOf, c), CategoryNameOf, n)
  }

  lemma NestedGroupSnoc(p: seq<Record>, x: Record, c: string, n: string)
    ensures SumAmounts(NestedGroup(p + [x], c, n))
      == SumAmounts(NestedGroup(p, c, n)) + (if x.categoryCode == c && x.categoryName == n then x.amount else 0)
  {
    var g1 := Group(p, CategoryCodeOf, c);
    var g2 := Group(g1, CategoryNameOf, n);
    GroupSnoc(p, x, CategoryCodeOf, c);
    if x.categoryCode == c {
      GroupSnoc(g1, x, CategoryNameOf, n);
      if x.categoryName == n {
        SumOfSnoc(g2, x, AmountOf);
      }
    }
  }

  /** The two nested groups select exactly the records matching both keys. */
  lemma {:induction false} NestedGroupRevenue(s: seq<Record>, c: string, n: string)
    ensures SumAmounts(NestedGroup(s, c, n)) == MatchingRevenue(s, c, n)
    decreases |s|
  {
    if s != [] {
      var p, x := s[..|s| - 1], s[|s| - 1];
      NestedGroupRevenue(p, c, n);
      NestedGroupSnoc(p, x, c, n);
      assert s == p + [x];
    }
  }

  /** The .map step: `values[0]`. */
  function FirstSubgroup(code: string, values: seq<(string, int)>): CategoryRevenue
    requires values != []
  {
    CategoryRevenue(code, values[0].0, values[0].1)
  }

  /** What the .map step reads from the rollup of one category code is that code's row. */
  lemma FirstSubgroupRow(s: seq<Record>, c: string)
    requires Group(s, CategoryCodeOf, c) != []
    ensures HasCategoryCode(s, c)
    ensures ByName(Group(s, CategoryCodeOf, c)) != []
    ensures FirstSubgroup(c, ByName(Group(s, CategoryCodeOf, c))) == CodeRow(s, c)
  {
    var g := Group(s, CategoryCodeOf, c);
    GroupFirst(s, CategoryCodeOf, c);
    RollupsHead(g, CategoryNameOf, SumAmounts);
    NestedGroupRevenue(s, c, g[0].categoryName);
  }

  /** The .map step on the `i`-th row of the outer rollup. */
  function RowAt(s: seq<Record>, i: nat): (row: CategoryRevenue)
    requires i < |Keys(s, CategoryCodeOf)|
    ensures HasCategoryCode(s, row.categoryCode) && row.categoryCode == Keys(s, CategoryCodeOf)[i]
    ensures row == CodeRow(s, row.categoryCode)
  {
    var (code, values) := ByCategory(s)[i];
    assert code in Keys(s, CategoryCodeOf);
    FirstSubgroupRow(s, code);
    FirstSubgroup(code, values)
  }

  /** The rows before sorting: one per category code, in order of first occurrence. */
  function CategoryRows(s: seq<Record>): (rows: seq<CategoryRevenue>)
    ensures |rows| == |Keys(s, CategoryCodeOf)|
    ensures forall i | 0 <= i < |rows| :: rows[i] == RowAt(s, i)
  {
    seq(|Keys(s, CategoryCodeOf)|, i requires 0 <= i < |Keys(s, CategoryCodeOf)| => RowAt(s, i))
  }

  function RowCode(row: CategoryRevenue): string { row.categoryCode }
  function RowRevenue(row: CategoryRevenue): int { row.revenue }

  /** The comparator `(a, b) => b.ThanhTien - a.ThanhTien` is negative when `a` has more revenue. */
  predicate RevenueFirst(a: CategoryRevenue, b: CategoryRevenue) {
    b.revenue - a.revenue < 0
  }

  lemma RevenueFirstOrder()
    ensures StrictWeakOrder(RevenueFirst)
  {
  }

  /** dataset2: the category rows sorted by revenue, highest first. */
  function RevenueByCategory(s: seq<Record>): (rows: seq<CategoryRevenue>)
    ensures multiset(rows) == multiset(CategoryRows(s))
    ensures forall i, j | 0 <= i < j < |rows| :: rows[i].revenue >= rows[j].revenue
  {
    var r := CategoryRows(s);
    RevenueFirstOrder();
    SortByPermutes(r, RevenueFirst);
    SortBySorted(r, RevenueFirst);
    SortBy(r, RevenueFirst)
  }

  /** One row per distinct category code: as many rows as codes, and no code twice. */
  lemma RevenueByCategoryDistinct(s: seq<Record>)
    ensures |RevenueByCategory(s)| == |Keys(s, CategoryCodeOf)|
    ensures forall i, j | 0 <= i < j < |RevenueByCategory(s)| ::
      RevenueByCategory(s)[i].categoryCode != RevenueByCategory(s)[j].categoryCode
  {
    var r, rows := CategoryRows(s), RevenueByCategory(s);
    assert |rows| == |r| by { assert |multiset(rows)| == |multiset(r)|; }
    PermutationKeepsDistinctKeys(r, rows, RowCode);
  }

  /** Every category code of the input has a row. */
  lemma RevenueByCategoryCovers(s: seq<Record>, x: Record)
    requires x in s
    ensures exists i | 0 <= i < |RevenueByCategory(s)| :: RevenueByCategory(s)[i].categoryCode == x.categoryCode
  {
    var r, rows, ks := CategoryRows(s), RevenueByCategory(s), Keys(s, CategoryCodeOf);
    assert x in Group(s, CategoryCodeOf, x.categoryCode);
    assert x.categoryCode in ks;
    var k :| 0 <= k < |ks| && ks[k] == x.categoryCode;
    assert r[k] == RowAt(s, k);
    assert r[k] in multiset(rows);
    var i :| 0 <= i < |rows| && rows[i] == r[k];
    assert rows[i].categoryCode == x.categoryCode;
  }

  /** Each row is the row of its category code. */
  lemma RevenueByCategoryRowsOfCodes(s: seq<Record>, i: nat)
    requires i < |RevenueByCategory(s)|
    ensures HasCategoryCode(s, RevenueByCategory(s)[i].categoryCode)
    ensures RevenueByCategory(s)[i] == CodeRow(s, RevenueByCategory(s)[i].categoryCode)
  {
    var r, rows := CategoryRows(s), RevenueByCategory(s);
    assert rows[i] in multiset(r);
    var k :| 0 <= k < |r| && r[k] == rows[i];
    assert r[k] == RowAt(s, k);
  }

  /** Rows of equal revenue keep the order in which their codes first occur. */
  lemma RevenueByCategoryStable(s: seq<Record>, v: CategoryRevenue)
    ensures Ties(RevenueByCategory(s), RevenueFirst, v) == Ties(CategoryRows(s), RevenueFirst, v)
  {
    RevenueFirstOrder();
    SortByStable(CategoryRows(s), RevenueFirst, v);
  }

  /** Each category code has a single name. */
  predicate OneNamePerCode(s: seq<Record>) {
    forall i, j | 0 <= i < |s| && 0 <= j < |s| && s[i].categoryCode == s[j].categoryCode ::
      s[i].categoryName == s[j].categoryName
  }

  /** When every record of code `c` has name `n`, the matching revenue is the code's whole revenue. */
  lemma {:induction false} MatchingWholeGroup(s: seq<Record>, c: string, n: string)
    requires forall j | 0 <= j < |s| && s[j].categoryCode == c :: s[j].categoryName == n
    ensures MatchingRevenue(s, c, n) == SumAmounts(Group(s, CategoryCodeOf, c))
    decreases |s|
  {
    if s != [] {
      var p, x := s[..|s| - 1], s[|s| - 1];
      assert s == p + [x];
      forall j | 0 <= j < |p| && p[j].categoryCode == c
        ensures p[j].categoryName == n
      {
        assert p[j] == s[j];
      }
      MatchingWholeGroup(p, c, n);
      GroupSnoc(p, x, CategoryCodeOf, c);
      if x.categoryCode == c {
        assert x.categoryName == n;
        SumOfSnoc(Group(p, CategoryCodeOf, c), x, AmountOf);
      }
    }
  }

  /** With one name per category code no record is dropped: the rows add up to the total revenue. */
  lemma SingleNameTotal(s: seq<Record>)
    requires OneNamePerCode(s)
    ensures SumOf(RevenueByCategory(s), RowRevenue) == SumAmounts(s)
  {
    var ks := Keys(s, CategoryCodeOf);
    var r := CategoryRows(s);
    forall i | 0 <= i < |ks|
      ensures RowRevenue(r[i]) == SumOf(Group(s, CategoryCodeOf, ks[i]), AmountOf)
    {
      var c := ks[i];
      assert r[i] == RowAt(s, i);
      assert HasCategoryCode(s, c);
      var f := FirstIndex(s, CategoryCodeOf, c);
      MatchingWholeGroup(s, c, s[f].categoryName);
    }
    RowsMatchGroupTotals(s, CategoryCodeOf, AmountOf, ks, r, RowRevenue);
    GroupTotalsPartition(s, CategoryCodeOf, AmountOf);
    SumOfPermutation(r, RevenueByCategory(s), RowRevenue);
  }

  /** A record whose name differs from that of the first record with its code
      counts for nothing: changing its amount changes no row. */
  lemma DroppedRecordIgnored(s: seq<Record>, i: nat, amount: int)
    requires i < |s|
    requires s[FirstIndex(s, CategoryCodeOf, s[i].categoryCode)].categoryName != s[i].categoryName
    ensures RevenueByCategory(s[i := s[i].(amount := amount)]) == RevenueByCategory(s)
  {
    var s' := s[i := s[i].(amount := amount)];
    KeysSameKeys(s, s', CategoryCodeOf);
    var r, r' := CategoryRows(s), CategoryRows(s');
    forall m | 0 <= m < |r|
      ensures r'[m] == r[m]
    {
      assert r[m] == RowAt(s, m) && r'[m] == RowAt(s', m);
      var c := r[m].categoryCode;
      FirstIndexSameKeys(s, s', CategoryCodeOf, c);
      var f := FirstIndex(s, CategoryCodeOf, c);
      assert f != i;
      assert s'[f] == s[f];
      MatchingRevenueIgnores(s, i, amount, c, s[f].categoryName);
    }
    assert r' == r;
  }

  /** Changing the amount of a record that does not match leaves the matching revenue alone. */
  lemma {:induction false} MatchingRevenueIgnores(s: seq<Record>, i: nat, amount: int, c: string, n: string)
    requires i < |s|
    requires s[i].categoryCode != c || s[i].categoryName != n
    ensures MatchingRevenue(s[i := s[i].(amount := amount)], c, n) == MatchingRevenue(s, c, n)
    decreases |s|
  {
    var s' := s[i := s[i].(amount := amount)];
    if i < |s| - 1 {
      assert s'[..|s| - 1] == s[..|s| - 1][i := s[i].(amount := amount)];
      MatchingRevenueIgnores(s[..|s| - 1], i, amount, c, n);
    } else {
      assert s'[..|s| - 1] == s[..|s| - 1];
    }
  }
}

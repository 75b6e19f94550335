/** Revenue by month (C3.js): roll the records up by the two-digit month "%m"
    of their timestamp, summing the amounts, and sort by month number. Records
    of different years with the same month fall into one row. */
module Chart3 {
  import opened Collections
  import opened Sorting
  import opened Text
  import opened Calendar
  import opened Records

  /** One bar of the chart: `Thang` and `ThanhTien`. */
  datatype MonthRevenue = MonthRevenue(month: string, revenue: int)

  /** The grouping key: "%m" of the record's timestamp. */
  function MonthOf(r: Record): string {
    MonthLabel(r.createdAt)
  }

  /** The rollup: revenue per month label, in order of first occurrence. */
  function ByMonth(s: seq<Record>): (r: seq<(string, int)>)
    ensures |r| == |Keys(s, MonthOf)| <= 12
    ensures forall i | 0 <= i < |r| :: r[i].1 == SumAmounts(Group(s, MonthOf, r[i].0))
  {
    MonthKeysAtMostTwelve(s);
    Rollups(s, MonthOf, SumAmounts)
  }

  /** The .map step on the `i`-th row of the rollup. */
  function RowAt(s: seq<Record>, i: nat): (row: MonthRevenue)
    requires i < |ByMonth(s)|
    ensures row.month == Keys(s, MonthOf)[i]
    ensures row.revenue == SumAmounts(Group(s, MonthOf, row.month))
  {
    MonthRevenue(ByMonth(s)[i].0, ByMonth(s)[i].1)
  }

  /** The rows before sorting: one per month label, in order of first occurrence. */
  function MonthRows(s: seq<Record>): (rows: seq<MonthRevenue>)
    ensures |rows| == |Keys(s, MonthOf)|
    ensures forall i | 0 <= i < |rows| :: rows[i].month == Keys(s, MonthOf)[i]
    ensures forall i | 0 <= i < |rows| :: rows[i].revenue == SumAmounts(Group(s, MonthOf, rows[i].month))
  {
    seq(|ByMonth(s)|, i requires 0 <= i < |ByMonth(s)| => RowAt(s, i))
  }

  /** `+a.Thang`: the number the comparator subtracts. */
  function MonthValue(row: MonthRevenue): int {
    ParseDigits(row.month)
  }

  function RowRevenue(row: MonthRevenue): int { row.revenue }

  /** The comparator `(a, b) => a.Thang - b.Thang` is negative when `a` is the earlier month. */
  predicate MonthFirst(a: MonthRevenue, b: MonthRevenue) {
    MonthValue(a) - MonthValue(b) < 0
  }

  lemma MonthFirstOrder()
    ensures StrictWeakOrder(MonthFirst)
  {
  }

  /** dataset3: the month rows sorted by month number. */
  function RevenueByMonth(s: seq<Record>): (rows: seq<MonthRevenue>)
    ensures multiset(rows) == multiset(MonthRows(s))
    ensures forall i, j | 0 <= i < j < |rows| :: MonthValue(rows[i]) <= MonthValue(rows[j])
  {
    var r := MonthRows(s);
    MonthFirstOrder();
    SortByPermutes(r, MonthFirst);
    SortBySorted(r, MonthFirst);
    SortBy(r, MonthFirst)
  }

  /** A record's key reads as its month number. */
  lemma MonthKeyValue(x: Record)
    ensures |MonthOf(x)| == 2 && AllDigits(MonthOf(x)) && DecimalValue(MonthOf(x)) == x.createdAt.month
  {
    MonthLabelValue(x.createdAt);
  }

  /** Every month key is the "%m" of some record. */
  lemma KeyIsMonth(s: seq<Record>, k: string) returns (x: Record)
    requires Group(s, MonthOf, k) != []
    ensures MonthOf(x) == k
    ensures 1 <= ParseDigits(k) <= 12 && ParseDigits(k) == x.createdAt.month
  {
    x := Group(s, MonthOf, k)[0];
    assert x in Group(s, MonthOf, k);
    MonthKeyValue(x);
  }

  /** Two month keys with the same number are the same key. */
  lemma KeysByMonthNumber(s: seq<Record>, k: string, k': string)
    requires Group(s, MonthOf, k) != [] && Group(s, MonthOf, k') != []
    requires ParseDigits(k) == ParseDigits(k')
    ensures k == k'
  {
    var x := KeyIsMonth(s, k);
    var y := KeyIsMonth(s, k');
    MonthLabelSame(x.createdAt, y.createdAt);
  }

  /** A record's key is its month, whatever its year: two records share a row
      exactly when their timestamps are in the same month of the year. */
  lemma SameRowSameMonth(x: Record, y: Record)
    ensures MonthOf(x) == MonthOf(y) <==> x.createdAt.month == y.createdAt.month
  {
    MonthLabelSame(x.createdAt, y.createdAt);
  }

  /** Pigeonhole over the month numbers: at most 12 distinct month keys. */
  lemma MonthKeysAtMostTwelve(s: seq<Record>)
    ensures |Keys(s, MonthOf)| <= 12
  {
    var ks := Keys(s, MonthOf);
    var code := (k: string) => ParseDigits(k) as int;
    forall i | 0 <= i < |ks|
      ensures 1 <= code(ks[i]) < 13
    {
      assert ks[i] in ks;
      var _ := KeyIsMonth(s, ks[i]);
    }
    forall i, j | 0 <= i < |ks| && 0 <= j < |ks| && code(ks[i]) == code(ks[j])
      ensures i == j
    {
      assert ks[i] in ks && ks[j] in ks;
      KeysByMonthNumber(s, ks[i], ks[j]);
    }
    DistinctCodesBound(ks, code, 1, 13);
  }

  /** One row per month present: no month twice, and so at most 12 rows. */
  lemma RevenueByMonthRows(s: seq<Record>)
    ensures |RevenueByMonth(s)| == |Keys(s, MonthOf)| <= 12
    ensures forall i, j | 0 <= i < j < |RevenueByMonth(s)| :: RevenueByMonth(s)[i].month != RevenueByMonth(s)[j].month
  {
    var r, rows := MonthRows(s), RevenueByMonth(s);
    assert |rows| == |r| by { assert |multiset(rows)| == |multiset(r)|; }
    PermutationKeepsDistinctKeys(r, rows, (row: MonthRevenue) => row.month);
    MonthKeysAtMostTwelve(s);
  }

  /** Every record's month has a row, holding the revenue of exactly the records of that month. */
  lemma RevenueByMonthCovers(s: seq<Record>, x: Record)
    requires x in s
    ensures exists i | 0 <= i < |RevenueByMonth(s)| ::
      RevenueByMonth(s)[i].month == MonthLabel(x.createdAt)
      && RevenueByMonth(s)[i].revenue == SumAmounts(Group(s, MonthOf, MonthOf(x)))
  {
    var r, rows := MonthRows(s), RevenueByMonth(s);
    assert x in Group(s, MonthOf, MonthOf(x));
    assert MonthOf(x) in Keys(s, MonthOf);
    var k :| 0 <= k < |r| && r[k].month == MonthOf(x);
    assert r[k] in multiset(rows);
  }

  /** Each row's month is the key of a non-empty group. */
  lemma RowMonthPresent(s: seq<Record>, i: nat)
    requires i < |RevenueByMonth(s)|
    ensures Group(s, MonthOf, RevenueByMonth(s)[i].month) != []
  {
    var r, rows := MonthRows(s), RevenueByMonth(s);
    assert rows[i] in multiset(r);
    var p :| 0 <= p < |r| && r[p] == rows[i];
    assert r[p].month in Keys(s, MonthOf);
  }

  /** Strictly ascending: month numbers increase from row to row. */
  lemma RevenueByMonthAscending(s: seq<Record>)
    ensures forall i, j | 0 <= i < j < |RevenueByMonth(s)| :: MonthValue(RevenueByMonth(s)[i]) < MonthValue(RevenueByMonth(s)[j])
  {
    var rows := RevenueByMonth(s);
    RevenueByMonthRows(s);
    forall i, j | 0 <= i < j < |rows|
      ensures MonthValue(rows[i]) < MonthValue(rows[j])
    {
      RowMonthPresent(s, i);
      RowMonthPresent(s, j);
      if ParseDigits(rows[i].month) == ParseDigits(rows[j].month) {
        KeysByMonthNumber(s, rows[i].month, rows[j].month);
      }
    }
  }

  /** Months partition the records: the rows add up to the total revenue. */
  lemma RevenueByMonthTotal(s: seq<Record>)
    ensures SumOf(RevenueByMonth(s), RowRevenue) == SumAmounts(s)
  {
    var ks, r := Keys(s, MonthOf), MonthRows(s);
    RowsMatchGroupTotals(s, MonthOf, AmountOf, ks, r, RowRevenue);
    GroupTotalsPartition(s, MonthOf, AmountOf);
    SumOfPermutation(r, RevenueByMonth(s), RowRevenue);
  }
}

/** Average revenue per weekday (C4.js): roll the records up by the ISO weekday
    "%u" of their timestamp; for each weekday add up the amounts and count the
    distinct ISO week numbers "%V" of its records (the year is not part of the
    count); the average is the total over that count; sort by weekday. */
module Chart4 {
  import opened Collections
  import opened Sorting
  import opened Text
  import opened Calendar
  import opened Records

  /** The x-axis labels, Monday to Sunday. */
  const DaysOfWeek: seq<string> := ["Thứ 2", "Thứ 3", "Thứ 4", "Thứ 5", "Thứ 6", "Thứ 7", "Chủ Nhật"]

  /** One bar of the chart: `day` (1 = Monday) and `average`. */
  datatype DayAverage = DayAverage(day: int, average: real)

  /** The grouping key: "%u" of the record's timestamp. */
  function WeekdayOf(r: Record): string {
    WeekdayLabel(r.createdAt)
  }

  /** The inner key: "%V" of the record's timestamp. */
  function WeekOf(r: Record): string {
    WeekLabel(r.createdAt)
  }

  function IsoWeekOf(r: Record): int {
    IsoWeek(r.createdAt)
  }

  /** How many different ISO week numbers the records carry, whatever their years. */
  function WeekCount(v: seq<Record>): nat {
    |Image(v, IsoWeekOf)|
  }

  /** The reducer: the sum of the amounts, and the size of the inner rollup by "%V". */
  function Summarize(v: seq<Record>): Totals {
    Totals(SumAmounts(v), |Keys(v, WeekOf)|)
  }

  /** The count is the number of distinct week numbers: at least one for a
      non-empty group, and at most 53 however many years the records span. */
  lemma SummarizeCount(v: seq<Record>)
    ensures Summarize(v).count == WeekCount(v)
    ensures v != [] ==> WeekCount(v) >= 1
    ensures WeekCount(v) <= 53
  {
    KeysCount(v, WeekOf);
    forall x, y | x in v && y in v
      ensures WeekOf(x) == WeekOf(y) <==> IsoWeekOf(x) == IsoWeekOf(y)
    {
      WeekLabelSame(x.createdAt, y.createdAt);
    }
    ImageCardSame(v, WeekOf, IsoWeekOf);
    if v != [] {
      ImageNonEmpty(v, IsoWeekOf);
    }
    assert Image(v, IsoWeekOf) <= Range(1, 54);
    SubsetCard(Image(v, IsoWeekOf), Range(1, 54));
  }

  /** The rollup: per weekday label, its totals. */
  function ByWeekday(s: seq<Record>): seq<(string, Totals)> {
    Rollups(s, WeekdayOf, Summarize)
  }

  /** The .map step on the `i`-th row of the rollup: `day: +day`, `average: total / count`. */
  function RowAt(s: seq<Record>, i: nat): (row: DayAverage)
    requires i < |ByWeekday(s)|
    ensures row.day == ParseDigits(Keys(s, WeekdayOf)[i])
    ensures WeekCount(Group(s, WeekdayOf, Keys(s, WeekdayOf)[i])) >= 1
    ensures row.average == Average(SumAmounts(Group(s, WeekdayOf, Keys(s, WeekdayOf)[i])),
      WeekCount(Group(s, WeekdayOf, Keys(s, WeekdayOf)[i])))
  {
    var (day, totals) := ByWeekday(s)[i];
    RollupsRows(s, WeekdayOf, Summarize);
    SummarizeCount(Group(s, WeekdayOf, day));
    DayAverage(ParseDigits(day), Average(totals.total, totals.count))
  }

  /** The rows before sorting: one per weekday label, in order of first occurrence. */
  function DayRows(s: seq<Record>): (rows: seq<DayAverage>)
    ensures |rows| == |Keys(s, WeekdayOf)|
    ensures forall i | 0 <= i < |rows| :: rows[i] == RowAt(s, i)
  {
    seq(|ByWeekday(s)|, i requires 0 <= i < |ByWeekday(s)| => RowAt(s, i))
  }

  /** The comparator `(a, b) => a.day - b.day` is negative when `a` is the earlier weekday. */
  predicate DayFirst(a: DayAverage, b: DayAverage) {
    a.day - b.day < 0
  }

  lemma DayFirstOrder()
    ensures StrictWeakOrder(DayFirst)
  {
  }

  /** salesByDay: the weekday rows sorted by weekday. */
  function AverageByWeekday(s: seq<Record>): (rows: seq<DayAverage>)
    ensures multiset(rows) == multiset(DayRows(s))
    ensures forall i, j | 0 <= i < j < |rows| :: rows[i].day <= rows[j].day
  {
    var r := DayRows(s);
    DayFirstOrder();
    SortByPermutes(r, DayFirst);
    SortBySorted(r, DayFirst);
    SortBy(r, DayFirst)
  }

  /** A record's key reads as its ISO weekday. */
  lemma WeekdayKeyValue(x: Record)
    ensures ParseDigits(WeekdayOf(x)) == IsoWeekday(x.createdAt)
  {
    WeekdayLabelValue(x.createdAt);
  }

  /** Every weekday key is the "%u" of some record, so it reads as a weekday 1..7. */
  lemma KeyIsWeekday(s: seq<Record>, k: string) returns (x: Record)
    requires Group(s, WeekdayOf, k) != []
    ensures WeekdayOf(x) == k
    ensures 1 <= ParseDigits(k) <= 7 && ParseDigits(k) == IsoWeekday(x.createdAt)
  {
    x := Group(s, WeekdayOf, k)[0];
    assert x in Group(s, WeekdayOf, k);
    WeekdayKeyValue(x);
  }

  /** Two weekday keys with the same number are the same key. */
  lemma KeysByWeekday(s: seq<Record>, k: string, k': string)
    requires Group(s, WeekdayOf, k) != [] && Group(s, WeekdayOf, k') != []
    requires ParseDigits(k) == ParseDigits(k')
    ensures k == k'
  {
    var x := KeyIsWeekday(s, k);
    var y := KeyIsWeekday(s, k');
    WeekdayLabelSame(x.createdAt, y.createdAt);
  }

  /** Pigeonhole over the weekdays: at most 7 distinct weekday keys. */
  lemma WeekdayKeysAtMostSeven(s: seq<Record>)
    ensures |Keys(s, WeekdayOf)| <= 7
  {
    var ks := Keys(s, WeekdayOf);
    var code := (k: string) => ParseDigits(k) as int;
    forall i | 0 <= i < |ks|
      ensures 1 <= code(ks[i]) < 8
    {
      assert ks[i] in ks;
      var _ := KeyIsWeekday(s, ks[i]);
    }
    forall i, j | 0 <= i < |ks| && 0 <= j < |ks| && code(ks[i]) == code(ks[j])
      ensures i == j
    {
      assert ks[i] in ks && ks[j] in ks;
      KeysByWeekday(s, ks[i], ks[j]);
    }
    DistinctCodesBound(ks, code, 1, 8);
  }

  /** Each sorted row is one of the unsorted rows. */
  lemma RowSource(s: seq<Record>, i: nat) returns (p: nat)
    requires i < |AverageByWeekday(s)|
    ensures p < |Keys(s, WeekdayOf)| && AverageByWeekday(s)[i] == RowAt(s, p)
  {
    var r := DayRows(s);
    assert AverageByWeekday(s)[i] in multiset(r);
    p :| 0 <= p < |r| && r[p] == AverageByWeekday(s)[i];
  }

  /** Each row stands for a weekday present in the input: its `day` is a
      weekday number 1..7, the weekday of the records it averages. */
  lemma RowOfWeekday(s: seq<Record>, i: nat) returns (k: string)
    requires i < |AverageByWeekday(s)|
    ensures Group(s, WeekdayOf, k) != [] && WeekCount(Group(s, WeekdayOf, k)) >= 1
    ensures AverageByWeekday(s)[i] == DayAverage(ParseDigits(k),
      Average(SumAmounts(Group(s, WeekdayOf, k)), WeekCount(Group(s, WeekdayOf, k))))
    ensures 1 <= AverageByWeekday(s)[i].day <= 7
  {
    var p := RowSource(s, i);
    k := Keys(s, WeekdayOf)[p];
    assert k in Keys(s, WeekdayOf);
    var _ := KeyIsWeekday(s, k);
  }

  /** The records a row averages are all on the row's weekday. */
  lemma GroupOnWeekday(s: seq<Record>, k: string, y: Record)
    requires y in Group(s, WeekdayOf, k)
    ensures IsoWeekday(y.createdAt) == ParseDigits(k)
  {
    WeekdayKeyValue(y);
  }

  /** At most seven rows, strictly ascending by weekday, each with a day that
      indexes `daysOfWeek[day - 1]`. */
  lemma AverageByWeekdayRows(s: seq<Record>)
    ensures |AverageByWeekday(s)| <= 7
    ensures forall i | 0 <= i < |AverageByWeekday(s)| :: 0 <= AverageByWeekday(s)[i].day - 1 < |DaysOfWeek|
    ensures forall i, j | 0 <= i < j < |AverageByWeekday(s)| :: AverageByWeekday(s)[i].day < AverageByWeekday(s)[j].day
  {
    var rows := AverageByWeekday(s);
    assert |rows| == |DayRows(s)| by { assert |multiset(rows)| == |multiset(DayRows(s))|; }
    WeekdayKeysAtMostSeven(s);
    forall i | 0 <= i < |rows|
      ensures 0 <= rows[i].day - 1 < |DaysOfWeek|
    {
      var _ := RowOfWeekday(s, i);
    }
    forall i, j | 0 <= i < j < |rows|
      ensures rows[i].day < rows[j].day
    {
      var k := RowOfWeekday(s, i);
      var k' := RowOfWeekday(s, j);
      if rows[i].day == rows[j].day {
        KeysByWeekday(s, k, k');
        RowsDistinct(s, i, j);
      }
    }
  }

  /** Two rows never come from the same weekday key. */
  lemma RowsDistinct(s: seq<Record>, i: nat, j: nat)
    requires i < j < |AverageByWeekday(s)|
    ensures AverageByWeekday(s)[i] != AverageByWeekday(s)[j]
  {
    var r, rows := DayRows(s), AverageByWeekday(s);
    var ks := Keys(s, WeekdayOf);
    forall p, q | 0 <= p < q < |r|
      ensures r[p].day != r[q].day
    {
      assert ks[p] in ks && ks[q] in ks;
      if r[p].day == r[q].day {
        KeysByWeekday(s, ks[p], ks[q]);
      }
    }
    PermutationKeepsDistinctKeys(r, rows, (row: DayAverage) => row.day);
  }

  /** Every record's weekday has a row, holding the average of the records of that weekday. */
  lemma AverageByWeekdayCovers(s: seq<Record>, x: Record)
    requires x in s
    ensures WeekCount(Group(s, WeekdayOf, WeekdayOf(x))) >= 1
    ensures exists i | 0 <= i < |AverageByWeekday(s)| ::
      AverageByWeekday(s)[i].day == IsoWeekday(x.createdAt)
      && AverageByWeekday(s)[i].average
        == Average(SumAmounts(Group(s, WeekdayOf, WeekdayOf(x))), WeekCount(Group(s, WeekdayOf, WeekdayOf(x))))
  {
    var r, rows := DayRows(s), AverageByWeekday(s);
    var ks := Keys(s, WeekdayOf);
    assert x in Group(s, WeekdayOf, WeekdayOf(x));
    assert WeekdayOf(x) in ks;
    var k :| 0 <= k < |ks| && ks[k] == WeekdayOf(x);
    WeekdayKeyValue(x);
    var row := RowAt(s, k);
    assert r[k] == row;
    assert row in multiset(rows);
    var i :| 0 <= i < |rows| && rows[i] == row;
    var g := Group(s, WeekdayOf, WeekdayOf(x));
    assert rows[i].day == IsoWeekday(x.createdAt) && rows[i].average == Average(SumAmounts(g), WeekCount(g));
  }

  /** Whether a timestamp falls on the given date. */
  predicate OnDate(t: Timestamp, year: int, month: int, day: int) {
    t.year == year && t.month == month && t.day == day
  }

  /** 2024-01-01 and 2029-01-01 are Mondays of week 1, 2024-01-08 a Monday of week 2. */
  lemma ExampleDates(t: Timestamp)
    requires ValidTimestamp(t)
    ensures OnDate(t, 2024, 1, 1) ==> IsoWeekday(t) == 1 && IsoWeek(t) == 1
    ensures OnDate(t, 2029, 1, 1) ==> IsoWeekday(t) == 1 && IsoWeek(t) == 1
    ensures OnDate(t, 2024, 1, 8) ==> IsoWeekday(t) == 1 && IsoWeek(t) == 2
  {
    if OnDate(t, 2024, 1, 1) || OnDate(t, 2029, 1, 1) {
      assert DayOfYear(t) == 1;
      MondayWeek(t);
    } else if OnDate(t, 2024, 1, 8) {
      assert DayOfYear(t) == 8;
      MondayWeek(t);
    }
  }

  /** Three records with one weekday form one group. */
  lemma OneWeekdayGroup(a: Record, b: Record, c: Record)
    requires WeekdayOf(a) == WeekdayOf(b) == WeekdayOf(c)
    ensures Keys([a, b, c], WeekdayOf) == [WeekdayOf(a)]
    ensures Group([a, b, c], WeekdayOf, WeekdayOf(a)) == [a, b, c]
  {
    var s := [a, b, c];
    assert s[..2] == [a, b] && [a, b][..1] == [a] && [a][..0] == [];
    assert Keys([a], WeekdayOf) == [WeekdayOf(a)];
    assert Keys([a, b], WeekdayOf) == [WeekdayOf(a)];
  }

  lemma SumOfThree(a: Record, b: Record, c: Record)
    ensures SumAmounts([a, b, c]) == a.amount + b.amount + c.amount
  {
    SumOfSnoc([], a, AmountOf);
    SumOfSnoc([a], b, AmountOf);
    SumOfSnoc([a, b], c, AmountOf);
    assert [] + [a] == [a] && [a] + [b] == [a, b] && [a, b] + [c] == [a, b, c];
  }

  /** The one row of records of weekday "1" worth 400 over two weeks. */
  lemma SingleRowAt(s: seq<Record>)
    requires Keys(s, WeekdayOf) == ["1"] && Group(s, WeekdayOf, "1") == s
    requires SumAmounts(s) == 400 && WeekCount(s) == 2
    ensures |DayRows(s)| == 1 && DayRows(s)[0] == DayAverage(1, 200.0)
  {
    assert ParseDigits("1") == 1 by { assert "1"[..0] == []; }
    var row := RowAt(s, 0);
    assert row.day == 1;
    assert row.average == Average(400, 2) == 200.0;
    assert DayRows(s)[0] == row;
  }

  /** Records of one weekday "1", worth 400 over two weeks, give one row averaging 200. */
  lemma SingleRow(s: seq<Record>)
    requires Keys(s, WeekdayOf) == ["1"] && Group(s, WeekdayOf, "1") == s
    requires SumAmounts(s) == 400 && WeekCount(s) == 2
    ensures AverageByWeekday(s) == [DayAverage(1, 200.0)]
  {
    SingleRowAt(s);
    var r, rows := DayRows(s), AverageByWeekday(s);
    assert r == [DayAverage(1, 200.0)];
    assert |rows| == 1 by { assert |multiset(rows)| == |multiset(r)|; }
    assert rows[0] in multiset(r);
  }

  /** Two lines on Monday 2024-01-01 worth 300 together and one on Monday
      2024-01-08 worth 100: two weeks, so the Monday average is 200. */
  lemma MondayExample(a: Record, b: Record, c: Record)
    requires OnDate(a.createdAt, 2024, 1, 1) && OnDate(b.createdAt, 2024, 1, 1) && OnDate(c.createdAt, 2024, 1, 8)
    requires a.amount + b.amount == 300 && c.amount == 100
    ensures AverageByWeekday([a, b, c]) == [DayAverage(1, 200.0)]
  {
    ExampleDates(a.createdAt);
    ExampleDates(b.createdAt);
    ExampleDates(c.createdAt);
    MondayLabels(a, b, c);
    OneWeekdayGroup(a, b, c);
    SumOfThree(a, b, c);
    TwoWeeks(a, b, c);
    SingleRow([a, b, c]);
  }

  /** Records on Mondays all get the key "1". */
  lemma MondayLabels(a: Record, b: Record, c: Record)
    requires IsoWeekday(a.createdAt) == 1 && IsoWeekday(b.createdAt) == 1 && IsoWeekday(c.createdAt) == 1
    ensures WeekdayOf(a) == WeekdayOf(b) == WeekdayOf(c) == "1"
  {
  }

  /** Two records of week 1 and one of week 2 span two weeks. */
  lemma TwoWeeks(a: Record, b: Record, c: Record)
    requires IsoWeekOf(a) == 1 && IsoWeekOf(b) == 1 && IsoWeekOf(c) == 2
    ensures WeekCount([a, b, c]) == 2
  {
    var s := [a, b, c];
    forall w | w in Image(s, IsoWeekOf)
      ensures w == 1 || w == 2
    {
      var x :| x in s && IsoWeekOf(x) == w;
    }
    assert 1 in Image(s, IsoWeekOf) && 2 in Image(s, IsoWeekOf);
    assert Image(s, IsoWeekOf) == {1, 2};
  }

  /** The count ignores the year: two lines on Monday 2024-01-01 and Monday
      2029-01-01 are both in week 1, so they count as one week. */
  lemma WeeksOfDifferentYearsMerge(a: Record, b: Record)
    requires OnDate(a.createdAt, 2024, 1, 1) && OnDate(b.createdAt, 2029, 1, 1)
    ensures WeekCount([a, b]) == 1
  {
    ExampleDates(a.createdAt);
    ExampleDates(b.createdAt);
    assert IsoWeekOf(a) == 1 && IsoWeekOf(b) == 1;
    forall w | w in Image([a, b], IsoWeekOf)
      ensures w == 1
    {
      var x :| x in [a, b] && IsoWeekOf(x) == w;
    }
    assert 1 in Image([a, b], IsoWeekOf);
    assert Image([a, b], IsoWeekOf) == {1};
  }
}

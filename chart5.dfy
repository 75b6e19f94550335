/** Average revenue per day of the month (C5.js): first write into every
    record, in place, the label "Ngày " + its two-digit day of the month; then
    roll the records up by that label, adding up the amounts and counting the
    distinct two-digit months "%m" of each group (the year is not part of the
    count); the average is the total over that count; order the rows by the
    position of their label in the 31 labels of the x-axis. */
module Chart5 {
  import opened Collections
  import opened Sorting
  import opened Text
  import opened Calendar
  import opened Records

  /** The label written into a record: "Ngày " and the day of the month padded to two digits. */
  function DayOfMonthLabel(t: Timestamp): string
    requires ValidTimestamp(t)
  {
    "Ngày " + DayLabel(t)
  }

  /** The labels "Ngày 01" up to day `n`. */
  function DayLabelsUpTo(n: nat): (labels: seq<string>)
    ensures |labels| == n
    ensures forall i | 0 <= i < n :: labels[i] == "Ngày " + PadZero(i + 1, 2)
  {
    if n == 0 then [] else DayLabelsUpTo(n - 1) + ["Ngày " + PadZero(n, 2)]
  }

  /** daysInMonth: the 31 labels "Ngày 01" to "Ngày 31" of the x-axis. */
  const DayLabels: seq<string> := DayLabelsUpTo(31)

  /** The annotation of one record. */
  function WithDayOfMonth(r: Record): Record {
    r.(extra := r.extra.(dayOfMonth := Some(DayOfMonthLabel(r.createdAt))))
  }

  /** The records after the annotation loop: each one carries its label, and
      apart from the label nothing about it has changed. */
  function DayAnnotated(s: seq<Record>): (t: seq<Record>)
    ensures |t| == |s|
    ensures forall i | 0 <= i < |s| :: t[i].extra.dayOfMonth == Some(DayOfMonthLabel(s[i].createdAt))
    ensures forall i | 0 <= i < |s| :: t[i].(extra := t[i].extra.(dayOfMonth := s[i].extra.dayOfMonth)) == s[i]
  {
    seq(|s|, i requires 0 <= i < |s| => WithDayOfMonth(s[i]))
  }

  /** data.forEach(d => d["Ngày trong tháng"] = ...): the annotation loop, in place. */
  method AnnotateDays(a: array<Record>)
    modifies a
    ensures a[..] == DayAnnotated(old(a[..]))
  {
    for i := 0 to a.Length
      invariant a[..i] == DayAnnotated(old(a[..]))[..i]
      invariant a[i..] == old(a[i..])
    {
      a[i] := WithDayOfMonth(a[i]);
    }
  }

  /** Every record carries the label of its own creation time. */
  predicate DaysAnnotated(t: seq<Record>) {
    forall x | x in t :: x.extra.dayOfMonth == Some(DayOfMonthLabel(x.createdAt))
  }

  lemma AnnotatedDays(s: seq<Record>)
    ensures DaysAnnotated(DayAnnotated(s))
  {
    var t := DayAnnotated(s);
    forall x | x in t
      ensures x.extra.dayOfMonth == Some(DayOfMonthLabel(x.createdAt))
    {
      var i :| 0 <= i < |t| && t[i] == x;
      assert x.createdAt == s[i].createdAt;
    }
  }

  /** A day's label is the entry of the x-axis at the day's position, and no earlier one. */
  lemma DayLabelIndex(t: Timestamp)
    requires ValidTimestamp(t)
    ensures DayOfMonthLabel(t) == DayLabels[t.day - 1]
    ensures IndexOf(DayLabels, DayOfMonthLabel(t)) == t.day - 1
  {
    var shown := DayOfMonthLabel(t);
    assert shown == DayLabels[t.day - 1];
    assert shown in DayLabels;
    var r := IndexOf(DayLabels, shown);
    assert DayLabels[r] == "Ngày " + PadZero(r + 1, 2);
    PrefixCancel("Ngày ", PadZero(r + 1, 2), PadZero(t.day, 2));
    PadZeroInjective(r + 1, t.day, 2);
  }

  /** The grouping key: the label the loop wrote; a record without one has the key None (undefined). */
  function DayOfMonthOf(r: Record): Option<string> {
    r.extra.dayOfMonth
  }

  /** The inner key: "%m" of the record's timestamp. */
  function MonthOf(r: Record): string {
    MonthLabel(r.createdAt)
  }

  function MonthNumberOf(r: Record): int {
    r.createdAt.month
  }

  /** How many different months of the year the records fall in, whatever their years. */
  function MonthCount(v: seq<Record>): nat {
    |Image(v, MonthNumberOf)|
  }

  /** The reducer: the sum of the amounts, and the size of the inner rollup by "%m". */
  function Summarize(v: seq<Record>): Totals {
    Totals(SumAmounts(v), |Keys(v, MonthOf)|)
  }

  /** The count is the number of distinct months: at least one for a non-empty
      group, and at most 12 however many years the records span. */
  lemma SummarizeCount(v: seq<Record>)
    ensures Summarize(v).count == MonthCount(v)
    ensures v != [] ==> MonthCount(v) >= 1
    ensures MonthCount(v) <= 12
  {
    KeysCount(v, MonthOf);
    forall x, y | x in v && y in v
      ensures MonthOf(x) == MonthOf(y) <==> MonthNumberOf(x) == MonthNumberOf(y)
    {
      MonthLabelSame(x.createdAt, y.createdAt);
    }
    ImageCardSame(v, MonthOf, MonthNumberOf);
    if v != [] {
      ImageNonEmpty(v, MonthNumberOf);
    }
    assert Image(v, MonthNumberOf) <= Range(1, 13);
    SubsetCard(Image(v, MonthNumberOf), Range(1, 13));
  }

  /** One bar of the chart: `day` (the label, or None for an unlabelled record) and `average`. */
  datatype DayAverage = DayAverage(day: Option<string>, average: real)

  /** The rollup: per label, its totals. */
  function ByDay(s: seq<Record>): seq<(Option<string>, Totals)> {
    Rollups(s, DayOfMonthOf, Summarize)
  }

  /** The .map step on the `i`-th row of the rollup: `average: total / count`. */
  function RowAt(s: seq<Record>, i: nat): (row: DayAverage)
    requires i < |Keys(s, DayOfMonthOf)|
    ensures row.day == Keys(s, DayOfMonthOf)[i]
    ensures MonthCount(Group(s, DayOfMonthOf, row.day)) >= 1
    ensures row.average == Average(SumAmounts(Group(s, DayOfMonthOf, row.day)), MonthCount(Group(s, DayOfMonthOf, row.day)))
  {
    var (day, totals) := ByDay(s)[i];
    assert day in Keys(s, DayOfMonthOf);
    SummarizeCount(Group(s, DayOfMonthOf, day));
    DayAverage(day, Average(totals.total, totals.count))
  }

  /** The rows before sorting: one per label, in order of first occurrence. */
  function DayRows(s: seq<Record>): (rows: seq<DayAverage>)
    ensures |rows| == |Keys(s, DayOfMonthOf)|
    ensures forall i | 0 <= i < |rows| :: rows[i] == RowAt(s, i)
  {
    seq(|Keys(s, DayOfMonthOf)|, i requires 0 <= i < |Keys(s, DayOfMonthOf)| => RowAt(s, i))
  }

  /** daysInMonth.indexOf(key): -1 for a key that is not one of the 31 labels. */
  function KeyIndex(k: Option<string>): int {
    if k.Some? then IndexOf(DayLabels, k.value) else -1
  }

  function DayIndex(row: DayAverage): int {
    KeyIndex(row.day)
  }

  /** The comparator: negative when `a`'s label comes earlier on the x-axis. */
  predicate DayFirst(a: DayAverage, b: DayAverage) {
    DayIndex(a) - DayIndex(b) < 0
  }

  lemma DayFirstOrder()
    ensures StrictWeakOrder(DayFirst)
  {
  }

  /** salesByDay: the rows ordered by the position of their label on the x-axis. */
  function AverageByDayOfMonth(s: seq<Record>): (rows: seq<DayAverage>)
    ensures multiset(rows) == multiset(DayRows(s))
    ensures forall i, j | 0 <= i < j < |rows| :: DayIndex(rows[i]) <= DayIndex(rows[j])
  {
    var r := DayRows(s);
    DayFirstOrder();
    SortByPermutes(r, DayFirst);
    SortBySorted(r, DayFirst);
    SortBy(r, DayFirst)
  }

  /** In annotated records every key is the label of a record's day, at that day's position on the x-axis. */
  lemma KeyIsDay(t: seq<Record>, k: Option<string>) returns (x: Record)
    requires DaysAnnotated(t)
    requires Group(t, DayOfMonthOf, k) != []
    ensures x in Group(t, DayOfMonthOf, k)
    ensures k == Some(DayOfMonthLabel(x.createdAt)) && k == Some(DayLabels[x.createdAt.day - 1])
    ensures KeyIndex(k) == x.createdAt.day - 1
  {
    x := Group(t, DayOfMonthOf, k)[0];
    assert x in Group(t, DayOfMonthOf, k);
    DayLabelIndex(x.createdAt);
  }

  /** Two keys at the same position are the same key. */
  lemma KeysByDayIndex(t: seq<Record>, k: Option<string>, k': Option<string>)
    requires DaysAnnotated(t)
    requires Group(t, DayOfMonthOf, k) != [] && Group(t, DayOfMonthOf, k') != []
    requires KeyIndex(k) == KeyIndex(k')
    ensures k == k'
  {
    var x := KeyIsDay(t, k);
    var y := KeyIsDay(t, k');
  }

  /** Pigeonhole over the 31 labels: at most 31 keys. */
  lemma DayKeysAtMost31(t: seq<Record>)
    requires DaysAnnotated(t)
    ensures |Keys(t, DayOfMonthOf)| <= 31
  {
    var ks := Keys(t, DayOfMonthOf);
    forall i | 0 <= i < |ks|
      ensures 0 <= KeyIndex(ks[i]) < 31
    {
      assert ks[i] in ks;
      var _ := KeyIsDay(t, ks[i]);
    }
    forall i, j | 0 <= i < |ks| && 0 <= j < |ks| && KeyIndex(ks[i]) == KeyIndex(ks[j])
      ensures i == j
    {
      assert ks[i] in ks && ks[j] in ks;
      KeysByDayIndex(t, ks[i], ks[j]);
    }
    DistinctCodesBound(ks, KeyIndex, 0, 31);
  }

  /** Each sorted row is one of the unsorted rows. */
  lemma RowSource(s: seq<Record>, i: nat) returns (p: nat)
    requires i < |AverageByDayOfMonth(s)|
    ensures p < |Keys(s, DayOfMonthOf)| && AverageByDayOfMonth(s)[i] == RowAt(s, p)
  {
    var r := DayRows(s);
    assert AverageByDayOfMonth(s)[i] in multiset(r);
    p :| 0 <= p < |r| && r[p] == AverageByDayOfMonth(s)[i];
  }

  /** Each row stands for a day of the month present in the input: its label is
      the x-axis entry at its position, and its average is its group's total
      over its group's number of months. */
  lemma RowOfDay(t: seq<Record>, i: nat) returns (k: Option<string>)
    requires DaysAnnotated(t)
    requires i < |AverageByDayOfMonth(t)|
    ensures Group(t, DayOfMonthOf, k) != [] && MonthCount(Group(t, DayOfMonthOf, k)) >= 1
    ensures AverageByDayOfMonth(t)[i]
      == DayAverage(k, Average(SumAmounts(Group(t, DayOfMonthOf, k)), MonthCount(Group(t, DayOfMonthOf, k))))
    ensures 0 <= DayIndex(AverageByDayOfMonth(t)[i]) < 31
    ensures AverageByDayOfMonth(t)[i].day == Some(DayLabels[DayIndex(AverageByDayOfMonth(t)[i])])
  {
    var p := RowSource(t, i);
    k := Keys(t, DayOfMonthOf)[p];
    assert k in Keys(t, DayOfMonthOf);
    var _ := KeyIsDay(t, k);
  }

  /** Two rows never come from the same key. */
  lemma RowsDistinct(t: seq<Record>, i: nat, j: nat)
    requires i < j < |AverageByDayOfMonth(t)|
    ensures AverageByDayOfMonth(t)[i].day != AverageByDayOfMonth(t)[j].day
  {
    var r, rows := DayRows(t), AverageByDayOfMonth(t);
    var ks := Keys(t, DayOfMonthOf);
    var day := (row: DayAverage) => row.day;
    forall p, q | 0 <= p < q < |r|
      ensures day(r[p]) != day(r[q])
    {
      assert r[p] == RowAt(t, p) && r[q] == RowAt(t, q);
      assert ks[p] != ks[q];
    }
    PermutationKeepsDistinctKeys(r, rows, day);
    assert day(rows[i]) != day(rows[j]);
  }

  /** At most 31 rows, each labelled with an x-axis entry, strictly in the order of the x-axis. */
  lemma AverageByDayOfMonthRows(t: seq<Record>)
    requires DaysAnnotated(t)
    ensures |AverageByDayOfMonth(t)| <= 31
    ensures forall i | 0 <= i < |AverageByDayOfMonth(t)| ::
      0 <= DayIndex(AverageByDayOfMonth(t)[i]) < 31
      && AverageByDayOfMonth(t)[i].day == Some(DayLabels[DayIndex(AverageByDayOfMonth(t)[i])])
    ensures forall i, j | 0 <= i < j < |AverageByDayOfMonth(t)| ::
      DayIndex(AverageByDayOfMonth(t)[i]) < DayIndex(AverageByDayOfMonth(t)[j])
  {
    var rows := AverageByDayOfMonth(t);
    assert |rows| == |DayRows(t)| by { assert |multiset(rows)| == |multiset(DayRows(t))|; }
    DayKeysAtMost31(t);
    forall i | 0 <= i < |rows|
      ensures 0 <= DayIndex(rows[i]) < 31 && rows[i].day == Some(DayLabels[DayIndex(rows[i])])
    {
      var _ := RowOfDay(t, i);
    }
    forall i, j | 0 <= i < j < |rows|
      ensures DayIndex(rows[i]) < DayIndex(rows[j])
    {
      var k := RowOfDay(t, i);
      var k' := RowOfDay(t, j);
      if DayIndex(rows[i]) == DayIndex(rows[j]) {
        KeysByDayIndex(t, k, k');
        RowsDistinct(t, i, j);
      }
    }
  }

  /** Every record's day has a row, holding the average of the records of that day of the month. */
  lemma AverageByDayOfMonthCovers(t: seq<Record>, x: Record)
    requires DaysAnnotated(t)
    requires x in t
    ensures MonthCount(Group(t, DayOfMonthOf, DayOfMonthOf(x))) >= 1
    ensures exists i | 0 <= i < |AverageByDayOfMonth(t)| ::
      AverageByDayOfMonth(t)[i].day == Some(DayOfMonthLabel(x.createdAt))
      && AverageByDayOfMonth(t)[i].average
        == Average(SumAmounts(Group(t, DayOfMonthOf, DayOfMonthOf(x))), MonthCount(Group(t, DayOfMonthOf, DayOfMonthOf(x))))
  {
    var r, rows := DayRows(t), AverageByDayOfMonth(t);
    var ks := Keys(t, DayOfMonthOf);
    assert x in Group(t, DayOfMonthOf, DayOfMonthOf(x));
    assert DayOfMonthOf(x) in ks;
    var k :| 0 <= k < |ks| && ks[k] == DayOfMonthOf(x);
    assert r[k] == RowAt(t, k);
    assert r[k] in multiset(rows);
    var i :| 0 <= i < |rows| && rows[i] == r[k];
    assert rows[i].day == Some(DayOfMonthLabel(x.createdAt));
  }

  /** The records a row averages are exactly those created on the row's day of the month. */
  lemma GroupOnDay(t: seq<Record>, x: Record, y: Record)
    requires DaysAnnotated(t)
    requires x in t && y in t
    ensures y in Group(t, DayOfMonthOf, DayOfMonthOf(x)) <==> y.createdAt.day == x.createdAt.day
  {
    DayLabelIndex(x.createdAt);
    DayLabelIndex(y.createdAt);
  }
}

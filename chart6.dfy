/** Average revenue per hour slot (C6.js): first write into every record, in
    place, its hour slot "%H:00-%H:59" and its date "%Y-%m-%d"; then roll the
    records up by hour slot, adding up the amounts and counting the distinct
    dates of each group; the average is the total over that count; keep the
    rows whose average is positive and sort them by hour slot as strings. */
module Chart6 {
  import opened Collections
  import opened Sorting
  import opened Text
  import opened Calendar
  import opened Records

  /** The annotation of one record: "Khung giờ" and "Ngày cụ thể". */
  function WithHourAndDate(r: Record): Record {
    r.(extra := r.extra.(hourSlot := Some(HourLabel(r.createdAt)), dateText := Some(DateLabel(r.createdAt))))
  }

  /** The records after the annotation loop: each one carries its hour slot and
      its date, and apart from these two fields nothing about it has changed. */
  function HourAnnotated(s: seq<Record>): (t: seq<Record>)
    ensures |t| == |s|
    ensures forall i | 0 <= i < |s| ::
      t[i].extra.hourSlot == Some(HourLabel(s[i].createdAt)) && t[i].extra.dateText == Some(DateLabel(s[i].createdAt))
    ensures forall i | 0 <= i < |s| ::
      t[i].(extra := t[i].extra.(hourSlot := s[i].extra.hourSlot, dateText := s[i].extra.dateText)) == s[i]
  {
    seq(|s|, i requires 0 <= i < |s| => WithHourAndDate(s[i]))
  }

  /** data.forEach(d => { d["Khung giờ"] = ...; d["Ngày cụ thể"] = ...; }): the annotation loop, in place. */
  method AnnotateHours(a: array<Record>)
    modifies a
    ensures a[..] == HourAnnotated(old(a[..]))
  {
    for i := 0 to a.Length
      invariant a[..i] == HourAnnotated(old(a[..]))[..i]
      invariant a[i..] == old(a[i..])
    {
      a[i] := WithHourAndDate(a[i]);
    }
  }

  /** Every record carries the hour slot and the date of its own creation time. */
  predicate HoursAnnotated(t: seq<Record>) {
    forall x | x in t :: x.extra.hourSlot == Some(HourLabel(x.createdAt)) && x.extra.dateText == Some(DateLabel(x.createdAt))
  }

  lemma AnnotatedHours(s: seq<Record>)
    ensures HoursAnnotated(HourAnnotated(s))
  {
    var t := HourAnnotated(s);
    forall x | x in t
      ensures x.extra.hourSlot == Some(HourLabel(x.createdAt)) && x.extra.dateText == Some(DateLabel(x.createdAt))
    {
      var i :| 0 <= i < |t| && t[i] == x;
      assert x == WithHourAndDate(s[i]);
    }
  }

  /** The grouping key: the hour slot the loop wrote (None, undefined, for a record without one). */
  function HourSlotOf(r: Record): Option<string> {
    r.extra.hourSlot
  }

  /** The inner key: the date the loop wrote. */
  function DateTextOf(r: Record): Option<string> {
    r.extra.dateText
  }

  function DateOf(r: Record): (int, int, int) {
    (r.createdAt.year, r.createdAt.month, r.createdAt.day)
  }

  /** How many different calendar dates the records fall on. */
  function DateCount(v: seq<Record>): nat {
    |Image(v, DateOf)|
  }

  /** The reducer: the sum of the amounts, and the size of the inner rollup by date. */
  function Summarize(v: seq<Record>): Totals {
    Totals(SumAmounts(v), |Keys(v, DateTextOf)|)
  }

  /** On annotated records the count is the number of distinct calendar dates. */
  lemma SummarizeCount(v: seq<Record>)
    requires HoursAnnotated(v)
    ensures Summarize(v).count == DateCount(v)
  {
    KeysCount(v, DateTextOf);
    forall x, y | x in v && y in v
      ensures DateTextOf(x) == DateTextOf(y) <==> DateOf(x) == DateOf(y)
    {
      DateLabelSame(x.createdAt, y.createdAt);
    }
    ImageCardSame(v, DateTextOf, DateOf);
  }

  /** One bar of the chart: `hour` and `average`. */
  datatype HourAverage = HourAverage(hour: Option<string>, average: real)

  /** The rollup: per hour slot, its totals. */
  function ByHour(s: seq<Record>): seq<(Option<string>, Totals)> {
    Rollups(s, HourSlotOf, Summarize)
  }

  /** The .map step on the `i`-th row of the rollup: `average: total / count`. */
  function RowAt(s: seq<Record>, i: nat): (row: HourAverage)
    requires i < |Keys(s, HourSlotOf)|
    ensures row.hour == Keys(s, HourSlotOf)[i]
    ensures Summarize(Group(s, HourSlotOf, row.hour)).count >= 1
    ensures row.average == Average(SumAmounts(Group(s, HourSlotOf, row.hour)), Summarize(Group(s, HourSlotOf, row.hour)).count)
  {
    var (hour, totals) := ByHour(s)[i];
    assert hour in Keys(s, HourSlotOf);
    KeysFirst(Group(s, HourSlotOf, hour), DateTextOf);
    HourAverage(hour, Average(totals.total, totals.count))
  }

  /** The rows before filtering: one per hour slot, in order of first occurrence. */
  function HourRows(s: seq<Record>): (rows: seq<HourAverage>)
    ensures |rows| == |Keys(s, HourSlotOf)|
    ensures forall i | 0 <= i < |rows| :: rows[i] == RowAt(s, i)
  {
    seq(|Keys(s, HourSlotOf)|, i requires 0 <= i < |Keys(s, HourSlotOf)| => RowAt(s, i))
  }

  /** The filter: `d.average > 0`. */
  function Positive(row: HourAverage): bool {
    row.average > 0.0
  }

  /** The comparator `d3.ascending(a.hour, b.hour)` is negative exactly when both
      slots are strings and the first is smaller; an undefined slot compares as
      NaN, before nothing. */
  predicate HourFirst(a: HourAverage, b: HourAverage) {
    a.hour.Some? && b.hour.Some? && StringLess(a.hour.value, b.hour.value)
  }

  /** salesByHour: the positive rows sorted by hour slot. */
  function AverageByHour(s: seq<Record>): (rows: seq<HourAverage>)
    ensures multiset(rows) == multiset(Filter(HourRows(s), Positive))
  {
    var r := Filter(HourRows(s), Positive);
    SortByPermutes(r, HourFirst);
    SortBy(r, HourFirst)
  }

  /** The hour a slot label starts with: Number of its first two characters (-1 for no slot). */
  function SlotHour(k: Option<string>): int {
    if k.Some? && |k.value| >= 2 then ParseDigits(k.value[..2]) else -1
  }

  lemma SlotHourOf(t: Timestamp)
    requires ValidTimestamp(t)
    ensures SlotHour(Some(HourLabel(t))) == t.hour
  {
    TwoDigits(t.hour);
    assert HourLabel(t)[..2] == PadZero(t.hour, 2);
    TwoDigitsRoundTrip(t.hour);
  }

  /** In annotated records every key is the hour slot of a record, naming that record's hour. */
  lemma KeyIsHour(t: seq<Record>, k: Option<string>) returns (x: Record)
    requires HoursAnnotated(t)
    requires Group(t, HourSlotOf, k) != []
    ensures x in t && x in Group(t, HourSlotOf, k)
    ensures k == Some(HourLabel(x.createdAt)) && SlotHour(k) == x.createdAt.hour
    ensures 0 <= SlotHour(k) < 24
  {
    x := Group(t, HourSlotOf, k)[0];
    assert x in Group(t, HourSlotOf, k);
    SlotHourOf(x.createdAt);
  }

  /** Two keys naming the same hour are the same key. */
  lemma KeysByHour(t: seq<Record>, k: Option<string>, k': Option<string>)
    requires HoursAnnotated(t)
    requires Group(t, HourSlotOf, k) != [] && Group(t, HourSlotOf, k') != []
    requires SlotHour(k) == SlotHour(k')
    ensures k == k'
  {
    var x := KeyIsHour(t, k);
    var y := KeyIsHour(t, k');
    HourLabelSame(x.createdAt, y.createdAt);
  }

  /** Pigeonhole over the hours of the day: at most 24 hour slots. */
  lemma HourKeysAtMost24(t: seq<Record>)
    requires HoursAnnotated(t)
    ensures |Keys(t, HourSlotOf)| <= 24
  {
    var ks := Keys(t, HourSlotOf);
    forall i | 0 <= i < |ks|
      ensures 0 <= SlotHour(ks[i]) < 24
    {
      assert ks[i] in ks;
      var _ := KeyIsHour(t, ks[i]);
    }
    forall i, j | 0 <= i < |ks| && 0 <= j < |ks| && SlotHour(ks[i]) == SlotHour(ks[j])
      ensures i == j
    {
      assert ks[i] in ks && ks[j] in ks;
      KeysByHour(t, ks[i], ks[j]);
    }
    DistinctCodesBound(ks, SlotHour, 0, 24);
  }

  /** Each output row is a positive row of the rollup. */
  lemma RowSource(s: seq<Record>, i: nat) returns (p: nat)
    requires i < |AverageByHour(s)|
    ensures p < |Keys(s, HourSlotOf)| && AverageByHour(s)[i] == RowAt(s, p)
    ensures Positive(AverageByHour(s)[i])
  {
    var h, r := HourRows(s), Filter(HourRows(s), Positive);
    var row := AverageByHour(s)[i];
    assert row in multiset(r);
    assert row in h;
    p :| 0 <= p < |h| && h[p] == row;
  }

  /** Each row stands for an hour of the day present in the input, with a
      positive average: its group's total over its group's number of dates. */
  lemma RowOfHour(t: seq<Record>, i: nat) returns (x: Record)
    requires HoursAnnotated(t)
    requires i < |AverageByHour(t)|
    ensures x in t && AverageByHour(t)[i].hour == Some(HourLabel(x.createdAt))
    ensures SlotHour(AverageByHour(t)[i].hour) == x.createdAt.hour
    ensures DateCount(Group(t, HourSlotOf, AverageByHour(t)[i].hour)) >= 1
    ensures AverageByHour(t)[i].average
      == Average(SumAmounts(Group(t, HourSlotOf, AverageByHour(t)[i].hour)), DateCount(Group(t, HourSlotOf, AverageByHour(t)[i].hour)))
    ensures AverageByHour(t)[i].average > 0.0
  {
    var p := RowSource(t, i);
    var k := Keys(t, HourSlotOf)[p];
    assert k in Keys(t, HourSlotOf);
    x := KeyIsHour(t, k);
    var g := Group(t, HourSlotOf, k);
    assert HoursAnnotated(g);
    SummarizeCount(g);
  }

  /** Labels compared as strings; a row without a slot counts as the empty string. */
  function HourText(row: HourAverage): string {
    if row.hour.Some? then row.hour.value else ""
  }

  predicate LabelFirst(a: HourAverage, b: HourAverage) {
    StringLess(HourText(a), HourText(b))
  }

  lemma LabelFirstOrder()
    ensures StrictWeakOrder(LabelFirst)
  {
    forall a: HourAverage, b: HourAverage
      ensures LabelFirst(a, b) ==> !LabelFirst(b, a)
    {
      StringLessOrder(HourText(a), HourText(b), HourText(a));
    }
    forall a: HourAverage, b: HourAverage, c: HourAverage
      ensures !LabelFirst(a, b) && !LabelFirst(b, c) ==> !LabelFirst(a, c)
    {
      StringLessOrder(HourText(a), HourText(b), HourText(c));
    }
  }

  /** No two output rows share an hour slot. */
  lemma RowsDistinct(s: seq<Record>)
    ensures forall i, j | 0 <= i < j < |AverageByHour(s)| :: AverageByHour(s)[i].hour != AverageByHour(s)[j].hour
  {
    var h, ks := HourRows(s), Keys(s, HourSlotOf);
    var r, rows := Filter(h, Positive), AverageByHour(s);
    var hour := (row: HourAverage) => row.hour;
    forall p, q | 0 <= p < q < |h|
      ensures hour(h[p]) != hour(h[q])
    {
      assert h[p] == RowAt(s, p) && h[q] == RowAt(s, q);
      assert ks[p] != ks[q];
    }
    FilterKeepsDistinctKeys(h, Positive, hour);
    PermutationKeepsDistinctKeys(r, rows, hour);
    assert forall i, j | 0 <= i < j < |rows| :: hour(rows[i]) != hour(rows[j]);
  }

  /** On annotated records the comparator sorts as plain string order does,
      so the rows come in ascending order of their labels. */
  lemma AverageByHourSorted(t: seq<Record>)
    requires HoursAnnotated(t)
    ensures Sorted(AverageByHour(t), LabelFirst)
  {
    var r := Filter(HourRows(t), Positive);
    forall row | row in r
      ensures row.hour.Some?
    {
      var i :| 0 <= i < |r| && r[i] == row;
      SortByPermutes(r, HourFirst);
      assert row in multiset(AverageByHour(t));
      var j :| 0 <= j < |AverageByHour(t)| && AverageByHour(t)[j] == row;
      var _ := RowOfHour(t, j);
    }
    SortByAgree(r, HourFirst, LabelFirst);
    LabelFirstOrder();
    SortBySorted(r, LabelFirst);
  }

  /** At most 24 rows, each the slot of an hour of the day with a positive
      average, strictly ascending both as strings and as hours: the zero
      padding makes the two orders agree. */
  lemma AverageByHourRows(t: seq<Record>)
    requires HoursAnnotated(t)
    ensures |AverageByHour(t)| <= 24
    ensures forall i | 0 <= i < |AverageByHour(t)| ::
      AverageByHour(t)[i].hour.Some? && 0 <= SlotHour(AverageByHour(t)[i].hour) < 24 && AverageByHour(t)[i].average > 0.0
    ensures forall i, j | 0 <= i < j < |AverageByHour(t)| ::
      StringLess(HourText(AverageByHour(t)[i]), HourText(AverageByHour(t)[j]))
      && SlotHour(AverageByHour(t)[i].hour) < SlotHour(AverageByHour(t)[j].hour)
  {
    var rows := AverageByHour(t);
    var r := Filter(HourRows(t), Positive);
    assert |rows| == |r| by { assert |multiset(rows)| == |multiset(r)|; }
    HourKeysAtMost24(t);
    forall i | 0 <= i < |rows|
      ensures rows[i].hour.Some? && 0 <= SlotHour(rows[i].hour) < 24 && rows[i].average > 0.0
    {
      var x := RowOfHour(t, i);
    }
    AverageByHourSorted(t);
    RowsDistinct(t);
    forall i, j | 0 <= i < j < |rows|
      ensures StringLess(HourText(rows[i]), HourText(rows[j])) && SlotHour(rows[i].hour) < SlotHour(rows[j].hour)
    {
      var x := RowOfHour(t, i);
      var y := RowOfHour(t, j);
      assert !LabelFirst(rows[j], rows[i]);
      StringLessTotal(HourText(rows[i]), HourText(rows[j]));
      HourLabelOrder(x.createdAt, y.createdAt);
    }
  }

  /** A record's hour slot has a row exactly when the records of that slot add up to a positive total. */
  lemma AverageByHourCovers(t: seq<Record>, x: Record)
    requires HoursAnnotated(t)
    requires x in t
    ensures (exists i | 0 <= i < |AverageByHour(t)| :: AverageByHour(t)[i].hour == Some(HourLabel(x.createdAt)))
      <==> SumAmounts(Group(t, HourSlotOf, HourSlotOf(x))) > 0
  {
    var rows := AverageByHour(t);
    if SumAmounts(Group(t, HourSlotOf, HourSlotOf(x))) > 0 {
      var i := PositiveSlotShown(t, x);
    }
    if exists i | 0 <= i < |rows| :: rows[i].hour == Some(HourLabel(x.createdAt)) {
      var i :| 0 <= i < |rows| && rows[i].hour == Some(HourLabel(x.createdAt));
      ShownSlotPositive(t, i);
    }
  }

  /** A slot whose records add up to a positive total is shown. */
  lemma PositiveSlotShown(t: seq<Record>, x: Record) returns (i: nat)
    requires HoursAnnotated(t)
    requires x in t
    requires SumAmounts(Group(t, HourSlotOf, HourSlotOf(x))) > 0
    ensures i < |AverageByHour(t)| && AverageByHour(t)[i].hour == Some(HourLabel(x.createdAt))
  {
    var h, ks := HourRows(t), Keys(t, HourSlotOf);
    var r, rows := Filter(h, Positive), AverageByHour(t);
    var g := Group(t, HourSlotOf, HourSlotOf(x));
    assert x in g;
    assert HourSlotOf(x) in ks;
    var k :| 0 <= k < |ks| && ks[k] == HourSlotOf(x);
    var row := RowAt(t, k);
    assert row.hour == HourSlotOf(x);
    assert row.average == Average(SumAmounts(g), Summarize(g).count);
    AverageSign(SumAmounts(g), Summarize(g).count);
    assert Positive(row);
    assert h[k] == row;
    assert row in h;
    assert row in r;
    assert row in multiset(rows);
    i :| 0 <= i < |rows| && rows[i] == row;
  }

  /** A shown slot's records add up to a positive total. */
  lemma ShownSlotPositive(t: seq<Record>, i: nat)
    requires i < |AverageByHour(t)|
    ensures SumAmounts(Group(t, HourSlotOf, AverageByHour(t)[i].hour)) > 0
  {
    var rows := AverageByHour(t);
    var p := RowSource(t, i);
    var g := Group(t, HourSlotOf, rows[i].hour);
    AverageSign(SumAmounts(g), Summarize(g).count);
  }
}

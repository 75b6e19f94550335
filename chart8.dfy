/** Purchase probability of each category by month (C8.js): rewrite every
    record in place (its month number, its order id trimmed, its category
    label "Nhóm gộp"); count the distinct orders of each month and of each
    (month, category) pair with two rollups; put the month counts in an object
    keyed by month; then push one point per (month, category) pair, the pair's
    count over the month's count; finally group the points into one line per
    category. Records of different years with the same month number are one
    month. */
module Chart8 {
  import opened Collections
  import opened Text
  import opened Calendar
  import opened Records

  /** The rewrite of one record: "Tháng", the trimmed "Mã đơn hàng" and "Nhóm gộp". */
  function Rewrite(r: Record): Record {
    r.(orderId := Trim(r.orderId),
       extra := r.extra.(month := Some(r.createdAt.month), categoryGroup := Some(CategoryLabel(r))))
  }

  /** The records after the rewrite loop: each carries its month and category
      label and a trimmed order id, and nothing else about it has changed. */
  function Rewritten(s: seq<Record>): (t: seq<Record>)
    ensures |t| == |s|
    ensures forall i | 0 <= i < |s| ::
      && t[i].orderId == Trim(s[i].orderId)
      && t[i].extra.month == Some(s[i].createdAt.month)
      && t[i].extra.categoryGroup == Some(CategoryLabel(s[i]))
    ensures forall i | 0 <= i < |s| ::
      t[i].(orderId := s[i].orderId, extra := t[i].extra.(month := s[i].extra.month, categoryGroup := s[i].extra.categoryGroup)) == s[i]
  {
    seq(|s|, i requires 0 <= i < |s| => Rewrite(s[i]))
  }

  /** rawData.forEach(d => { ... }): the rewrite loop, in place. */
  method RewriteAll(a: array<Record>)
    modifies a
    ensures a[..] == Rewritten(old(a[..]))
  {
    for i := 0 to a.Length
      invariant a[..i] == Rewritten(old(a[..]))[..i]
      invariant a[i..] == old(a[i..])
    {
      a[i] := Rewrite(a[i]);
    }
  }

  /** Every record carries its own month and category label, and its order id is trimmed. */
  predicate IsRewritten(t: seq<Record>) {
    forall x | x in t ::
      x.extra.month == Some(x.createdAt.month) && x.extra.categoryGroup == Some(CategoryLabel(x))
      && Trim(x.orderId) == x.orderId
  }

  lemma RewrittenHolds(s: seq<Record>)
    ensures IsRewritten(Rewritten(s))
  {
    var t := Rewritten(s);
    forall x | x in t
      ensures x.extra.month == Some(x.createdAt.month) && x.extra.categoryGroup == Some(CategoryLabel(x))
      ensures Trim(x.orderId) == x.orderId
    {
      var i :| 0 <= i < |t| && t[i] == x;
      TrimIdempotent(s[i].orderId);
    }
  }

  function TrimmedOrderIdOf(r: Record): string { Trim(r.orderId) }

  /** After the rewrite, order ids that differ only by surrounding whitespace are one order. */
  lemma RewrittenOrders(s: seq<Record>)
    ensures DistinctOrders(Rewritten(s)) == |Image(s, TrimmedOrderIdOf)|
  {
    var t := Rewritten(s);
    forall id
      ensures id in Image(t, OrderIdOf) <==> id in Image(s, TrimmedOrderIdOf)
    {
      if id in Image(t, OrderIdOf) {
        var x :| x in t && x.orderId == id;
        var i :| 0 <= i < |t| && t[i] == x;
        assert s[i] in s;
      }
      if id in Image(s, TrimmedOrderIdOf) {
        var x :| x in s && Trim(x.orderId) == id;
        var i :| 0 <= i < |s| && s[i] == x;
        assert t[i] in t;
      }
    }
    assert Image(t, OrderIdOf) == Image(s, TrimmedOrderIdOf);
  }

  /** The keys the rollups read: undefined (None) on a record the rewrite has not reached. */
  function MonthField(r: Record): Option<int> { r.extra.month }
  function GroupField(r: Record): Option<string> { r.extra.categoryGroup }

  /** The inner rollup: distinct orders per category label of one month's records. */
  function GroupCounts(v: seq<Record>): seq<(Option<string>, nat)> {
    Rollups(v, GroupField, DistinctOrders)
  }

  /** groupByMonthGroup. */
  function ByMonthGroup(t: seq<Record>): seq<(Option<int>, seq<(Option<string>, nat)>)> {
    Rollups(t, MonthField, GroupCounts)
  }

  /** totalDistinctOrdersByMonth. */
  function MonthTotals(t: seq<Record>): seq<(Option<int>, nat)> {
    Rollups(t, MonthField, DistinctOrders)
  }

  /** One point of a line: `month` (+month, NaN for an undefined month), `group` and `probability`. */
  datatype Point = Point(month: Option<int>, group: Option<string>, probability: Quotient)

  /** The points one month pushes: each group's count over the month's total. */
  function MonthBlock(month: Option<int>, groups: seq<(Option<string>, nat)>, total: Option<nat>): (ps: seq<Point>)
    ensures |ps| == |groups|
    ensures forall j | 0 <= j < |groups| :: ps[j] == Point(month, groups[j].0, Divide(groups[j].1, total))
    decreases |groups|
  {
    if groups == [] then []
    else
      var last := groups[|groups| - 1];
      MonthBlock(month, groups[..|groups| - 1], total) + [Point(month, last.0, Divide(last.1, total))]
  }

  /** The points the two nested forEach loops push, month by month, reading each month's total from `totals`. */
  function Points(b: seq<(Option<int>, seq<(Option<string>, nat)>)>, totals: map<Option<int>, nat>): seq<Point>
    decreases |b|
  {
    if b == [] then []
    else
      var last := b[|b| - 1];
      Points(b[..|b| - 1], totals) + MonthBlock(last.0, last.1, Lookup(totals, last.0))
  }

  /** The push loops. */
  method PushPoints(b: seq<(Option<int>, seq<(Option<string>, nat)>)>, totals: map<Option<int>, nat>) returns (data: seq<Point>)
    ensures data == Points(b, totals)
  {
    data := [];
    for i := 0 to |b|
      invariant data == Points(b[..i], totals)
    {
      var month, groups := b[i].0, b[i].1;
      var totalInMonth := Lookup(totals, month);
      ghost var before := data;
      for j := 0 to |groups|
        invariant data == before + MonthBlock(month, groups[..j], totalInMonth)
      {
        assert groups[..j + 1][..j] == groups[..j];
        data := data + [Point(month, groups[j].0, Divide(groups[j].1, totalInMonth))];
      }
      assert groups[..|groups|] == groups;
      assert b[..i + 1][..i] == b[..i];
    }
    assert b[..|b|] == b;
  }

  /** The whole prelude on the loaded rows: rewrite, roll up, fill the month object, push. */
  method ProbabilityByMonth(a: array<Record>) returns (data: seq<Point>)
    modifies a
    ensures a[..] == Rewritten(old(a[..]))
    ensures data == MonthPoints(a[..])
  {
    RewriteAll(a);
    var totals := FillObject(MonthTotals(a[..]));
    data := PushPoints(ByMonthGroup(a[..]), totals);
  }

  /** `data` for the records `t`. */
  function MonthPoints(t: seq<Record>): seq<Point> {
    Points(ByMonthGroup(t), Assoc(MonthTotals(t)))
  }

  /** Every pushed point comes from one group of one month. */
  lemma {:induction false} PointFrom(b: seq<(Option<int>, seq<(Option<string>, nat)>)>, totals: map<Option<int>, nat>, pt: Point)
    returns (i: nat, j: nat)
    requires pt in Points(b, totals)
    ensures i < |b| && j < |b[i].1|
    ensures pt == Point(b[i].0, b[i].1[j].0, Divide(b[i].1[j].1, Lookup(totals, b[i].0)))
    decreases |b|
  {
    var p, last := b[..|b| - 1], b[|b| - 1];
    var block := MonthBlock(last.0, last.1, Lookup(totals, last.0));
    if pt in Points(p, totals) {
      i, j := PointFrom(p, totals, pt);
      assert b[i] == p[i];
    } else {
      assert pt in block;
      i := |b| - 1;
      j :| 0 <= j < |block| && block[j] == pt;
    }
  }

  /** Every group of every month is pushed. */
  lemma {:induction false} PointIn(b: seq<(Option<int>, seq<(Option<string>, nat)>)>, totals: map<Option<int>, nat>, i: nat, j: nat)
    requires i < |b| && j < |b[i].1|
    ensures Point(b[i].0, b[i].1[j].0, Divide(b[i].1[j].1, Lookup(totals, b[i].0))) in Points(b, totals)
    decreases |b|
  {
    var p, last := b[..|b| - 1], b[|b| - 1];
    var block := MonthBlock(last.0, last.1, Lookup(totals, last.0));
    if i < |b| - 1 {
      assert b[i] == p[i];
      PointIn(p, totals, i, j);
    } else {
      assert block[j] in block;
    }
  }

  function MonthAndGroup(pt: Point): (Option<int>, Option<string>) { (pt.month, pt.group) }

  /** With no month twice and no group twice within a month, no (month, group) pair is pushed twice. */
  lemma {:induction false} PointsDistinct(b: seq<(Option<int>, seq<(Option<string>, nat)>)>, totals: map<Option<int>, nat>)
    requires forall i, i' | 0 <= i < i' < |b| :: b[i].0 != b[i'].0
    requires forall i, j, j' | 0 <= i < |b| && 0 <= j < j' < |b[i].1| :: b[i].1[j].0 != b[i].1[j'].0
    ensures DistinctBy(Points(b, totals), MonthAndGroup)
    decreases |b|
  {
    if b != [] {
      var p, last := b[..|b| - 1], b[|b| - 1];
      var block := MonthBlock(last.0, last.1, Lookup(totals, last.0));
      PointsDistinct(p, totals);
      forall x, y | x in Points(p, totals) && y in block
        ensures MonthAndGroup(x) != MonthAndGroup(y)
      {
        var i, j := PointFrom(p, totals, x);
        assert b[i] == p[i];
      }
      forall j, j' | 0 <= j < j' < |block|
        ensures MonthAndGroup(block[j]) != MonthAndGroup(block[j'])
      {
        assert last == b[|b| - 1];
      }
      DistinctByAppend(Points(p, totals), block, MonthAndGroup);
    }
  }

  /** The records of month `m`, and of category label `g` within them. */
  function MonthRecords(t: seq<Record>, m: Option<int>): seq<Record> {
    Group(t, MonthField, m)
  }

  function PairRecords(t: seq<Record>, m: Option<int>, g: Option<string>): seq<Record> {
    Group(MonthRecords(t, m), GroupField, g)
  }

  /** The fraction of a month's orders that hold a line of category `g`. */
  function Share(t: seq<Record>, m: Option<int>, g: Option<string>): (p: real)
    requires PairRecords(t, m, g) != []
    ensures 0.0 < p <= 1.0
  {
    var v, w := MonthRecords(t, m), PairRecords(t, m, g);
    DistinctOrdersOfPart(w, v);
    RatioBounds(DistinctOrders(w), DistinctOrders(v));
    Ratio(DistinctOrders(w), DistinctOrders(v))
  }

  /** The month object holds every month's count of distinct orders. */
  lemma MonthTotalOf(t: seq<Record>, m: Option<int>)
    requires MonthRecords(t, m) != []
    ensures Lookup(Assoc(MonthTotals(t)), m) == Some(DistinctOrders(MonthRecords(t, m)))
  {
    var ks := Keys(t, MonthField);
    assert m in ks;
    var i :| 0 <= i < |ks| && ks[i] == m;
    var r := MonthTotals(t);
    forall a, b | 0 <= a < b < |r|
      ensures r[a].0 != r[b].0
    {
    }
    AssocLookup(r, i);
  }

  /** The point of the `j`-th group of the `i`-th month. */
  lemma PointOfRow(t: seq<Record>, i: nat, j: nat) returns (m: Option<int>, g: Option<string>)
    requires i < |ByMonthGroup(t)| && j < |ByMonthGroup(t)[i].1|
    ensures m == ByMonthGroup(t)[i].0 && g == ByMonthGroup(t)[i].1[j].0
    ensures PairRecords(t, m, g) != []
    ensures Point(m, g, Divide(ByMonthGroup(t)[i].1[j].1, Lookup(Assoc(MonthTotals(t)), m))) == Point(m, g, Finite(Share(t, m, g)))
  {
    var b := ByMonthGroup(t);
    m := b[i].0;
    var v := MonthRecords(t, m);
    assert b[i].1 == GroupCounts(v);
    g := b[i].1[j].0;
    assert g in Keys(v, GroupField);
    assert m in Keys(t, MonthField);
    MonthTotalOf(t, m);
  }

  /** Every point is a category's share of the orders of a month in which it was bought: a finite fraction in (0, 1]. */
  lemma PointShare(t: seq<Record>, pt: Point) returns (m: Option<int>, g: Option<string>)
    requires pt in MonthPoints(t)
    ensures PairRecords(t, m, g) != []
    ensures pt == Point(m, g, Finite(Share(t, m, g)))
    ensures 0.0 < pt.probability.value <= 1.0
  {
    var i, j := PointFrom(ByMonthGroup(t), Assoc(MonthTotals(t)), pt);
    m, g := PointOfRow(t, i, j);
  }

  /** The row of month `m` and, within it, the row of category label `g`. */
  lemma RowOfPair(t: seq<Record>, m: Option<int>, g: Option<string>) returns (i: nat, j: nat)
    requires PairRecords(t, m, g) != []
    ensures i < |ByMonthGroup(t)| && j < |ByMonthGroup(t)[i].1|
    ensures ByMonthGroup(t)[i].0 == m && ByMonthGroup(t)[i].1[j].0 == g
  {
    var v := MonthRecords(t, m);
    var x := PairRecords(t, m, g)[0];
    assert x in PairRecords(t, m, g);
    assert x in v;
    i := RowOfKey(t, MonthField, GroupCounts, m);
    j := RowOfKey(v, GroupField, DistinctOrders, g);
  }

  /** Every record's (month, category) pair has its point. */
  lemma MonthPointsCover(t: seq<Record>, x: Record)
    requires x in t
    ensures PairRecords(t, x.extra.month, x.extra.categoryGroup) != []
    ensures Point(x.extra.month, x.extra.categoryGroup, Finite(Share(t, x.extra.month, x.extra.categoryGroup))) in MonthPoints(t)
  {
    var m, g := x.extra.month, x.extra.categoryGroup;
    assert x in MonthRecords(t, m);
    assert x in PairRecords(t, m, g);
    var i, j := RowOfPair(t, m, g);
    var _, _ := PointOfRow(t, i, j);
    PointIn(ByMonthGroup(t), Assoc(MonthTotals(t)), i, j);
  }

  /** No (month, category) pair has two points. */
  lemma MonthPointsDistinct(t: seq<Record>)
    ensures DistinctBy(MonthPoints(t), MonthAndGroup)
  {
    var b := ByMonthGroup(t);
    forall i, j, j' | 0 <= i < |b| && 0 <= j < j' < |b[i].1|
      ensures b[i].1[j].0 != b[i].1[j'].0
    {
      assert b[i].1 == GroupCounts(MonthRecords(t, b[i].0));
    }
    PointsDistinct(b, Assoc(MonthTotals(t)));
  }

  function PointGroup(pt: Point): Option<string> { pt.group }
  function PointMonth(pt: Point): Option<int> { pt.month }

  /** dataGroup = d3.groups(data, d => d.group): one line per category, its points in the order pushed. */
  function Lines(data: seq<Point>): (lines: seq<(Option<string>, seq<Point>)>)
    ensures forall i, j | 0 <= i < j < |lines| :: lines[i].0 != lines[j].0
    ensures forall i | 0 <= i < |lines| :: lines[i].1 == Group(data, PointGroup, lines[i].0) != []
  {
    RollupsRows(data, PointGroup, (v: seq<Point>) => v);
    Rollups(data, PointGroup, (v: seq<Point>) => v)
  }

  /** Each line has one point per month at most, so at most 12 points once the records are rewritten. */
  lemma LineMonths(t: seq<Record>, k: nat)
    requires IsRewritten(t)
    requires k < |Lines(MonthPoints(t))|
    ensures DistinctBy(Lines(MonthPoints(t))[k].1, PointMonth)
    ensures |Lines(MonthPoints(t))[k].1| <= 12
  {
    var data := MonthPoints(t);
    var line := Lines(data)[k].1;
    assert line == Group(data, PointGroup, Lines(data)[k].0);
    MonthPointsDistinct(t);
    GroupKeepsDistinctBy(data, PointGroup, Lines(data)[k].0, MonthAndGroup);
    forall i, j | 0 <= i < j < |line|
      ensures PointMonth(line[i]) != PointMonth(line[j])
    {
      assert line[i] in line && line[j] in line;
      assert MonthAndGroup(line[i]) != MonthAndGroup(line[j]);
    }
    var code := (pt: Point) => if pt.month.Some? then pt.month.value else 0;
    forall i | 0 <= i < |line|
      ensures line[i].month.Some? && 1 <= code(line[i]) < 13
    {
      assert line[i] in line;
      var m, g := PointShare(t, line[i]);
      var x := PairRecords(t, m, g)[0];
      assert x in PairRecords(t, m, g);
    }
    assert Distinct(line) by {
      forall i, j | 0 <= i < j < |line|
        ensures line[i] != line[j]
      {
        assert PointMonth(line[i]) != PointMonth(line[j]);
      }
    }
    forall i, j | 0 <= i < j < |line|
      ensures code(line[i]) != code(line[j])
    {
      assert PointMonth(line[i]) != PointMonth(line[j]);
    }
    DistinctCodesBound(line, code, 1, 13);
  }
}

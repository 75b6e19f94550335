/** Purchase probability of each item within its category, by month (C9.js):
    rewrite the records in place as C8.js does and also write the item label
    "Mặt hàng gộp"; count distinct orders per (month, category, item) and per
    (month, category); keep the latter in an object keyed by the string
    `${month}-${category}`; push one point per (month, category, item) holding
    the item's count over its (month, category) count, with 1 standing in for a
    missing or zero count; group the points by category and draw the first
    five categories. */
module Chart9 {
  import opened Collections
  import opened Text
  import opened Calendar
  import opened Records
  import Chart8

  /** The rewrite of one record: C8.js's rewrite plus "Mặt hàng gộp". */
  function Rewrite(r: Record): Record {
    var r' := Chart8.Rewrite(r);
    r'.(extra := r'.extra.(itemGroup := Some(ItemLabel(r))))
  }

  /** The records after the rewrite loop: each carries its month, category and
      item labels and a trimmed order id, and nothing else about it has changed. */
  function Rewritten(s: seq<Record>): (t: seq<Record>)
    ensures |t| == |s|
    ensures forall i | 0 <= i < |s| ::
      && t[i].orderId == Trim(s[i].orderId)
      && t[i].extra.month == Some(s[i].createdAt.month)
      && t[i].extra.categoryGroup == Some(CategoryLabel(s[i]))
      && t[i].extra.itemGroup == Some(ItemLabel(s[i]))
    ensures forall i | 0 <= i < |s| ::
      t[i].(orderId := s[i].orderId,
            extra := t[i].extra.(month := s[i].extra.month, categoryGroup := s[i].extra.categoryGroup,
                                 itemGroup := s[i].extra.itemGroup)) == s[i]
  {
    seq(|s|, i requires 0 <= i < |s| => Rewrite(s[i]))
  }

  /** rawData.forEach(d => { ... }): the rewrite loop, in place. */
  method RewriteAll(a: array<Record>)
    modifies a
    ensures a[..] == Rewritten(old(a[..]))
  {
    for i := 0 to a.Length
      invariant a[..i] == Rewritten(old(a[..]))[..i]
      invariant a[i..] == old(a[i..])
    {
      a[i] := Rewrite(a[i]);
    }
  }

  /** Every record carries its own month, category and item labels, and its order id is trimmed. */
  predicate IsRewritten(t: seq<Record>) {
    Chart8.IsRewritten(t) && forall x | x in t :: x.extra.itemGroup == Some(ItemLabel(x))
  }

  lemma RewrittenHolds(s: seq<Record>)
    ensures IsRewritten(Rewritten(s))
  {
    var t := Rewritten(s);
    forall x | x in t
      ensures x.extra.month == Some(x.createdAt.month) && x.extra.categoryGroup == Some(CategoryLabel(x))
      ensures Trim(x.orderId) == x.orderId && x.extra.itemGroup == Some(ItemLabel(x))
    {
      var i :| 0 <= i < |t| && t[i] == x;
      TrimIdempotent(s[i].orderId);
    }
  }

  function ItemField(r: Record): Option<string> { r.extra.itemGroup }

  type ItemRows = seq<(Option<string>, nat)>
  type GroupRows = seq<(Option<string>, ItemRows)>
  type MonthRows = seq<(Option<int>, GroupRows)>

  /** The innermost rollup: `{count}` of distinct orders per item label. */
  function ItemCounts(v: seq<Record>): ItemRows {
    Rollups(v, ItemField, DistinctOrders)
  }

  function GroupItems(v: seq<Record>): GroupRows {
    Rollups(v, Chart8.GroupField, ItemCounts)
  }

  /** groupByMonthGroupItem. */
  function ByMonthGroupItem(t: seq<Record>): MonthRows {
    Rollups(t, Chart8.MonthField, GroupItems)
  }

  /** `${month}` and `${group}`: a number's decimal text, "undefined" for a missing value. */
  function MonthText(m: Option<int>): string {
    if m.Some? then IntString(m.value) else "undefined"
  }

  function GroupText(g: Option<string>): string {
    if g.Some? then g.value else "undefined"
  }

  /** The key `${month}-${group}` of the (month, category) object. */
  function PairKey(m: Option<int>, g: Option<string>): string {
    MonthText(m) + "-" + GroupText(g)
  }

  /** For months that are numbers of at least 0 and categories that are set,
      the key tells the pair apart: the first '-' ends the month. */
  lemma PairKeyInjective(m: Option<int>, g: Option<string>, m': Option<int>, g': Option<string>)
    requires m.Some? && m.value >= 0 && m'.Some? && m'.value >= 0
    requires g.Some? && g'.Some?
    ensures PairKey(m, g) == PairKey(m', g') <==> m == m' && g == g'
  {
    var a, a' := MonthText(m), MonthText(m');
    assert !IsDigit('-');
    assert '-' !in a && '-' !in a';
    SeparatorSplit(a, g.value, a', g'.value, '-');
    assert PairKey(m, g) == a + ['-'] + g.value && PairKey(m', g') == a' + ['-'] + g'.value;
    if a == a' {
      DecimalStringInjective(m.value, m'.value);
    }
  }

  /** A month and a category whose text is "undefined" share the key of the missing pair. */
  lemma PairKeyCollision()
    ensures PairKey(None, None) == PairKey(None, Some("undefined"))
  {
  }

  /** The entries the fill loop writes for one month. */
  function MonthEntries(m: Option<int>, groups: ItemRows): (es: seq<(string, nat)>)
    ensures |es| == |groups|
    ensures forall j | 0 <= j < |groups| :: es[j] == (PairKey(m, groups[j].0), groups[j].1)
    decreases |groups|
  {
    if groups == [] then []
    else
      var last := groups[|groups| - 1];
      MonthEntries(m, groups[..|groups| - 1]) + [(PairKey(m, last.0), last.1)]
  }

  /** The entries the fill loop writes, month by month. */
  function PairEntries(b: seq<(Option<int>, ItemRows)>): seq<(string, nat)>
    decreases |b|
  {
    if b == [] then []
    else PairEntries(b[..|b| - 1]) + MonthEntries(b[|b| - 1].0, b[|b| - 1].1)
  }

  /** Filling the object is writing one more entry. */
  lemma AssocSnoc(es: seq<(string, nat)>, e: (string, nat))
    ensures Assoc(es + [e]) == Assoc(es)[e.0 := e.1]
  {
    assert (es + [e])[..|es|] == es;
  }

  lemma MonthEntriesSnoc(m: Option<int>, groups: ItemRows, j: nat)
    requires j < |groups|
    ensures MonthEntries(m, groups[..j + 1]) == MonthEntries(m, groups[..j]) + [(PairKey(m, groups[j].0), groups[j].1)]
  {
    assert groups[..j + 1][..j] == groups[..j];
  }

  /** The inner forEach of the fill: one month's groups written into `obj`. */
  method FillMonth(obj: map<string, nat>, es: seq<(string, nat)>, month: Option<int>, groups: ItemRows)
    returns (obj': map<string, nat>)
    requires obj == Assoc(es)
    ensures obj' == Assoc(es + MonthEntries(month, groups))
  {
    obj' := obj;
    assert es + MonthEntries(month, groups[..0]) == es;
    for j := 0 to |groups|
      invariant obj' == Assoc(es + MonthEntries(month, groups[..j]))
    {
      var e := (PairKey(month, groups[j].0), groups[j].1);
      ghost var before := es + MonthEntries(month, groups[..j]);
      MonthEntriesSnoc(month, groups, j);
      AppendAssoc(es, MonthEntries(month, groups[..j]), [e]);
      AssocSnoc(before, e);
      obj' := obj'[e.0 := e.1];
      assert obj' == Assoc(before + [e]);
    }
    assert groups[..|groups|] == groups;
  }

  /** totalOrdersByGroupMonthObj: the nested forEach filling the object. */
  method FillPairTotals(b: seq<(Option<int>, ItemRows)>) returns (obj: map<string, nat>)
    ensures obj == Assoc(PairEntries(b))
  {
    obj := map[];
    for i := 0 to |b|
      invariant obj == Assoc(PairEntries(b[..i]))
    {
      obj := FillMonth(obj, PairEntries(b[..i]), b[i].0, b[i].1);
      assert b[..i + 1][..i] == b[..i];
    }
    assert b[..|b|] == b;
  }

  /** An entry comes from one group of one month. */
  lemma {:induction false} EntryFrom(b: seq<(Option<int>, ItemRows)>, e: (string, nat)) returns (i: nat, j: nat)
    requires e in PairEntries(b)
    ensures i < |b| && j < |b[i].1| && e == (PairKey(b[i].0, b[i].1[j].0), b[i].1[j].1)
    decreases |b|
  {
    assert b != [];
    var p, last := b[..|b| - 1], b[|b| - 1];
    assert PairEntries(b) == PairEntries(p) + MonthEntries(last.0, last.1);
    if e in PairEntries(p) {
      i, j := EntryFrom(p, e);
      assert b[i] == p[i];
    } else {
      var es := MonthEntries(last.0, last.1);
      assert e in es;
      i := |b| - 1;
      j :| 0 <= j < |es| && es[j] == e;
    }
  }

  /** Every group of every month is written. */
  lemma {:induction false} EntryIn(b: seq<(Option<int>, ItemRows)>, i: nat, j: nat)
    requires i < |b| && j < |b[i].1|
    ensures (PairKey(b[i].0, b[i].1[j].0), b[i].1[j].1) in PairEntries(b)
    decreases |b|
  {
    var p, last := b[..|b| - 1], b[|b| - 1];
    if i < |b| - 1 {
      assert b[i] == p[i];
      EntryIn(p, i, j);
    } else {
      var es := MonthEntries(last.0, last.1);
      assert es[j] in es;
    }
  }

  /** `obj[key] || 1`: undefined and 0 become 1. */
  function OrOne(v: Option<nat>): (n: nat)
    ensures n >= 1
    ensures v.Some? && v.value > 0 ==> n == v.value
    ensures !(v.Some? && v.value > 0) ==> n == 1
  {
    if v.Some? && v.value > 0 then v.value else 1
  }

  /** totalInGroupMonth. */
  function Denominator(obj: map<string, nat>, m: Option<int>, g: Option<string>): nat {
    OrOne(Lookup(obj, PairKey(m, g)))
  }

  /** One point of a small chart. */
  datatype ItemPoint = ItemPoint(month: Option<int>, group: Option<string>, item: Option<string>, count: nat, probability: real)

  /** The points pushed for one (month, category): each item's count over `total`. */
  function ItemBlock(m: Option<int>, g: Option<string>, items: ItemRows, total: nat): (ps: seq<ItemPoint>)
    requires total >= 1
    ensures |ps| == |items|
    decreases |items|
  {
    if items == [] then []
    else
      var last := items[|items| - 1];
      ItemBlock(m, g, items[..|items| - 1], total) + [ItemPoint(m, g, last.0, last.1, Ratio(last.1, total))]
  }

  /** The `k`-th point of a block is the `k`-th item's. */
  lemma {:induction false} ItemBlockAt(m: Option<int>, g: Option<string>, items: ItemRows, total: nat, k: nat)
    requires total >= 1 && k < |items|
    ensures ItemBlock(m, g, items, total)[k] == ItemPoint(m, g, items[k].0, items[k].1, Ratio(items[k].1, total))
    decreases |items|
  {
    if k < |items| - 1 {
      ItemBlockAt(m, g, items[..|items| - 1], total, k);
    }
  }

  /** The points pushed for one month, category by category. */
  function GroupBlock(m: Option<int>, groups: GroupRows, obj: map<string, nat>): seq<ItemPoint>
    decreases |groups|
  {
    if groups == [] then []
    else
      var last := groups[|groups| - 1];
      GroupBlock(m, groups[..|groups| - 1], obj) + ItemBlock(m, last.0, last.1, Denominator(obj, m, last.0))
  }

  /** The points the three nested forEach loops push, month by month. */
  function AllPoints(b: MonthRows, obj: map<string, nat>): seq<ItemPoint>
    decreases |b|
  {
    if b == [] then []
    else AllPoints(b[..|b| - 1], obj) + GroupBlock(b[|b| - 1].0, b[|b| - 1].1, obj)
  }

  /** items.forEach: push one (month, category)'s points onto `data`. */
  method PushItems(data: seq<ItemPoint>, month: Option<int>, groupName: Option<string>, items: ItemRows, total: nat)
    returns (data': seq<ItemPoint>)
    requires total >= 1
    ensures data' == data + ItemBlock(month, groupName, items, total)
  {
    data' := data;
    for k := 0 to |items|
      invariant data' == data + ItemBlock(month, groupName, items[..k], total)
    {
      assert items[..k + 1][..k] == items[..k];
      data' := data' + [ItemPoint(month, groupName, items[k].0, items[k].1, Ratio(items[k].1, total))];
    }
    assert items[..|items|] == items;
  }

  lemma GroupBlockSnoc(m: Option<int>, groups: GroupRows, j: nat, obj: map<string, nat>)
    requires j < |groups|
    ensures GroupBlock(m, groups[..j + 1], obj)
      == GroupBlock(m, groups[..j], obj) + ItemBlock(m, groups[j].0, groups[j].1, Denominator(obj, m, groups[j].0))
  {
    assert groups[..j + 1][..j] == groups[..j];
  }

  /** groups.forEach: push one month's points onto `data`, reading each category's total from `obj`. */
  method PushGroups(data: seq<ItemPoint>, month: Option<int>, groups: GroupRows, obj: map<string, nat>)
    returns (data': seq<ItemPoint>)
    ensures data' == data + GroupBlock(month, groups, obj)
  {
    data' := data;
    for j := 0 to |groups|
      invariant data' == data + GroupBlock(month, groups[..j], obj)
    {
      var totalInGroupMonth := Denominator(obj, month, groups[j].0);
      GroupBlockSnoc(month, groups, j, obj);
      AppendAssoc(data, GroupBlock(month, groups[..j], obj), ItemBlock(month, groups[j].0, groups[j].1, totalInGroupMonth));
      data' := PushItems(data', month, groups[j].0, groups[j].1, totalInGroupMonth);
    }
    assert groups[..|groups|] == groups;
  }

  /** groupByMonthGroupItem.forEach: the push loops. */
  method PushPoints(b: MonthRows, obj: map<string, nat>) returns (data: seq<ItemPoint>)
    ensures data == AllPoints(b, obj)
  {
    data := [];
    for i := 0 to |b|
      invariant data == AllPoints(b[..i], obj)
    {
      data := PushGroups(data, b[i].0, b[i].1, obj);
      assert b[..i + 1][..i] == b[..i];
    }
    assert b[..|b|] == b;
  }

  function PointGroup(pt: ItemPoint): Option<string> { pt.group }

  /** dataGroup = d3.groups(data, d => d.group). */
  function Lines(data: seq<ItemPoint>): (lines: seq<(Option<string>, seq<ItemPoint>)>)
    ensures forall i, j | 0 <= i < j < |lines| :: lines[i].0 != lines[j].0
    ensures forall i | 0 <= i < |lines| :: lines[i].1 == Group(data, PointGroup, lines[i].0) != []
  {
    RollupsRows(data, PointGroup, (v: seq<ItemPoint>) => v);
    Rollups(data, PointGroup, (v: seq<ItemPoint>) => v)
  }

  /** `data` for the records `t`. */
  function ItemPoints(t: seq<Record>): seq<ItemPoint> {
    AllPoints(ByMonthGroupItem(t), Assoc(PairEntries(Chart8.ByMonthGroup(t))))
  }

  /** The whole prelude on the loaded rows: rewrite, roll up, fill the object,
      push, group by category and keep the categories the chartIndex loop draws. */
  method ProbabilityByItem(a: array<Record>) returns (data: seq<ItemPoint>, shown: seq<(Option<string>, seq<ItemPoint>)>)
    modifies a
    ensures a[..] == Rewritten(old(a[..]))
    ensures data == ItemPoints(a[..])
    ensures shown == Lines(data)[..Min(|Lines(data)|, MaxCharts)]
  {
    RewriteAll(a);
    var obj := FillPairTotals(Chart8.ByMonthGroup(a[..]));
    data := PushPoints(ByMonthGroupItem(a[..]), obj);
    shown := FirstCharts(Lines(data));
  }

  /** An item point comes from one item of one category. */
  lemma {:induction false} GroupBlockFrom(m: Option<int>, groups: GroupRows, obj: map<string, nat>, pt: ItemPoint)
    returns (j: nat, k: nat)
    requires pt in GroupBlock(m, groups, obj)
    ensures j < |groups| && k < |groups[j].1|
    ensures pt == ItemPoint(m, groups[j].0, groups[j].1[k].0, groups[j].1[k].1,
                            Ratio(groups[j].1[k].1, Denominator(obj, m, groups[j].0)))
    decreases |groups|
  {
    assert groups != [];
    var p, last := groups[..|groups| - 1], groups[|groups| - 1];
    var block := ItemBlock(m, last.0, last.1, Denominator(obj, m, last.0));
    assert GroupBlock(m, groups, obj) == GroupBlock(m, p, obj) + block;
    if pt in GroupBlock(m, p, obj) {
      j, k := GroupBlockFrom(m, p, obj, pt);
      assert groups[j] == p[j];
    } else {
      assert pt in block;
      j := |groups| - 1;
      k :| 0 <= k < |block| && block[k] == pt;
      ItemBlockAt(m, last.0, last.1, Denominator(obj, m, last.0), k);
    }
  }

  /** Every item of every category of a month is pushed. */
  lemma {:induction false} GroupBlockIn(m: Option<int>, groups: GroupRows, obj: map<string, nat>, j: nat, k: nat)
    requires j < |groups| && k < |groups[j].1|
    ensures ItemPoint(m, groups[j].0, groups[j].1[k].0, groups[j].1[k].1,
                      Ratio(groups[j].1[k].1, Denominator(obj, m, groups[j].0))) in GroupBlock(m, groups, obj)
    decreases |groups|
  {
    var p, last := groups[..|groups| - 1], groups[|groups| - 1];
    var block := ItemBlock(m, last.0, last.1, Denominator(obj, m, last.0));
    assert GroupBlock(m, groups, obj) == GroupBlock(m, p, obj) + block;
    if j < |groups| - 1 {
      assert groups[j] == p[j];
      GroupBlockIn(m, p, obj, j, k);
    } else {
      ItemBlockAt(m, last.0, last.1, Denominator(obj, m, last.0), k);
      assert block[k] in block;
    }
  }

  /** A point comes from one item of one category of one month. */
  lemma {:induction false} AllPointsFrom(b: MonthRows, obj: map<string, nat>, pt: ItemPoint) returns (i: nat, j: nat, k: nat)
    requires pt in AllPoints(b, obj)
    ensures i < |b| && j < |b[i].1| && k < |b[i].1[j].1|
    ensures pt == ItemPoint(b[i].0, b[i].1[j].0, b[i].1[j].1[k].0, b[i].1[j].1[k].1,
                            Ratio(b[i].1[j].1[k].1, Denominator(obj, b[i].0, b[i].1[j].0)))
    decreases |b|
  {
    assert b != [];
    var p, last := b[..|b| - 1], b[|b| - 1];
    assert AllPoints(b, obj) == AllPoints(p, obj) + GroupBlock(last.0, last.1, obj);
    if pt in AllPoints(p, obj) {
      i, j, k := AllPointsFrom(p, obj, pt);
      assert b[i] == p[i];
    } else {
      i := |b| - 1;
      j, k := GroupBlockFrom(last.0, last.1, obj, pt);
    }
  }

  /** Every item of every category of every month is pushed. */
  lemma {:induction false} AllPointsIn(b: MonthRows, obj: map<string, nat>, i: nat, j: nat, k: nat)
    requires i < |b| && j < |b[i].1| && k < |b[i].1[j].1|
    ensures ItemPoint(b[i].0, b[i].1[j].0, b[i].1[j].1[k].0, b[i].1[j].1[k].1,
                      Ratio(b[i].1[j].1[k].1, Denominator(obj, b[i].0, b[i].1[j].0))) in AllPoints(b, obj)
    decreases |b|
  {
    var p, last := b[..|b| - 1], b[|b| - 1];
    assert AllPoints(b, obj) == AllPoints(p, obj) + GroupBlock(last.0, last.1, obj);
    if i < |b| - 1 {
      assert b[i] == p[i];
      AllPointsIn(p, obj, i, j, k);
    } else {
      GroupBlockIn(last.0, last.1, obj, j, k);
    }
  }

  function TripleOf(pt: ItemPoint): (Option<int>, Option<string>, Option<string>) { (pt.month, pt.group, pt.item) }

  /** Within one month, with no category twice and no item twice within a category, no point repeats a triple. */
  lemma {:induction false} GroupBlockDistinct(m: Option<int>, groups: GroupRows, obj: map<string, nat>)
    requires forall j, j' | 0 <= j < j' < |groups| :: groups[j].0 != groups[j'].0
    requires forall j, k, k' | 0 <= j < |groups| && 0 <= k < k' < |groups[j].1| :: groups[j].1[k].0 != groups[j].1[k'].0
    ensures DistinctBy(GroupBlock(m, groups, obj), TripleOf)
    decreases |groups|
  {
    if groups != [] {
      var p, last := groups[..|groups| - 1], groups[|groups| - 1];
      var total := Denominator(obj, m, last.0);
      var block := ItemBlock(m, last.0, last.1, total);
      GroupBlockDistinct(m, p, obj);
      forall x, y | x in GroupBlock(m, p, obj) && y in block
        ensures TripleOf(x) != TripleOf(y)
      {
        var j, _ := GroupBlockFrom(m, p, obj, x);
        var k :| 0 <= k < |block| && block[k] == y;
        ItemBlockAt(m, last.0, last.1, total, k);
        assert groups[j] == p[j];
      }
      forall k, k' | 0 <= k < k' < |block|
        ensures TripleOf(block[k]) != TripleOf(block[k'])
      {
        ItemBlockAt(m, last.0, last.1, total, k);
        ItemBlockAt(m, last.0, last.1, total, k');
      }
      DistinctByAppend(GroupBlock(m, p, obj), block, TripleOf);
    }
  }

  /** With distinct keys at every level, no point repeats a (month, category, item) triple. */
  lemma {:induction false} AllPointsDistinct(b: MonthRows, obj: map<string, nat>)
    requires forall i, i' | 0 <= i < i' < |b| :: b[i].0 != b[i'].0
    requires forall i, j, j' | 0 <= i < |b| && 0 <= j < j' < |b[i].1| :: b[i].1[j].0 != b[i].1[j'].0
    requires forall i, j, k, k' | 0 <= i < |b| && 0 <= j < |b[i].1| && 0 <= k < k' < |b[i].1[j].1| ::
      b[i].1[j].1[k].0 != b[i].1[j].1[k'].0
    ensures DistinctBy(AllPoints(b, obj), TripleOf)
    decreases |b|
  {
    if b != [] {
      var p, last := b[..|b| - 1], b[|b| - 1];
      AllPointsDistinct(p, obj);
      GroupBlockDistinct(last.0, last.1, obj);
      forall x, y | x in AllPoints(p, obj) && y in GroupBlock(last.0, last.1, obj)
        ensures TripleOf(x) != TripleOf(y)
      {
        var i, _, _ := AllPointsFrom(p, obj, x);
        var _, _ := GroupBlockFrom(last.0, last.1, obj, y);
        assert b[i] == p[i];
      }
      DistinctByAppend(AllPoints(p, obj), GroupBlock(last.0, last.1, obj), TripleOf);
    }
  }

  /** The records of a (month, category, item) triple. */
  function TripleRecords(t: seq<Record>, m: Option<int>, g: Option<string>, it: Option<string>): seq<Record> {
    Group(Chart8.PairRecords(t, m, g), ItemField, it)
  }

  /** The fraction of a (month, category)'s orders that hold the item. */
  function Share(t: seq<Record>, m: Option<int>, g: Option<string>, it: Option<string>): (p: real)
    requires TripleRecords(t, m, g, it) != []
    ensures 0.0 < p <= 1.0
  {
    var v, w := Chart8.PairRecords(t, m, g), TripleRecords(t, m, g, it);
    DistinctOrdersOfPart(w, v);
    RatioBounds(DistinctOrders(w), DistinctOrders(v));
    Ratio(DistinctOrders(w), DistinctOrders(v))
  }

  /** The `j`-th category row of the `i`-th month of groupByMonthGroup is that pair's count. */
  lemma PairCount(t: seq<Record>, i: nat, j: nat)
    requires i < |Chart8.ByMonthGroup(t)| && j < |Chart8.ByMonthGroup(t)[i].1|
    ensures Chart8.PairRecords(t, Chart8.ByMonthGroup(t)[i].0, Chart8.ByMonthGroup(t)[i].1[j].0) != []
    ensures Chart8.ByMonthGroup(t)[i].1[j].1
      == DistinctOrders(Chart8.PairRecords(t, Chart8.ByMonthGroup(t)[i].0, Chart8.ByMonthGroup(t)[i].1[j].0))
  {
    var b := Chart8.ByMonthGroup(t);
    var v := Chart8.MonthRecords(t, b[i].0);
    assert b[i].1 == Chart8.GroupCounts(v);
    assert b[i].1[j].0 in Keys(v, Chart8.GroupField);
  }

  /** On rewritten records a present pair has a month 1..12 and a category label. */
  lemma RewrittenPair(t: seq<Record>, m: Option<int>, g: Option<string>)
    requires Chart8.IsRewritten(t) && Chart8.PairRecords(t, m, g) != []
    ensures m.Some? && 1 <= m.value <= 12 && g.Some?
  {
    var x := Chart8.PairRecords(t, m, g)[0];
    assert x in Chart8.PairRecords(t, m, g);
    assert x in Chart8.MonthRecords(t, m);
  }

  /** A present pair's key is written. */
  lemma PairKeyWritten(t: seq<Record>, m: Option<int>, g: Option<string>) returns (p: nat)
    requires Chart8.PairRecords(t, m, g) != []
    ensures p < |PairEntries(Chart8.ByMonthGroup(t))| && PairEntries(Chart8.ByMonthGroup(t))[p].0 == PairKey(m, g)
  {
    var b := Chart8.ByMonthGroup(t);
    var es := PairEntries(b);
    var i, j := Chart8.RowOfPair(t, m, g);
    EntryIn(b, i, j);
    p :| 0 <= p < |es| && es[p] == (PairKey(b[i].0, b[i].1[j].0), b[i].1[j].1);
  }

  /** The (month, category) object holds each present pair's count of distinct
      orders: the pair's key is written, and every entry written under it holds
      that count, because on rewritten records the key tells pairs apart. */
  lemma PairTotalOf(t: seq<Record>, m: Option<int>, g: Option<string>)
    requires Chart8.IsRewritten(t) && Chart8.PairRecords(t, m, g) != []
    ensures Lookup(Assoc(PairEntries(Chart8.ByMonthGroup(t))), PairKey(m, g)) == Some(DistinctOrders(Chart8.PairRecords(t, m, g)))
  {
    var b := Chart8.ByMonthGroup(t);
    var es := PairEntries(b);
    var v := DistinctOrders(Chart8.PairRecords(t, m, g));
    RewrittenPair(t, m, g);
    forall q | 0 <= q < |es| && es[q].0 == PairKey(m, g)
      ensures es[q].1 == v
    {
      assert es[q] in es;
      var i', j' := EntryFrom(b, es[q]);
      PairCount(t, i', j');
      RewrittenPair(t, b[i'].0, b[i'].1[j'].0);
      PairKeyInjective(m, g, b[i'].0, b[i'].1[j'].0);
    }
    var p := PairKeyWritten(t, m, g);
    LookupAssoc(es, PairKey(m, g), v, p);
  }

  /** On rewritten records the `|| 1` default never applies: the denominator is the pair's count. */
  lemma PairDenominator(t: seq<Record>, m: Option<int>, g: Option<string>)
    requires Chart8.IsRewritten(t) && Chart8.PairRecords(t, m, g) != []
    ensures Denominator(Assoc(PairEntries(Chart8.ByMonthGroup(t))), m, g) == DistinctOrders(Chart8.PairRecords(t, m, g))
  {
    PairTotalOf(t, m, g);
  }

  /** The `k`-th item row of the `j`-th category of the `i`-th month is that triple's count. */
  lemma TripleCount(t: seq<Record>, i: nat, j: nat, k: nat)
    requires i < |ByMonthGroupItem(t)| && j < |ByMonthGroupItem(t)[i].1| && k < |ByMonthGroupItem(t)[i].1[j].1|
    ensures TripleRecords(t, ByMonthGroupItem(t)[i].0, ByMonthGroupItem(t)[i].1[j].0, ByMonthGroupItem(t)[i].1[j].1[k].0) != []
    ensures ByMonthGroupItem(t)[i].1[j].1[k].1
      == DistinctOrders(TripleRecords(t, ByMonthGroupItem(t)[i].0, ByMonthGroupItem(t)[i].1[j].0, ByMonthGroupItem(t)[i].1[j].1[k].0))
  {
    var b := ByMonthGroupItem(t);
    var m := b[i].0;
    var v := Chart8.MonthRecords(t, m);
    assert b[i].1 == GroupItems(v);
    var g := b[i].1[j].0;
    assert g in Keys(v, Chart8.GroupField);
    var w := Chart8.PairRecords(t, m, g);
    assert b[i].1[j].1 == ItemCounts(w);
    assert b[i].1[j].1[k].0 in Keys(w, ItemField);
  }

  /** The rows of a present triple in groupByMonthGroupItem. */
  lemma RowOfTriple(t: seq<Record>, m: Option<int>, g: Option<string>, it: Option<string>) returns (i: nat, j: nat, k: nat)
    requires TripleRecords(t, m, g, it) != []
    ensures i < |ByMonthGroupItem(t)| && j < |ByMonthGroupItem(t)[i].1| && k < |ByMonthGroupItem(t)[i].1[j].1|
    ensures ByMonthGroupItem(t)[i].0 == m && ByMonthGroupItem(t)[i].1[j].0 == g && ByMonthGroupItem(t)[i].1[j].1[k].0 == it
  {
    var v, w := Chart8.MonthRecords(t, m), Chart8.PairRecords(t, m, g);
    var x := TripleRecords(t, m, g, it)[0];
    assert x in TripleRecords(t, m, g, it);
    assert x in w;
    assert x in v;
    i := RowOfKey(t, Chart8.MonthField, GroupItems, m);
    j := RowOfKey(v, Chart8.GroupField, ItemCounts, g);
    k := RowOfKey(w, ItemField, DistinctOrders, it);
  }

  /** The point of a triple's rows: its count, and that count over its pair's count. */
  lemma PointOfTriple(t: seq<Record>, i: nat, j: nat, k: nat)
    requires Chart8.IsRewritten(t)
    requires i < |ByMonthGroupItem(t)| && j < |ByMonthGroupItem(t)[i].1| && k < |ByMonthGroupItem(t)[i].1[j].1|
    ensures var b := ByMonthGroupItem(t);
      && TripleRecords(t, b[i].0, b[i].1[j].0, b[i].1[j].1[k].0) != []
      && ItemPoint(b[i].0, b[i].1[j].0, b[i].1[j].1[k].0, b[i].1[j].1[k].1,
                   Ratio(b[i].1[j].1[k].1, Denominator(Assoc(PairEntries(Chart8.ByMonthGroup(t))), b[i].0, b[i].1[j].0)))
         == ItemPoint(b[i].0, b[i].1[j].0, b[i].1[j].1[k].0,
                      DistinctOrders(TripleRecords(t, b[i].0, b[i].1[j].0, b[i].1[j].1[k].0)),
                      Share(t, b[i].0, b[i].1[j].0, b[i].1[j].1[k].0))
  {
    var b := ByMonthGroupItem(t);
    var m, g, it := b[i].0, b[i].1[j].0, b[i].1[j].1[k].0;
    TripleCount(t, i, j, k);
    var x := TripleRecords(t, m, g, it)[0];
    assert x in TripleRecords(t, m, g, it);
    PairDenominator(t, m, g);
  }

  /** Every point is an item's count and its share in (0, 1] of the orders of its (month, category). */
  lemma ItemPointShare(t: seq<Record>, pt: ItemPoint) returns (m: Option<int>, g: Option<string>, it: Option<string>)
    requires Chart8.IsRewritten(t)
    requires pt in ItemPoints(t)
    ensures TripleRecords(t, m, g, it) != []
    ensures pt == ItemPoint(m, g, it, DistinctOrders(TripleRecords(t, m, g, it)), Share(t, m, g, it))
    ensures 0.0 < pt.probability <= 1.0
  {
    var b := ByMonthGroupItem(t);
    var i, j, k := AllPointsFrom(b, Assoc(PairEntries(Chart8.ByMonthGroup(t))), pt);
    PointOfTriple(t, i, j, k);
    m, g, it := b[i].0, b[i].1[j].0, b[i].1[j].1[k].0;
  }

  /** Every record's (month, category, item) triple has its point. */
  lemma ItemPointsCover(t: seq<Record>, x: Record)
    requires Chart8.IsRewritten(t) && x in t
    ensures TripleRecords(t, x.extra.month, x.extra.categoryGroup, x.extra.itemGroup) != []
    ensures ItemPoint(x.extra.month, x.extra.categoryGroup, x.extra.itemGroup,
                      DistinctOrders(TripleRecords(t, x.extra.month, x.extra.categoryGroup, x.extra.itemGroup)),
                      Share(t, x.extra.month, x.extra.categoryGroup, x.extra.itemGroup)) in ItemPoints(t)
  {
    var m, g, it := x.extra.month, x.extra.categoryGroup, x.extra.itemGroup;
    assert x in Chart8.MonthRecords(t, m);
    assert x in Chart8.PairRecords(t, m, g);
    assert x in TripleRecords(t, m, g, it);
    var i, j, k := RowOfTriple(t, m, g, it);
    PointOfTriple(t, i, j, k);
    AllPointsIn(ByMonthGroupItem(t), Assoc(PairEntries(Chart8.ByMonthGroup(t))), i, j, k);
  }

  /** No (month, category, item) triple has two points. */
  lemma ItemPointsDistinct(t: seq<Record>)
    ensures DistinctBy(ItemPoints(t), TripleOf)
  {
    var b := ByMonthGroupItem(t);
    forall i, j, j' | 0 <= i < |b| && 0 <= j < j' < |b[i].1|
      ensures b[i].1[j].0 != b[i].1[j'].0
    {
      assert b[i].1 == GroupItems(Chart8.MonthRecords(t, b[i].0));
    }
    forall i, j, k, k' | 0 <= i < |b| && 0 <= j < |b[i].1| && 0 <= k < k' < |b[i].1[j].1|
      ensures b[i].1[j].1[k].0 != b[i].1[j].1[k'].0
    {
      var v := Chart8.MonthRecords(t, b[i].0);
      assert b[i].1 == GroupItems(v);
      assert b[i].1[j].1 == ItemCounts(Group(v, Chart8.GroupField, b[i].1[j].0));
    }
    AllPointsDistinct(b, Assoc(PairEntries(Chart8.ByMonthGroup(t))));
  }
}

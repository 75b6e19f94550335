/** The order lines every chart reads: one record per row of the sales file,
    with the columns the preludes use, and the fields the charts write into a
    record in place. */
module Records {
  import opened Collections
  import opened Calendar

  /** The fields the annotation loops add to a record; None until one sets it. */
  datatype Annotations = Annotations(
    dayOfMonth: Option<string>,     // "Ngày trong tháng"
    hourSlot: Option<string>,       // "Khung giờ"
    dateText: Option<string>,       // "Ngày cụ thể"
    month: Option<int>,             // "Tháng"
    categoryGroup: Option<string>,  // "Nhóm gộp"
    itemGroup: Option<string>)      // "Mặt hàng gộp"

  const NoAnnotations := Annotations(None, None, None, None, None, None)

  /** One order line: "Mã đơn hàng", "Mã khách hàng", "Mã mặt hàng", "Tên mặt
      hàng", "Mã nhóm hàng", "Tên nhóm hàng", "Thành tiền" as a number and
      "Thời gian tạo đơn" as a parsed time. */
  datatype Record = Record(
    orderId: string,
    customerId: string,
    itemCode: string,
    itemName: string,
    categoryCode: string,
    categoryName: string,
    amount: int,
    createdAt: Moment,
    extra: Annotations)

  function OrderIdOf(r: Record): string { r.orderId }
  function CustomerOf(r: Record): string { r.customerId }
  function ItemCodeOf(r: Record): string { r.itemCode }
  function ItemNameOf(r: Record): string { r.itemName }
  function CategoryCodeOf(r: Record): string { r.categoryCode }
  function CategoryNameOf(r: Record): string { r.categoryName }
  function AmountOf(r: Record): int { r.amount }

  /** d3.sum(v, d => +d["Thành tiền"]). */
  function SumAmounts(v: seq<Record>): int {
    SumOf(v, AmountOf)
  }

  /** new Set(v.map(d => d["Mã đơn hàng"])).size: how many different order ids `v` holds. */
  function DistinctOrders(v: seq<Record>): (n: nat)
    ensures n <= |v|
    ensures v != [] ==> n >= 1
  {
    ImageCardBound(v, OrderIdOf);
    if v != [] then ImageNonEmpty(v, OrderIdOf); |Image(v, OrderIdOf)| else |Image(v, OrderIdOf)|
  }

  /** A part of the records has no more distinct orders than the whole. */
  lemma DistinctOrdersOfPart(g: seq<Record>, s: seq<Record>)
    requires forall x | x in g :: x in s
    ensures DistinctOrders(g) <= DistinctOrders(s)
  {
    ImageOfSubset(g, s, OrderIdOf);
  }

  /** Another line of an order already present, whatever its item, adds no order. */
  lemma DistinctOrdersRepeat(v: seq<Record>, x: Record)
    requires exists y | y in v :: y.orderId == x.orderId
    ensures DistinctOrders(v + [x]) == DistinctOrders(v)
  {
    var y :| y in v && y.orderId == x.orderId;
    assert OrderIdOf(y) == OrderIdOf(x);
    assert Image(v + [x], OrderIdOf) == Image(v, OrderIdOf);
  }

  /** `[${code}] ${name}`: the label a code and a name are shown under. */
  function Bracketed(code: string, name: string): (shown: string)
    ensures |shown| == |code| + |name| + 3
    ensures shown[0] == '[' && shown[1..|code| + 1] == code && shown[|code| + 1..|code| + 3] == "] "
    ensures shown[|code| + 3..] == name
  {
    "[" + code + "] " + name
  }

  /** The category label `[${d["Mã nhóm hàng"]}] ${d["Tên nhóm hàng"]}`. */
  function CategoryLabel(r: Record): string {
    Bracketed(r.categoryCode, r.categoryName)
  }

  /** The item label `[${d["Mã mặt hàng"]}] ${d["Tên mặt hàng"]}`. */
  function ItemLabel(r: Record): string {
    Bracketed(r.itemCode, r.itemName)
  }

  /** The label splits back into its code and name when the codes hold no ']':
      then the first ']' of the label ends the code. */
  lemma BracketedInjective(code: string, name: string, code': string, name': string)
    requires ']' !in code && ']' !in code'
    ensures Bracketed(code, name) == Bracketed(code', name') <==> code == code' && name == name'
  {
    var a, b := Bracketed(code, name), Bracketed(code', name');
    if |code| < |code'| {
      assert a[|code| + 1] != b[|code| + 1];
    } else if |code'| < |code| {
      assert a[|code'| + 1] != b[|code'| + 1];
    } else if a == b {
      assert code == a[1..|code| + 1] == b[1..|code| + 1] == code';
      assert name == a[|code| + 3..] == b[|code| + 3..] == name';
    }
  }

  /** A code holding a ']' can collide: "[x] y] z" is both (x, "y] z") and ("x] y", z). */
  lemma BracketedCollision()
    ensures Bracketed("x", "y] z") == Bracketed("x] y", "z")
  {
  }
}

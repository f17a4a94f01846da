/**
 * Order rows and their line snapshots. `totalAmount` is DECIMAL(10,2) in the schema and is
 * integer kopecks here.
 */
module OrderModel {
  import opened Wrappers
  import opened Catalog
  import opened Collation

  /** The six values of the status column; the type admits no other. */
  datatype Status = Pending | Confirmed | Processing | Shipped | Delivered | Cancelled

  function StatusName(s: Status): string {
    match s
    case Pending => "pending"
    case Confirmed => "confirmed"
    case Processing => "processing"
    case Shipped => "shipped"
    case Delivered => "delivered"
    case Cancelled => "cancelled"
  }

  /** The six status names are already folded. */
  lemma FoldedNames(s: Status)
    ensures Folded(StatusName(s)) == StatusName(s)
  {
    var n := StatusName(s);
    assert forall i :: 0 <= i < |n| ==> 'a' <= n[i] <= 'z';
  }

  /** The status the enum column stores for a request text: the member whose name equals the
      text up to ASCII case, or none, which the database refuses. */
  function ParseStatus(text: string): (r: Option<Status>)
    ensures r.Some? ==> StatusName(r.value) == Folded(text)
    ensures r.None? ==> forall s: Status :: StatusName(s) != Folded(text)
  {
    var f := Folded(text);
    if f == "pending" then Some(Pending)
    else if f == "confirmed" then Some(Confirmed)
    else if f == "processing" then Some(Processing)
    else if f == "shipped" then Some(Shipped)
    else if f == "delivered" then Some(Delivered)
    else if f == "cancelled" then Some(Cancelled)
    else None
  }

  /** Each name parses to its own status, and so does any case variant of it. */
  lemma {:induction false} ParseStatusName(s: Status, text: string)
    requires Folded(text) == StatusName(s)
    ensures ParseStatus(StatusName(s)) == Some(s)
    ensures ParseStatus(text) == Some(s)
  {
    FoldedNames(s);
  }

  /** Texts that fold alike parse alike. */
  lemma ParseIgnoresCase(a: string, b: string)
    requires Folded(a) == Folded(b)
    ensures ParseStatus(a) == ParseStatus(b)
  {}

  datatype Order = Order(
    id: int,
    orderNumber: string,
    customerName: string,
    customerEmail: string,
    customerPhone: string,
    shippingAddress: Option<string>,
    totalAmount: int,
    status: Status,
    notes: Option<string>)

  /** A line copies the product's name and price as they were when the order was placed. */
  datatype OrderLine = OrderLine(
    orderId: int,
    productId: int,
    productName: string,
    sizeTenths: int,
    quantity: int,
    price: int,
    customization: Option<Customization>)

  /** The lines of one order, in insertion order. */
  function LinesOf(ls: seq<OrderLine>, orderId: int): (r: seq<OrderLine>)
    ensures forall l :: l in r ==> l in ls && l.orderId == orderId
    decreases |ls|
  {
    if ls == [] then []
    else
      var last := ls[|ls| - 1];
      (if last.orderId == orderId then LinesOf(ls[..|ls| - 1], orderId) + [last] else LinesOf(ls[..|ls| - 1], orderId))
  }

  lemma {:induction false} LinesOfAppend(a: seq<OrderLine>, b: seq<OrderLine>, orderId: int)
    ensures LinesOf(a + b, orderId) == LinesOf(a, orderId) + LinesOf(b, orderId)
    decreases |b|
  {
    if b != [] {
      var n := |b| - 1;
      assert (a + b)[..|a + b| - 1] == a + b[..n];
      LinesOfAppend(a, b[..n], orderId);
    } else {
      assert a + b == a;
    }
  }

  /** Lines that all belong to one order: filtering by that order keeps them all, by any
      other order keeps none. */
  lemma {:induction false} LinesOfUniform(ls: seq<OrderLine>, owner: int, orderId: int)
    requires forall i :: 0 <= i < |ls| ==> ls[i].orderId == owner
    ensures LinesOf(ls, orderId) == if orderId == owner then ls else []
    decreases |ls|
  {
    if ls != [] {
      var n := |ls| - 1;
      LinesOfUniform(ls[..n], owner, orderId);
      assert ls[..n] + [ls[n]] == ls;
    }
  }

  /** Σ price × quantity over the lines. */
  function LinesTotal(ls: seq<OrderLine>): int
    decreases |ls|
  {
    if ls == [] then 0 else LinesTotal(ls[..|ls| - 1]) + ls[|ls| - 1].price * ls[|ls| - 1].quantity
  }

  lemma {:induction false} LinesTotalAppend(a: seq<OrderLine>, b: seq<OrderLine>)
    ensures LinesTotal(a + b) == LinesTotal(a) + LinesTotal(b)
    decreases |b|
  {
    if b != [] {
      var n := |b| - 1;
      assert (a + b)[..|a + b| - 1] == a + b[..n];
      LinesTotalAppend(a, b[..n]);
    } else {
      assert a + b == a;
    }
  }
}

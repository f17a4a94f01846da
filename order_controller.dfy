/**
 * Order placement and lifecycle. Placement validates every item against the catalog and
 * the inventory before writing anything, totals the live prices, then creates the order,
 * one snapshot line per item and one reservation per item. A status change overwrites the
 * status; cancelling releases each line's reservation and delivering consumes it.
 */
module OrderController {
  import opened Wrappers
  import opened InventoryModel
  import opened Catalog
  import opened OrderModel
  import opened Paging
  import opened Collation
  import InventoryController

  datatype ItemRequest = ItemRequest(productId: int, sizeTenths: int, quantity: int, customization: Option<Customization>)

  /** The placement body. Customer fields the client left out are `None`. */
  datatype OrderRequest = OrderRequest(
    customerName: Option<string>,
    customerEmail: Option<string>,
    customerPhone: Option<string>,
    shippingAddress: Option<string>,
    notes: Option<string>,
    items: seq<ItemRequest>)

  /** 404, 400, and the 500 answered when the database refuses the order row. */
  datatype PlaceError = ProductNotFound(productId: int) | OutOfStock(productName: string, sizeTenths: int) | OrderRowRejected

  /** 404; the enum column's refusal of a text that names no status (a 500); a negative page
      bound (a 500). */
  datatype OrderError = OrderNotFound | InvalidStatus | BadPage(pageError: PageError)

  function ItemKey(it: ItemRequest): Key { Key(it.productId, it.sizeTenths) }

  // ---------------------------------------------------------------------------------------
  // Validation, over the inventory as it stood before the order.

  /** One item's check: the product exists, an inventory row exists and enough of it is available. */
  function CheckItem(catalog: seq<Product>, t: Table, it: ItemRequest): (r: Option<PlaceError>)
    ensures r.None? <==>
      ProductById(catalog, it.productId).Some? && ItemKey(it) in t && Available(t[ItemKey(it)]) >= it.quantity
    ensures ProductById(catalog, it.productId).None? ==> r == Some(ProductNotFound(it.productId))
    ensures ProductById(catalog, it.productId).Some? && r.Some? ==>
      r == Some(OutOfStock(ProductById(catalog, it.productId).value.name, it.sizeTenths))
  {
    match ProductById(catalog, it.productId)
    case None => Some(ProductNotFound(it.productId))
    case Some(p) =>
      if ItemKey(it) !in t || Available(t[ItemKey(it)]) < it.quantity then Some(OutOfStock(p.name, it.sizeTenths))
      else None
  }

  ghost predicate AllAccepted(catalog: seq<Product>, t: Table, items: seq<ItemRequest>) {
    forall i :: 0 <= i < |items| ==> CheckItem(catalog, t, items[i]).None?
  }

  ghost predicate AllFound(catalog: seq<Product>, items: seq<ItemRequest>) {
    forall i :: 0 <= i < |items| ==> ProductById(catalog, items[i].productId).Some?
  }

  /** The error of the first item, in request order, that fails its check. */
  function FirstError(catalog: seq<Product>, t: Table, items: seq<ItemRequest>): (r: Option<PlaceError>)
    ensures r.None? <==> AllAccepted(catalog, t, items)
    ensures r.None? ==> AllFound(catalog, items)
    decreases |items|
  {
    if items == [] then None
    else if CheckItem(catalog, t, items[0]).Some? then CheckItem(catalog, t, items[0])
    else
      var rest := FirstError(catalog, t, items[1..]);
      assert forall i :: 1 <= i < |items| ==> items[i] == items[1..][i - 1];
      rest
  }

  /** If items before i pass and item i fails, the placement reports item i's error. */
  lemma {:induction false} FirstErrorAt(catalog: seq<Product>, t: Table, items: seq<ItemRequest>, i: int)
    requires 0 <= i < |items| && AllAccepted(catalog, t, items[..i]) && CheckItem(catalog, t, items[i]).Some?
    ensures FirstError(catalog, t, items) == CheckItem(catalog, t, items[i])
    decreases i
  {
    if i > 0 {
      assert items[..i][0] == items[0];
      assert items[1..][..i - 1] == items[..i][1..];
      FirstErrorAt(catalog, t, items[1..], i - 1);
    }
  }

  // ---------------------------------------------------------------------------------------
  // What a successful placement writes.

  /** Σ current price × requested quantity; no client-supplied price enters, so with
      non-negative catalog prices and quantities the total is not negative. */
  function ItemsTotal(catalog: seq<Product>, items: seq<ItemRequest>): (r: int)
    requires AllFound(catalog, items)
    ensures (forall p :: p in catalog ==> p.price >= 0) && (forall i :: 0 <= i < |items| ==> items[i].quantity >= 0) ==>
      r >= 0
    decreases |items|
  {
    if items == [] then 0
    else
      var last := items[|items| - 1];
      assert forall i :: 0 <= i < |items| - 1 ==> items[..|items| - 1][i] == items[i];
      ItemsTotal(catalog, items[..|items| - 1]) + ProductById(catalog, last.productId).value.price * last.quantity
  }

  function LineFor(catalog: seq<Product>, orderId: int, it: ItemRequest): OrderLine
    requires ProductById(catalog, it.productId).Some?
  {
    var p := ProductById(catalog, it.productId).value;
    OrderLine(orderId, it.productId, p.name, it.sizeTenths, it.quantity, p.price, it.customization)
  }

  /** One line per item, in request order; each copies the product's name and price as they
      are now and the item's size, quantity and customization. */
  function Snapshot(catalog: seq<Product>, orderId: int, items: seq<ItemRequest>): (r: seq<OrderLine>)
    requires AllFound(catalog, items)
    ensures |r| == |items|
    ensures forall i :: 0 <= i < |items| ==>
      var p := ProductById(catalog, items[i].productId).value;
      r[i] == OrderLine(orderId, items[i].productId, p.name, items[i].sizeTenths, items[i].quantity, p.price, items[i].customization)
    decreases |items|
  {
    if items == [] then []
    else
      var n := |items| - 1;
      assert forall i :: 0 <= i < n ==> items[..n][i] == items[i];
      Snapshot(catalog, orderId, items[..n]) + [LineFor(catalog, orderId, items[n])]
  }

  /** Snapshotting one more item appends that item's line. */
  lemma SnapshotExtend(catalog: seq<Product>, orderId: int, items: seq<ItemRequest>, i: int)
    requires AllFound(catalog, items) && 0 <= i < |items|
    ensures AllFound(catalog, items[..i]) && AllFound(catalog, items[..i + 1])
    ensures Snapshot(catalog, orderId, items[..i + 1]) ==
      Snapshot(catalog, orderId, items[..i]) + [LineFor(catalog, orderId, items[i])]
  {
    assert items[..i + 1][..i] == items[..i];
  }

  /** The order's frozen total equals the sum of its lines' extended prices. */
  lemma {:induction false} SnapshotTotal(catalog: seq<Product>, orderId: int, items: seq<ItemRequest>)
    requires AllFound(catalog, items)
    ensures LinesTotal(Snapshot(catalog, orderId, items)) == ItemsTotal(catalog, items)
    decreases |items|
  {
    if items != [] {
      var n := |items| - 1;
      assert AllFound(catalog, items[..n]) by {
        assert forall i :: 0 <= i < n ==> items[..n][i] == items[i];
      }
      SnapshotTotal(catalog, orderId, items[..n]);
    }
  }

  function ItemDeltas(items: seq<ItemRequest>): (ds: seq<Delta>)
    ensures |ds| == |items| && forall i :: 0 <= i < |items| ==> ds[i] == Delta(ItemKey(items[i]), items[i].quantity)
  {
    seq(|items|, i requires 0 <= i < |items| => Delta(ItemKey(items[i]), items[i].quantity))
  }

  function LineDeltas(ls: seq<OrderLine>): (ds: seq<Delta>)
    ensures |ds| == |ls| && forall i :: 0 <= i < |ls| ==> ds[i] == Delta(Key(ls[i].productId, ls[i].sizeTenths), ls[i].quantity)
  {
    seq(|ls|, i requires 0 <= i < |ls| => Delta(Key(ls[i].productId, ls[i].sizeTenths), ls[i].quantity))
  }

  /** The reservation a placement makes: each item's (product, size) row gains the item's
      quantity in `reserved` (duplicates add up); on-hand quantities and the rows of other
      keys do not change, and no row is created or removed. */
  lemma PlacementReservation(t: Table, items: seq<ItemRequest>, k: Key)
    ensures k in MoveAll(t, ItemDeltas(items), Reserve) <==> k in t
    ensures k in t ==> MoveAll(t, ItemDeltas(items), Reserve)[k] == Row(t[k].quantity, t[k].reserved + AmountAt(ItemDeltas(items), k))
    ensures k in t && (forall i :: 0 <= i < |items| ==> ItemKey(items[i]) != k) ==> MoveAll(t, ItemDeltas(items), Reserve)[k] == t[k]
  {
    MoveAllAt(t, ItemDeltas(items), Reserve, k);
    if forall i :: 0 <= i < |items| ==> ItemKey(items[i]) != k {
      AmountAtAbsent(ItemDeltas(items), k);
    }
  }

  ghost predicate DistinctItemKeys(items: seq<ItemRequest>) {
    forall i, j :: 0 <= i < j < |items| ==> ItemKey(items[i]) != ItemKey(items[j])
  }

  /** With distinct (product, size) keys, an accepted placement reserves exactly each item's
      quantity on its row and leaves that row's availability non-negative. */
  lemma DistinctPlacementStaysInStock(catalog: seq<Product>, t: Table, items: seq<ItemRequest>, i: int)
    requires DistinctItemKeys(items) && AllAccepted(catalog, t, items) && 0 <= i < |items|
    ensures var k := ItemKey(items[i]);
      && k in MoveAll(t, ItemDeltas(items), Reserve)
      && MoveAll(t, ItemDeltas(items), Reserve)[k] == Row(t[k].quantity, t[k].reserved + items[i].quantity)
      && Available(MoveAll(t, ItemDeltas(items), Reserve)[k]) >= 0
  {
    var ds := ItemDeltas(items);
    assert CheckItem(catalog, t, items[i]).None?;
    AmountAtDistinct(ds, i);
    MoveAllAt(t, ds, Reserve, ItemKey(items[i]));
  }

  /** Stock floor: if no row was oversold before, an accepted placement over distinct keys
      oversells none. */
  lemma StockFloor(catalog: seq<Product>, t: Table, items: seq<ItemRequest>)
    requires DistinctItemKeys(items) && AllAccepted(catalog, t, items)
    requires forall k :: k in t ==> Available(t[k]) >= 0
    ensures forall k :: k in MoveAll(t, ItemDeltas(items), Reserve) ==> Available(MoveAll(t, ItemDeltas(items), Reserve)[k]) >= 0
  {
    forall k | k in MoveAll(t, ItemDeltas(items), Reserve)
      ensures Available(MoveAll(t, ItemDeltas(items), Reserve)[k]) >= 0
    {
      PlacementReservation(t, items, k);
      if i :| 0 <= i < |items| && ItemKey(items[i]) == k {
        DistinctPlacementStaysInStock(catalog, t, items, i);
      }
    }
  }

  /** Each item is checked against the inventory as it was before the order, so two items
      with the same key can together reserve more than is available: 10 on hand, two items of
      6 each are accepted and leave availability at -2. */
  lemma DuplicateItemsCanOverReserve()
    ensures
      var catalog := [Product(1, 1, "P", "p", None, 100, None, None, true, false)];
      var t := map[Key(1, 420) := Row(10, 0)];
      var items := [ItemRequest(1, 420, 6, None), ItemRequest(1, 420, 6, None)];
      var after := MoveAll(t, ItemDeltas(items), Reserve);
      && FirstError(catalog, t, items).None?
      && Key(1, 420) in after && after[Key(1, 420)] == Row(10, 12) && Available(after[Key(1, 420)]) == -2
  {
    var catalog := [Product(1, 1, "P", "p", None, 100, None, None, true, false)];
    var t := map[Key(1, 420) := Row(10, 0)];
    var items := [ItemRequest(1, 420, 6, None), ItemRequest(1, 420, 6, None)];
    assert ProductById(catalog, 1) == Some(catalog[0]);
    assert CheckItem(catalog, t, ItemRequest(1, 420, 6, None)).None?;
    var ds := ItemDeltas(items);
    assert ds[..1] == [Delta(Key(1, 420), 6)] && ds[..1][..0] == [];
    assert MoveAll(t, ds[..1], Reserve) == map[Key(1, 420) := Row(10, 6)];
  }

  /** The lines of an order name the same (key, quantity) pairs as the items it was placed
      with, so cancelling an order releases exactly what placing it reserved. */
  lemma CancelUndoesPlacement(catalog: seq<Product>, t: Table, items: seq<ItemRequest>, orderId: int)
    requires AllFound(catalog, items)
    ensures MoveAll(MoveAll(t, ItemDeltas(items), Reserve), LineDeltas(Snapshot(catalog, orderId, items)), Release) == t
  {
    assert LineDeltas(Snapshot(catalog, orderId, items)) == ItemDeltas(items);
    ReleaseUndoesReserve(t, ItemDeltas(items));
  }

  // ---------------------------------------------------------------------------------------
  // Status changes.

  /** The inventory side effect of storing status `st` on an order, keyed on the stored
      status: no row is created or removed, and only cancelling or delivering touches a row. */
  function StatusEffect(t: Table, st: Status, ls: seq<OrderLine>): (r: Table)
    ensures r.Keys == t.Keys
    ensures st != Cancelled && st != Delivered ==> r == t
  {
    match st
    case Cancelled => MoveAll(t, LineDeltas(ls), Release)
    case Delivered => MoveAll(t, LineDeltas(ls), Consume)
    case _ => t
  }

  /** The side effect as the handler writes it: keyed on the request text, compared
      case-sensitively with the two lower-case names, while the column stores any case variant
      of a name. It agrees with `StatusEffect` on the exact names. */
  function StatusEffectAsWritten(t: Table, statusText: string, ls: seq<OrderLine>): (r: Table)
    ensures statusText == StatusName(Cancelled) ==> r == StatusEffect(t, Cancelled, ls)
    ensures statusText == StatusName(Delivered) ==> r == StatusEffect(t, Delivered, ls)
    ensures ParseStatus(statusText) != Some(Cancelled) && ParseStatus(statusText) != Some(Delivered) ==> r == t
  {
    FoldedNames(Cancelled);
    FoldedNames(Delivered);
    if statusText == "cancelled" then MoveAll(t, LineDeltas(ls), Release)
    else if statusText == "delivered" then MoveAll(t, LineDeltas(ls), Consume)
    else t
  }

  /** "Cancelled" is stored as `cancelled`, yet the handler's side effect does not run: an
      order with 2 pairs reserved on a row of 10 is cancelled and the 2 stay reserved, where
      the release the comment promises gives them back. */
  lemma CaseVariantLeaksReservation()
    ensures
      var t := map[Key(1, 420) := Row(10, 2)];
      var ls := [OrderLine(7, 1, "P", 420, 2, 100, None)];
      && ParseStatus("Cancelled") == Some(Cancelled)
      && StatusEffectAsWritten(t, "Cancelled", ls) == t
      && StatusEffect(t, Cancelled, ls) == map[Key(1, 420) := Row(10, 0)]
  {
    var t := map[Key(1, 420) := Row(10, 2)];
    var ls := [OrderLine(7, 1, "P", 420, 2, 100, None)];
    assert Folded("Cancelled") == "cancelled";
    var ds := LineDeltas(ls);
    assert ds == [Delta(Key(1, 420), 2)];
    assert ds[..0] == [];
  }

  /** With the effect keyed on the stored status, cancelling an order under any spelling the
      column stores as `cancelled` gives back exactly what placing it reserved. */
  lemma CancelByAnySpellingUndoesPlacement(catalog: seq<Product>, t: Table, items: seq<ItemRequest>, orderId: int, statusText: string)
    requires AllFound(catalog, items) && ParseStatus(statusText) == Some(Cancelled)
    ensures StatusEffect(MoveAll(t, ItemDeltas(items), Reserve), ParseStatus(statusText).value, Snapshot(catalog, orderId, items)) == t
  {
    CancelUndoesPlacement(catalog, t, items, orderId);
  }

  /** Cancelling raises each row's availability by the quantity its lines name and keeps
      on-hand stock; delivering lowers on-hand stock by that quantity and keeps availability;
      any other status touches no row. No row is created or removed. */
  lemma StatusEffectOnRow(t: Table, st: Status, ls: seq<OrderLine>, k: Key)
    requires k in t
    ensures k in StatusEffect(t, st, ls)
    ensures Available(StatusEffect(t, st, ls)[k]) == Available(t[k]) + (if st == Cancelled then AmountAt(LineDeltas(ls), k) else 0)
    ensures StatusEffect(t, st, ls)[k].quantity == t[k].quantity - (if st == Delivered then AmountAt(LineDeltas(ls), k) else 0)
    ensures st != Cancelled && st != Delivered ==> StatusEffect(t, st, ls) == t
  {
    MoveAllAt(t, LineDeltas(ls), Release, k);
    MoveAllAt(t, LineDeltas(ls), Consume, k);
  }

  // ---------------------------------------------------------------------------------------
  // The order table.

  /** The unique index on `orderNumber` compares under the collation. */
  predicate NumberTaken(orders: seq<Order>, orderNumber: string) {
    exists i :: 0 <= i < |orders| && SameText(orders[i].orderNumber, orderNumber)
  }

  /** The database accepts the order row: required customer fields present, order number unused. */
  predicate RowAccepted(orders: seq<Order>, req: OrderRequest, orderNumber: string) {
    req.customerName.Some? && req.customerEmail.Some? && req.customerPhone.Some? && !NumberTaken(orders, orderNumber)
  }

  /** What always holds of the order tables: ids ascend in creation order and are below the
      next id, order numbers are unique, every line belongs to an order id already issued, and
      every order's total equals the sum of its lines. */
  ghost predicate LedgerInvariant(orders: seq<Order>, lines: seq<OrderLine>, nextId: int) {
    && IdsAscend(orders)
    && NumbersUnique(orders)
    && (forall i :: 0 <= i < |orders| ==> orders[i].id < nextId)
    && LinesIssued(lines, nextId)
    && TotalsMatch(orders, lines)
  }

  ghost predicate IdsAscend(orders: seq<Order>) {
    forall i, j :: 0 <= i < j < |orders| ==> orders[i].id < orders[j].id
  }

  ghost predicate NumbersUnique(orders: seq<Order>) {
    forall i, j :: 0 <= i < j < |orders| ==> !SameText(orders[i].orderNumber, orders[j].orderNumber)
  }

  ghost predicate LinesIssued(lines: seq<OrderLine>, nextId: int) {
    forall i :: 0 <= i < |lines| ==> lines[i].orderId < nextId
  }

  ghost predicate TotalsMatch(orders: seq<Order>, lines: seq<OrderLine>) {
    forall i :: 0 <= i < |orders| ==> LinesTotal(LinesOf(lines, orders[i].id)) == orders[i].totalAmount
  }

  lemma {:induction false} NoLinesYet(lines: seq<OrderLine>, id: int)
    requires LinesIssued(lines, id)
    ensures LinesOf(lines, id) == []
    decreases |lines|
  {
    if lines != [] {
      NoLinesYet(lines[..|lines| - 1], id);
    }
  }

  /** Appending the new order's lines leaves every older order's lines as they were. */
  lemma {:induction false} LinesAfterAppend(lines: seq<OrderLine>, ls: seq<OrderLine>, nextId: int)
    requires LinesIssued(lines, nextId)
    requires forall i :: 0 <= i < |ls| ==> ls[i].orderId == nextId
    ensures LinesOf(lines + ls, nextId) == ls
    ensures forall id :: id != nextId ==> LinesOf(lines + ls, id) == LinesOf(lines, id)
  {
    LinesOfAppend(lines, ls, nextId);
    LinesOfUniform(ls, nextId, nextId);
    NoLinesYet(lines, nextId);
    assert [] + ls == ls;
    forall id | id != nextId ensures LinesOf(lines + ls, id) == LinesOf(lines, id) {
      LinesOfAppend(lines, ls, id);
      LinesOfUniform(ls, nextId, id);
    }
  }

  /** Appending a fresh order with its own lines keeps the invariant. */
  lemma {:induction false} AppendOrderKeepsInvariant(orders: seq<Order>, lines: seq<OrderLine>, nextId: int, o: Order, ls: seq<OrderLine>)
    requires LedgerInvariant(orders, lines, nextId)
    requires o.id == nextId && !NumberTaken(orders, o.orderNumber)
    requires forall i :: 0 <= i < |ls| ==> ls[i].orderId == nextId
    requires LinesTotal(ls) == o.totalAmount
    ensures LedgerInvariant(orders + [o], lines + ls, nextId + 1)
  {
    LinesAfterAppend(lines, ls, nextId);
    assert forall i :: 0 <= i < |orders| + 1 ==> (orders + [o])[i] == if i < |orders| then orders[i] else o;
  }

  /** Overwriting one order's status keeps the invariant. */
  lemma SetStatusKeepsInvariant(orders: seq<Order>, lines: seq<OrderLine>, nextId: int, i: int, st: Status)
    requires LedgerInvariant(orders, lines, nextId) && 0 <= i < |orders|
    ensures LedgerInvariant(orders[i := orders[i].(status := st)], lines, nextId)
  {}

  /** The position of the order with this id. */
  function IndexOfOrder(orders: seq<Order>, id: int): (r: Option<nat>)
    ensures r.Some? ==> r.value < |orders| && orders[r.value].id == id
    ensures r.None? ==> forall i :: 0 <= i < |orders| ==> orders[i].id != id
  {
    if orders == [] then None
    else if orders[0].id == id then Some(0)
    else match IndexOfOrder(orders[1..], id)
      case None => None
      case Some(i) => Some(i + 1)
  }

  class OrderLedger {
    const stock: InventoryController.InventoryTable
    var orders: seq<Order>
    var lines: seq<OrderLine>
    var nextId: int

    ghost predicate Valid()
      reads this
    {
      LedgerInvariant(orders, lines, nextId)
    }

    constructor (stock: InventoryController.InventoryTable)
      ensures this.stock == stock && orders == [] && lines == [] && nextId == 1 && Valid()
    {
      this.stock := stock;
      orders, lines, nextId := [], [], 1;
    }

    /** POST /orders. `orderNumber` is the generated number, supplied by the caller. */
    method CreateOrder(catalog: seq<Product>, req: OrderRequest, orderNumber: string) returns (r: Result<OrderView, PlaceError>)
      requires Valid()
      modifies this, stock
      ensures Valid()
      ensures FirstError(catalog, old(stock.rows), req.items).Some? ==>
        r == Failure(FirstError(catalog, old(stock.rows), req.items).value)
      ensures FirstError(catalog, old(stock.rows), req.items).None? && !RowAccepted(old(orders), req, orderNumber) ==>
        r == Failure(OrderRowRejected)
      ensures r.Success? <==> FirstError(catalog, old(stock.rows), req.items).None? && RowAccepted(old(orders), req, orderNumber)
      ensures r.Failure? ==>
        orders == old(orders) && lines == old(lines) && nextId == old(nextId) && stock.rows == old(stock.rows)
      ensures r.Success? ==>
        && r.value.order == Order(old(nextId), orderNumber, req.customerName.value, req.customerEmail.value,
                                  req.customerPhone.value, req.shippingAddress, ItemsTotal(catalog, req.items), Pending, req.notes)
        && r.value.items == Snapshot(catalog, old(nextId), req.items)
        && r.value.items == LinesOf(lines, r.value.order.id)
        && orders == old(orders) + [r.value.order]
        && lines == old(lines) + Snapshot(catalog, old(nextId), req.items)
        && stock.rows == MoveAll(old(stock.rows), ItemDeltas(req.items), Reserve)
        && nextId == old(nextId) + 1
    {
      var items := req.items;
      var err, total := ValidateItems(catalog, stock.rows, items);
      if err.Some? {
        return Failure(err.value);
      }
      if req.customerName.None? || req.customerEmail.None? || req.customerPhone.None? || NumberTaken(orders, orderNumber) {
        return Failure(OrderRowRejected);
      }

      var id := nextId;
      var order := Order(id, orderNumber, req.customerName.value, req.customerEmail.value, req.customerPhone.value,
                         req.shippingAddress, total, Pending, req.notes);
      var snap := Snapshot(catalog, id, items);
      SnapshotTotal(catalog, id, items);
      AppendOrderKeepsInvariant(orders, lines, id, order, snap);
      LinesAfterAppend(lines, snap, id);
      orders := orders + [order];
      nextId := nextId + 1;
      RecordItems(catalog, id, items);
      r := Success(OrderView(order, snap));
    }

    /** The write pass of a placement: per item, one snapshot line and one reservation. */
    method RecordItems(catalog: seq<Product>, id: int, items: seq<ItemRequest>)
      requires AllFound(catalog, items)
      modifies this, stock
      ensures orders == old(orders) && nextId == old(nextId)
      ensures lines == old(lines) + Snapshot(catalog, id, items)
      ensures stock.rows == MoveAll(old(stock.rows), ItemDeltas(items), Reserve)
    {
      var i := 0;
      while i < |items|
        invariant 0 <= i <= |items|
        invariant orders == old(orders) && nextId == old(nextId)
        invariant lines == old(lines) + Snapshot(catalog, id, items[..i])
        invariant stock.rows == MoveAll(old(stock.rows), ItemDeltas(items)[..i], Reserve)
      {
        var it := items[i];
        SnapshotExtend(catalog, id, items, i);
        lines := lines + [LineFor(catalog, id, it)];
        stock.MoveRow(Delta(ItemKey(it), it.quantity), Reserve);
        assert ItemDeltas(items)[..i + 1][..i] == ItemDeltas(items)[..i];
        i := i + 1;
      }
      assert items[..i] == items;
      assert ItemDeltas(items)[..i] == ItemDeltas(items);
    }

    /** PUT /orders/:id/status. The column stores the status the text names up to case, whatever
        the current one is; a text that names none is refused. The side effect is keyed on the
        stored status and runs again when an order re-enters `cancelled` or `delivered`. The
        answer is the order re-read with its lines. */
    method UpdateOrderStatus(id: int, statusText: string) returns (r: Result<OrderView, OrderError>)
      requires Valid()
      modifies this, stock
      ensures Valid()
      ensures IndexOfOrder(old(orders), id).None? ==> r == Failure(OrderNotFound)
      ensures IndexOfOrder(old(orders), id).Some? && ParseStatus(statusText).None? ==> r == Failure(InvalidStatus)
      ensures r.Failure? ==>
        orders == old(orders) && lines == old(lines) && nextId == old(nextId) && stock.rows == old(stock.rows)
      ensures IndexOfOrder(old(orders), id).Some? && ParseStatus(statusText).Some? ==>
        var i := IndexOfOrder(old(orders), id).value;
        var st := ParseStatus(statusText).value;
        && orders == old(orders)[i := old(orders)[i].(status := st)]
        && lines == old(lines) && nextId == old(nextId)
        && stock.rows == StatusEffect(old(stock.rows), st, LinesOf(lines, id))
        && r == Success(OrderView(orders[i], LinesOf(lines, id)))
    {
      var found := IndexOfOrder(orders, id);
      if found.None? {
        return Failure(OrderNotFound);
      }
      var parsed := ParseStatus(statusText);
      if parsed.None? {
        return Failure(InvalidStatus);
      }
      var i, st := found.value, parsed.value;
      SetStatusKeepsInvariant(orders, lines, nextId, i, st);
      orders := orders[i := orders[i].(status := st)];
      if st == Cancelled || st == Delivered {
        var m := if st == Cancelled then Release else Consume;
        stock.MoveRows(LineDeltas(LinesOf(lines, id)), m);
      }
      r := Success(OrderView(orders[i], LinesOf(lines, id)));
    }
  }

  /** The validation pass of a placement: each item in request order is looked up in the
      catalog and in the inventory as it stands before the order, and the live prices are
      totalled. */
  method ValidateItems(catalog: seq<Product>, t: Table, items: seq<ItemRequest>) returns (err: Option<PlaceError>, total: int)
    ensures err == FirstError(catalog, t, items)
    ensures err.None? ==> total == ItemsTotal(catalog, items)
  {
    total := 0;
    var i := 0;
    while i < |items|
      invariant 0 <= i <= |items|
      invariant AllAccepted(catalog, t, items[..i])
      invariant AllFound(catalog, items[..i])
      invariant total == ItemsTotal(catalog, items[..i])
    {
      var it := items[i];
      var product := ProductById(catalog, it.productId);
      if product.None? {
        FirstErrorAt(catalog, t, items, i);
        return Some(ProductNotFound(it.productId)), total;
      }
      var k := Key(it.productId, it.sizeTenths);
      if k !in t || t[k].quantity - t[k].reserved < it.quantity {
        FirstErrorAt(catalog, t, items, i);
        return Some(OutOfStock(product.value.name, it.sizeTenths)), total;
      }
      assert items[..i + 1][..i] == items[..i];
      total := total + product.value.price * it.quantity;
      i := i + 1;
    }
    assert items[..i] == items;
    err := None;
  }

  // ---------------------------------------------------------------------------------------
  // Reading orders.

  /** An order together with its lines, as the read endpoints answer it. */
  datatype OrderView = OrderView(order: Order, items: seq<OrderLine>)

  const OrdersDefaultLimit: int := 20

  function GetOrderById(orders: seq<Order>, lines: seq<OrderLine>, id: int): (r: Result<OrderView, OrderError>)
    ensures r.Success? ==> r.value.order in orders && r.value.order.id == id && r.value.items == LinesOf(lines, id)
    ensures r.Failure? <==> forall i :: 0 <= i < |orders| ==> orders[i].id != id
    ensures r.Failure? ==> r.error == OrderNotFound
  {
    match IndexOfOrder(orders, id)
    case None => Failure(OrderNotFound)
    case Some(i) => Success(OrderView(orders[i], LinesOf(lines, id)))
  }

  /** `if (status)`: an absent or empty filter is no filter. */
  function StatusFilter(status: Option<string>): Option<string> {
    if status.None? || status.value == "" then None else status
  }

  /** The orders a status filter keeps, in table order: all of them without a filter, and with
      one those whose status has the filter's spelling up to case, so an unknown text keeps
      none. */
  function WithStatus(orders: seq<Order>, filter: Option<string>): (r: seq<Order>)
    ensures forall o :: o in r <==> o in orders && (filter.Some? ==> StatusName(o.status) == Folded(filter.value))
    ensures |r| <= |orders|
    decreases |orders|
  {
    if orders == [] then []
    else
      var n := |orders| - 1;
      assert orders == orders[..n] + [orders[n]];
      var front := WithStatus(orders[..n], filter);
      if filter.None? || StatusName(orders[n].status) == Folded(filter.value) then front + [orders[n]] else front
  }

  function Views(orders: seq<Order>, lines: seq<OrderLine>): (r: seq<OrderView>)
    ensures |r| == |orders| && forall i :: 0 <= i < |orders| ==> r[i] == OrderView(orders[i], LinesOf(lines, orders[i].id))
  {
    seq(|orders|, i requires 0 <= i < |orders| => OrderView(orders[i], LinesOf(lines, orders[i].id)))
  }

  /** GET /orders: optional status filter compared under the collation (an empty one is no
      filter), newest first, `(page - 1) * limit` offset with defaults page 1 and limit 20.
      Only negative bounds fail; the total counts the orders the filter keeps. */
  function ListOrders(orders: seq<Order>, lines: seq<OrderLine>, status: Option<string>, page: Option<int>, limit: Option<int>)
    : (r: Result<Paged<OrderView>, OrderError>)
    ensures r.Failure? <==>
      limit.GetOr(OrdersDefaultLimit) < 0 || Offset(page.GetOr(DefaultPage), limit.GetOr(OrdersDefaultLimit)) < 0
    ensures r.Failure? ==> r.error == BadPage(NegativeBounds)
    ensures r.Success? ==>
      && r.value.info.total == |WithStatus(orders, StatusFilter(status))|
      && |r.value.rows| <= limit.GetOr(OrdersDefaultLimit)
  {
    match Paginate(Views(NewestFirst(WithStatus(orders, StatusFilter(status))), lines), page.GetOr(DefaultPage), limit.GetOr(OrdersDefaultLimit))
    case Failure(e) => Failure(BadPage(e))
    case Success(p) => Success(p)
  }

  /** Every listed order passes the filter and carries its own lines; the total counts every
      order the filter keeps. */
  lemma ListedOrdersMatch(orders: seq<Order>, lines: seq<OrderLine>, status: Option<string>, page: Option<int>, limit: Option<int>)
    requires ListOrders(orders, lines, status, page, limit).Success?
    ensures var p := ListOrders(orders, lines, status, page, limit).value;
      && (forall v :: v in p.rows ==>
            && v.order in orders
            && (StatusFilter(status).Some? ==> StatusName(v.order.status) == Folded(status.value))
            && v.items == LinesOf(lines, v.order.id))
      && p.info.total == |WithStatus(orders, StatusFilter(status))|
  {
    var f := WithStatus(orders, StatusFilter(status));
    var all := Views(NewestFirst(f), lines);
    var pg, lim := page.GetOr(DefaultPage), limit.GetOr(OrdersDefaultLimit);
    PageRowsFromListing(all, pg, lim);
    NewestFirstSameElements(f);
    forall v | v in all ensures v.order in f && v.items == LinesOf(lines, v.order.id) {
      var j :| 0 <= j < |all| && all[j] == v;
    }
  }

  /** A filter naming no status is not refused: the answer is an empty page with total 0. */
  lemma UnknownStatusListsNothing(orders: seq<Order>, lines: seq<OrderLine>, text: string, page: Option<int>, limit: Option<int>)
    requires text != "" && ParseStatus(text).None?
    ensures ListOrders(orders, lines, Some(text), page, limit).Success? ==>
      var p := ListOrders(orders, lines, Some(text), page, limit).value;
      p.rows == [] && p.info.total == 0
  {
    var f := WithStatus(orders, Some(text));
    if f != [] {
      assert f[0] in f;
    }
  }

  /** The filter ignores case: texts that fold alike list the same page. */
  lemma FilterIgnoresCase(orders: seq<Order>, lines: seq<OrderLine>, a: string, b: string, page: Option<int>, limit: Option<int>)
    requires Folded(a) == Folded(b)
    ensures ListOrders(orders, lines, Some(a), page, limit) == ListOrders(orders, lines, Some(b), page, limit)
  {
    if a != "" {
      SameFoldSameOrders(orders, a, b);
    }
  }

  lemma {:induction false} SameFoldSameOrders(orders: seq<Order>, a: string, b: string)
    requires Folded(a) == Folded(b)
    ensures WithStatus(orders, Some(a)) == WithStatus(orders, Some(b))
    decreases |orders|
  {
    if orders != [] {
      SameFoldSameOrders(orders[..|orders| - 1], a, b);
    }
  }

  /** With no filter, page or limit, the 20 newest orders are answered, newest first. */
  lemma ListOrdersDefaults(orders: seq<Order>, lines: seq<OrderLine>)
    ensures ListOrders(orders, lines, None, None, None).Success?
    ensures var p := ListOrders(orders, lines, None, None, None).value;
      && |p.rows| == Min(20, |orders|)
      && (forall j :: 0 <= j < |p.rows| ==> p.rows[j].order == orders[|orders| - 1 - j])
      && p.info == PageInfo(|orders|, 1, 20, Some(CeilDiv(|orders|, 20)))
  {
    AllStatuses(orders);
    var all := Views(NewestFirst(orders), lines);
    var p := Paginate(all, 1, 20);
    assert Offset(1, 20) == 0;
    assert p.Success?;
    assert ListOrders(orders, lines, None, None, None) == Success(p.value);
  }

  lemma {:induction false} AllStatuses(orders: seq<Order>)
    ensures WithStatus(orders, None) == orders
    decreases |orders|
  {
    if orders != [] {
      var n := |orders| - 1;
      var front := orders[..n];
      AllStatuses(front);
      assert front + [orders[n]] == orders;
    }
  }
}

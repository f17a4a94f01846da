/**
 * The storefront's cart: a sequence of lines keyed by (product id, size, customization).
 * Adding merges into the line with the same key or appends; removing and re-quantifying act
 * on every line with the key.
 */
module Cart {
  import opened Wrappers
  import opened Catalog

  datatype CartLine = CartLine(product: Product, sizeTenths: int, quantity: int, customization: Option<Customization>)

  /** What identifies a line; customizations are compared structurally. */
  datatype LineKey = LineKey(productId: int, sizeTenths: int, customization: Option<Customization>)

  function KeyOf(l: CartLine): LineKey {
    LineKey(l.product.id, l.sizeTenths, l.customization)
  }

  ghost predicate DistinctKeys(items: seq<CartLine>) {
    forall i, j :: 0 <= i < j < |items| ==> KeyOf(items[i]) != KeyOf(items[j])
  }

  /** The index of the first line with key `k`, or -1. */
  function FindIndex(items: seq<CartLine>, k: LineKey): (r: int)
    ensures -1 <= r < |items|
    ensures r >= 0 ==> KeyOf(items[r]) == k
    ensures forall j :: 0 <= j < |items| && (r < 0 || j < r) ==> KeyOf(items[j]) != k
  {
    if items == [] then -1
    else if KeyOf(items[0]) == k then 0
    else
      var r := FindIndex(items[1..], k);
      assert forall j :: 1 <= j < |items| ==> items[j] == items[1..][j - 1];
      if r < 0 then -1 else r + 1
  }

  /** The cart after adding `item`. */
  function Added(items: seq<CartLine>, item: CartLine): (r: seq<CartLine>)
    ensures FindIndex(items, KeyOf(item)) >= 0 ==>
      var i := FindIndex(items, KeyOf(item));
      && |r| == |items|
      && r[i].quantity == items[i].quantity + item.quantity
      && r[i].(quantity := items[i].quantity) == items[i]
      && forall j :: 0 <= j < |items| && j != i ==> r[j] == items[j]
    ensures FindIndex(items, KeyOf(item)) < 0 ==> |r| == |items| + 1 && r[..|items|] == items && r[|items|] == item
  {
    var i := FindIndex(items, KeyOf(item));
    if i >= 0 then items[i := items[i].(quantity := items[i].quantity + item.quantity)]
    else items + [item]
  }

  /** The lines whose key is not `k`, in their original order. */
  function Removed(items: seq<CartLine>, k: LineKey): (r: seq<CartLine>)
    ensures forall l :: l in r <==> l in items && KeyOf(l) != k
    ensures |r| <= |items|
    decreases |items|
  {
    if items == [] then []
    else
      var n := |items| - 1;
      assert items == items[..n] + [items[n]];
      var front := Removed(items[..n], k);
      if KeyOf(items[n]) == k then front else front + [items[n]]
  }

  /** Every line with key `k` gets quantity `q`; nothing else changes. */
  function Requantified(items: seq<CartLine>, k: LineKey, q: int): (r: seq<CartLine>)
    ensures |r| == |items|
    ensures forall i :: 0 <= i < |items| ==>
      && r[i].(quantity := items[i].quantity) == items[i]
      && r[i].quantity == (if KeyOf(items[i]) == k then q else items[i].quantity)
  {
    seq(|items|, i requires 0 <= i < |items| => if KeyOf(items[i]) == k then items[i].(quantity := q) else items[i])
  }

  /** The price a line is charged per pair: JavaScript's `discountPrice || price` treats an
      absent and a zero discount alike, so the discount wins exactly when it is set and not 0. */
  function UnitPrice(p: Product): (r: int)
    ensures r == p.price || (p.discountPrice.Some? && r == p.discountPrice.value)
    ensures p.discountPrice.Some? && p.discountPrice.value != 0 ==> r == p.discountPrice.value
    ensures p.discountPrice.None? || p.discountPrice.value == 0 ==> r == p.price
  {
    if p.discountPrice.Some? && p.discountPrice.value != 0 then p.discountPrice.value else p.price
  }

  /** Σ unit price × quantity, folded first to last as `reduce` does. With no negative
      quantity or price the total is not negative. */
  function TotalPrice(items: seq<CartLine>): (r: int)
    ensures (forall i :: 0 <= i < |items| ==> items[i].quantity >= 0 && UnitPrice(items[i].product) >= 0) ==> r >= 0
    decreases |items|
  {
    if items == [] then 0
    else
      var n := |items| - 1;
      assert forall i :: 0 <= i < n ==> items[..n][i] == items[i];
      TotalPrice(items[..n]) + UnitPrice(items[n].product) * items[n].quantity
  }

  /** Σ quantity, the header badge. With no negative quantity the count is at least the
      quantity of every single line. */
  function TotalItems(items: seq<CartLine>): (r: int)
    ensures (forall i :: 0 <= i < |items| ==> items[i].quantity >= 0) ==>
      r >= 0 && forall i :: 0 <= i < |items| ==> items[i].quantity <= r
    decreases |items|
  {
    if items == [] then 0
    else
      var n := |items| - 1;
      assert forall i :: 0 <= i < n ==> items[..n][i] == items[i];
      TotalItems(items[..n]) + items[n].quantity
  }

  // ---------------------------------------------------------------------------------------
  // Totals.

  lemma {:induction false} TotalsAppend(a: seq<CartLine>, b: seq<CartLine>)
    ensures TotalPrice(a + b) == TotalPrice(a) + TotalPrice(b)
    ensures TotalItems(a + b) == TotalItems(a) + TotalItems(b)
    decreases |b|
  {
    if b == [] {
      assert a + b == a;
    } else {
      var n := |b| - 1;
      assert (a + b)[..|a + b| - 1] == a + b[..n];
      TotalsAppend(a, b[..n]);
    }
  }

  /** Replacing one line changes each total by the difference that line makes. */
  lemma {:induction false} TotalsUpdate(items: seq<CartLine>, i: int, l: CartLine)
    requires 0 <= i < |items|
    ensures TotalItems(items[i := l]) == TotalItems(items) - items[i].quantity + l.quantity
    ensures TotalPrice(items[i := l]) ==
      TotalPrice(items) - UnitPrice(items[i].product) * items[i].quantity + UnitPrice(l.product) * l.quantity
  {
    var u := items[i := l];
    assert items == items[..i] + [items[i]] + items[i + 1..];
    assert u == items[..i] + [l] + items[i + 1..];
    TotalsAppend(items[..i] + [items[i]], items[i + 1..]);
    TotalsAppend(items[..i], [items[i]]);
    TotalsAppend(items[..i] + [l], items[i + 1..]);
    TotalsAppend(items[..i], [l]);
    assert [items[i]][..0] == [] && [l][..0] == [];
  }

  /** Adding raises the item count by the added quantity, and the price total by the added
      quantity at the unit price of the line it lands on: the cart's own copy of the product
      when the key was already present, the added product otherwise. */
  lemma AddTotals(items: seq<CartLine>, item: CartLine)
    ensures TotalItems(Added(items, item)) == TotalItems(items) + item.quantity
    ensures var i := FindIndex(items, KeyOf(item));
      TotalPrice(Added(items, item)) ==
        TotalPrice(items) + (if i >= 0 then UnitPrice(items[i].product) else UnitPrice(item.product)) * item.quantity
  {
    var i := FindIndex(items, KeyOf(item));
    if i >= 0 {
      MergeTotals(items, i, item.quantity);
    } else {
      TotalsAppend(items, [item]);
      assert [item][..0] == [];
    }
  }

  /** Raising line i's quantity by n raises the totals by n pairs at that line's unit price. */
  lemma MergeTotals(items: seq<CartLine>, i: int, n: int)
    requires 0 <= i < |items|
    ensures var u := items[i := items[i].(quantity := items[i].quantity + n)];
      && TotalItems(u) == TotalItems(items) + n
      && TotalPrice(u) == TotalPrice(items) + UnitPrice(items[i].product) * n
  {
    var l := items[i].(quantity := items[i].quantity + n);
    TotalsUpdate(items, i, l);
    var p := UnitPrice(items[i].product);
    assert p * (items[i].quantity + n) == p * items[i].quantity + p * n;
  }

  /** The lines whose key is `k`. */
  function Matching(items: seq<CartLine>, k: LineKey): (r: seq<CartLine>)
    ensures forall l :: l in r ==> l in items && KeyOf(l) == k
    decreases |items|
  {
    if items == [] then []
    else
      var n := |items| - 1;
      var front := Matching(items[..n], k);
      if KeyOf(items[n]) == k then front + [items[n]] else front
  }

  /** Removing a key drops exactly its lines' contribution to the totals. */
  lemma {:induction false} RemoveTotals(items: seq<CartLine>, k: LineKey)
    ensures TotalItems(Removed(items, k)) + TotalItems(Matching(items, k)) == TotalItems(items)
    ensures TotalPrice(Removed(items, k)) + TotalPrice(Matching(items, k)) == TotalPrice(items)
    decreases |items|
  {
    if items != [] {
      var n := |items| - 1;
      RemoveTotals(items[..n], k);
      TotalsAppend(Removed(items[..n], k), [items[n]]);
      TotalsAppend(Matching(items[..n], k), [items[n]]);
      assert [items[n]][..0] == [];
    }
  }

  // ---------------------------------------------------------------------------------------
  // Order and keys.

  /** Removal is a filter: it distributes over concatenation and keeps or drops each line by
      its key, so the kept lines stay in their relative order. */
  lemma {:induction false} RemovedAppend(a: seq<CartLine>, b: seq<CartLine>, k: LineKey)
    ensures Removed(a + b, k) == Removed(a, k) + Removed(b, k)
    decreases |b|
  {
    if b == [] {
      assert a + b == a;
    } else {
      var n := |b| - 1;
      assert (a + b)[..|a + b| - 1] == a + b[..n];
      RemovedAppend(a, b[..n], k);
    }
  }

  lemma RemovedSingle(l: CartLine, k: LineKey)
    ensures Removed([l], k) == if KeyOf(l) == k then [] else [l]
  {
    assert [l][..0] == [];
  }

  lemma {:induction false} RemovedWithoutKey(items: seq<CartLine>, k: LineKey)
    requires forall i :: 0 <= i < |items| ==> KeyOf(items[i]) != k
    ensures Removed(items, k) == items
    decreases |items|
  {
    if items != [] {
      var n := |items| - 1;
      RemovedWithoutKey(items[..n], k);
      assert items[..n] + [items[n]] == items;
    }
  }

  lemma AddKeepsKeysDistinct(items: seq<CartLine>, item: CartLine)
    requires DistinctKeys(items)
    ensures DistinctKeys(Added(items, item))
  {
    var r := Added(items, item);
    if FindIndex(items, KeyOf(item)) >= 0 {
      assert forall j :: 0 <= j < |items| ==> KeyOf(r[j]) == KeyOf(items[j]);
    } else {
      assert forall j :: 0 <= j < |items| ==> r[j] == items[j];
    }
  }

  lemma {:induction false} RemoveKeepsKeysDistinct(items: seq<CartLine>, k: LineKey)
    requires DistinctKeys(items)
    ensures DistinctKeys(Removed(items, k))
    decreases |items|
  {
    if items != [] {
      var n := |items| - 1;
      assert DistinctKeys(items[..n]);
      RemoveKeepsKeysDistinct(items[..n], k);
      var front := Removed(items[..n], k);
      forall l | l in front ensures KeyOf(l) != KeyOf(items[n]) {
        assert l in items[..n];
      }
    }
  }

  lemma UpdateKeepsKeysDistinct(items: seq<CartLine>, k: LineKey, q: int)
    requires DistinctKeys(items)
    ensures DistinctKeys(Requantified(items, k, q))
  {
    var r := Requantified(items, k, q);
    assert forall j :: 0 <= j < |items| ==> KeyOf(r[j]) == KeyOf(items[j]);
  }

  /** The hook's operations, as a client issues them. */
  datatype CartOp = Add(item: CartLine) | Remove(key: LineKey) | SetQuantity(key: LineKey, quantity: int) | Clear

  function Apply(items: seq<CartLine>, op: CartOp): seq<CartLine> {
    match op
    case Add(item) => Added(items, item)
    case Remove(k) => Removed(items, k)
    case SetQuantity(k, q) => Requantified(items, k, q)
    case Clear => []
  }

  function Run(items: seq<CartLine>, ops: seq<CartOp>): seq<CartLine>
    decreases |ops|
  {
    if ops == [] then items else Apply(Run(items, ops[..|ops| - 1]), ops[|ops| - 1])
  }

  /** From the empty cart, no sequence of operations produces two lines with the same key. */
  lemma {:induction false} RunKeepsKeysDistinct(ops: seq<CartOp>)
    ensures DistinctKeys(Run([], ops))
    decreases |ops|
  {
    if ops != [] {
      var n := |ops| - 1;
      RunKeepsKeysDistinct(ops[..n]);
      var before := Run([], ops[..n]);
      match ops[n]
      case Add(item) => AddKeepsKeysDistinct(before, item);
      case Remove(k) => RemoveKeepsKeysDistinct(before, k);
      case SetQuantity(k, q) => UpdateKeepsKeysDistinct(before, k, q);
      case Clear =>
    }
  }

  /** Adding a line under a new key and then removing that key gives back the cart. */
  lemma AddThenRemove(items: seq<CartLine>, item: CartLine)
    requires DistinctKeys(items) && FindIndex(items, KeyOf(item)) < 0
    ensures Removed(Added(items, item), KeyOf(item)) == items
  {
    RemovedAppend(items, [item], KeyOf(item));
    RemovedSingle(item, KeyOf(item));
    RemovedWithoutKey(items, KeyOf(item));
  }

  // ---------------------------------------------------------------------------------------
  // The hook's state.

  class ShoppingCart {
    var items: seq<CartLine>

    constructor ()
      ensures items == []
    {
      items := [];
    }

    method AddToCart(item: CartLine)
      modifies this
      ensures items == Added(old(items), item)
    {
      var k := KeyOf(item);
      var i := 0;
      while i < |items| && KeyOf(items[i]) != k
        invariant 0 <= i <= |items|
        invariant forall j :: 0 <= j < i ==> KeyOf(items[j]) != k
      {
        i := i + 1;
      }
      if i < |items| {
        items := items[i := items[i].(quantity := items[i].quantity + item.quantity)];
      } else {
        items := items + [item];
      }
    }

    method RemoveFromCart(productId: int, sizeTenths: int, customization: Option<Customization>)
      modifies this
      ensures items == Removed(old(items), LineKey(productId, sizeTenths, customization))
    {
      items := Removed(items, LineKey(productId, sizeTenths, customization));
    }

    method UpdateQuantity(productId: int, sizeTenths: int, quantity: int, customization: Option<Customization>)
      modifies this
      ensures items == Requantified(old(items), LineKey(productId, sizeTenths, customization), quantity)
    {
      items := Requantified(items, LineKey(productId, sizeTenths, customization), quantity);
    }

    method ClearCart()
      modifies this
      ensures items == []
    {
      items := [];
    }
  }
}

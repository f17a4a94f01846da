/**
 * The inventory table: one row per (product, size), holding the on-hand quantity and the
 * quantity held by pending orders. Sizes are DECIMAL(4,1) in the schema and are integer
 * tenths here (42.5 is 425), so the table key is exact.
 */
module InventoryModel {

  /** The unique (productId, size) index of the table. */
  datatype Key = Key(productId: int, sizeTenths: int)

  datatype Row = Row(quantity: int, reserved: int)

  /** Keying the table by (productId, size) makes "at most one row per key" structural. */
  type Table = map<Key, Row>

  /** A row created without an explicit reserved quantity starts with nothing reserved. */
  function NewRow(quantity: int): (r: Row)
    ensures r.reserved == 0 && r.quantity == quantity
    ensures Available(r) == quantity
  {
    Row(quantity, 0)
  }

  /** What can still be sold: on-hand minus reserved. */
  function Available(r: Row): int {
    r.quantity - r.reserved
  }

  /** Lexicographic order on keys: by product, then by size. */
  predicate KeyBefore(a: Key, b: Key) {
    a.productId < b.productId || (a.productId == b.productId && a.sizeTenths < b.sizeTenths)
  }

  // ---------------------------------------------------------------------------------------
  // Stock movements driven by the order workflow. Every movement names a row by key and
  // an amount; a movement against a key with no row touches nothing, as an SQL increment
  // or decrement whose WHERE matches no row does.

  datatype Delta = Delta(key: Key, amount: int)

  /** Reserve: a placed order holds stock. Release: a cancelled order gives it back.
      Consume: a delivered order takes it off the shelf and out of the reservation. */
  datatype Movement = Reserve | Release | Consume

  function Move(r: Row, m: Movement, n: int): Row {
    match m
    case Reserve => Row(r.quantity, r.reserved + n)
    case Release => Row(r.quantity, r.reserved - n)
    case Consume => Row(r.quantity - n, r.reserved - n)
  }

  function MoveOne(t: Table, d: Delta, m: Movement): Table {
    if d.key in t then t[d.key := Move(t[d.key], m, d.amount)] else t
  }

  /** The movements applied one after another, first to last. No row is created or removed. */
  function MoveAll(t: Table, ds: seq<Delta>, m: Movement): (r: Table)
    ensures r.Keys == t.Keys
    decreases |ds|
  {
    if ds == [] then t else MoveOne(MoveAll(t, ds[..|ds| - 1], m), ds[|ds| - 1], m)
  }

  /** The total amount the deltas name for key k. */
  function AmountAt(ds: seq<Delta>, k: Key): int
    decreases |ds|
  {
    if ds == [] then 0
    else AmountAt(ds[..|ds| - 1], k) + (if ds[|ds| - 1].key == k then ds[|ds| - 1].amount else 0)
  }

  ghost predicate DistinctDeltaKeys(ds: seq<Delta>) {
    forall i, j :: 0 <= i < j < |ds| ==> ds[i].key != ds[j].key
  }

  /** Applying a run of movements equals one movement by the total amount per key; rows are
      neither created nor deleted. */
  lemma {:induction false} MoveAllAt(t: Table, ds: seq<Delta>, m: Movement, k: Key)
    ensures k in MoveAll(t, ds, m) <==> k in t
    ensures k in t ==> MoveAll(t, ds, m)[k] == Move(t[k], m, AmountAt(ds, k))
    decreases |ds|
  {
    if ds != [] {
      MoveAllAt(t, ds[..|ds| - 1], m, k);
    }
  }

  /** A key that no delta names gets amount 0. */
  lemma {:induction false} AmountAtAbsent(ds: seq<Delta>, k: Key)
    requires forall i :: 0 <= i < |ds| ==> ds[i].key != k
    ensures AmountAt(ds, k) == 0
    decreases |ds|
  {
    if ds != [] {
      AmountAtAbsent(ds[..|ds| - 1], k);
    }
  }

  /** With distinct keys, the amount at a named key is that one delta's amount. */
  lemma {:induction false} AmountAtDistinct(ds: seq<Delta>, i: int)
    requires DistinctDeltaKeys(ds) && 0 <= i < |ds|
    ensures AmountAt(ds, ds[i].key) == ds[i].amount
    decreases |ds|
  {
    var last := |ds| - 1;
    if i == last {
      AmountAtAbsent(ds[..last], ds[i].key);
    } else {
      AmountAtDistinct(ds[..last], i);
    }
  }

  /** Releasing what was reserved leaves the table as it was. */
  lemma ReleaseUndoesReserve(t: Table, ds: seq<Delta>)
    ensures MoveAll(MoveAll(t, ds, Reserve), ds, Release) == t
  {
    var u := MoveAll(MoveAll(t, ds, Reserve), ds, Release);
    forall k | k in t ensures u[k] == t[k] {
      MoveAllAt(t, ds, Reserve, k);
      MoveAllAt(MoveAll(t, ds, Reserve), ds, Release, k);
    }
  }

  /** Consuming keeps every row's availability and lowers its on-hand quantity by the
      amount consumed at that key. */
  lemma ConsumeKeepsAvailable(t: Table, ds: seq<Delta>, k: Key)
    requires k in t
    ensures k in MoveAll(t, ds, Consume)
    ensures Available(MoveAll(t, ds, Consume)[k]) == Available(t[k])
    ensures MoveAll(t, ds, Consume)[k].quantity == t[k].quantity - AmountAt(ds, k)
  {
    MoveAllAt(t, ds, Consume, k);
  }

  /** Releasing raises availability by the amount released and leaves on-hand alone. */
  lemma ReleaseRaisesAvailable(t: Table, ds: seq<Delta>, k: Key)
    requires k in t
    ensures k in MoveAll(t, ds, Release)
    ensures Available(MoveAll(t, ds, Release)[k]) == Available(t[k]) + AmountAt(ds, k)
    ensures MoveAll(t, ds, Release)[k].quantity == t[k].quantity
  {
    MoveAllAt(t, ds, Release, k);
  }

  /** Reserving lowers availability by the amount reserved and leaves on-hand alone. */
  lemma ReserveLowersAvailable(t: Table, ds: seq<Delta>, k: Key)
    requires k in t
    ensures k in MoveAll(t, ds, Reserve)
    ensures MoveAll(t, ds, Reserve)[k].reserved == t[k].reserved + AmountAt(ds, k)
    ensures MoveAll(t, ds, Reserve)[k].quantity == t[k].quantity
  {
    MoveAllAt(t, ds, Reserve, k);
  }
}

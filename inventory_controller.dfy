/**
 * The inventory endpoints: availability check, the manager's upsert of on-hand quantity
 * (single and bulk), and the two sorted listings.
 */
module InventoryController {
  import opened Wrappers
  import opened InventoryModel

  /** The availability answer: `quantity` is what can still be sold. */
  datatype Availability = Availability(available: bool, quantity: int)

  /** An absent row is not an error: it reads as nothing available. For a present row the
      figure is on-hand minus reserved, and it is available exactly when that is positive. */
  function CheckAvailability(t: Table, k: Key): (r: Availability)
    ensures k !in t ==> r == Availability(false, 0)
    ensures k in t ==> r.quantity == t[k].quantity - t[k].reserved && (r.available <==> r.quantity > 0)
  {
    if k !in t then Availability(false, 0)
    else Availability(Available(t[k]) > 0, Available(t[k]))
  }

  /** Find-or-create, then overwrite on-hand quantity: the row for `k` exists afterwards with
      the new quantity and its old reservation (0 for a new row); no other row changes. */
  function Upserted(t: Table, k: Key, quantity: int): (r: Table)
    ensures r.Keys == t.Keys + {k}
    ensures r[k] == Row(quantity, if k in t then t[k].reserved else 0)
    ensures forall k' :: k' in t && k' != k ==> r[k'] == t[k']
  {
    if k in t then t[k := t[k].(quantity := quantity)] else t[k := NewRow(quantity)]
  }

  lemma UpsertIdempotent(t: Table, k: Key, quantity: int)
    ensures Upserted(Upserted(t, k, quantity), k, quantity) == Upserted(t, k, quantity)
  {}

  /** The foreign key of `productId`: creating a row needs a product row with that id (active
      or soft-deleted). The database refuses the insert and the endpoint answers 500. */
  datatype InventoryError = ProductMissing(productId: int)

  /** An upsert of k can be written when it overwrites an existing row, or when the row it
      creates names an existing product. */
  predicate Writable(t: Table, products: set<int>, k: Key) {
    k in t || k.productId in products
  }

  datatype StockLevel = StockLevel(productId: int, sizeTenths: int, quantity: int)

  function LevelKey(l: StockLevel): Key { Key(l.productId, l.sizeTenths) }

  ghost predicate AllWritable(t: Table, products: set<int>, levels: seq<StockLevel>) {
    forall i :: 0 <= i < |levels| ==> Writable(t, products, LevelKey(levels[i]))
  }

  /** The items of a bulk update whose upsert the foreign key lets through, in request order.
      The refused items are exactly those naming a new key of a missing product. */
  function WritableLevels(t: Table, products: set<int>, levels: seq<StockLevel>): (r: seq<StockLevel>)
    ensures forall i :: 0 <= i < |r| ==> Writable(t, products, LevelKey(r[i]))
    ensures forall l :: l in r ==> l in levels
    ensures (forall i :: 0 <= i < |levels| ==> Writable(t, products, LevelKey(levels[i]))) ==> r == levels
    decreases |levels|
  {
    if levels == [] then []
    else
      var n := |levels| - 1;
      var l := levels[n];
      assert levels == levels[..n] + [l];
      var front := WritableLevels(t, products, levels[..n]);
      if Writable(t, products, LevelKey(l)) then front + [l] else front
  }

  /** The bulk update, one item after another, first to last. Afterwards every old row and
      every listed key has a row, and no reservation has changed. */
  function BulkUpserted(t: Table, levels: seq<StockLevel>): (r: Table)
    ensures t.Keys <= r.Keys
    ensures forall i :: 0 <= i < |levels| ==> LevelKey(levels[i]) in r
    ensures forall k :: k in r ==> r[k].reserved == if k in t then t[k].reserved else 0
    decreases |levels|
  {
    if levels == [] then t
    else
      var n := |levels| - 1;
      var l := levels[n];
      assert levels == levels[..n] + [l];
      Upserted(BulkUpserted(t, levels[..n]), LevelKey(l), l.quantity)
  }

  ghost predicate DistinctLevelKeys(levels: seq<StockLevel>) {
    forall i, j :: 0 <= i < j < |levels| ==> LevelKey(levels[i]) != LevelKey(levels[j])
  }

  /** A bulk update over distinct keys sets every listed key to exactly its quantity (keeping
      its reservation, or 0 for a new row). */
  lemma {:induction false} BulkUpsertListed(t: Table, levels: seq<StockLevel>)
    requires DistinctLevelKeys(levels)
    ensures forall i :: 0 <= i < |levels| ==>
      var k := LevelKey(levels[i]);
      k in BulkUpserted(t, levels) &&
      BulkUpserted(t, levels)[k] == Row(levels[i].quantity, if k in t then t[k].reserved else 0)
    decreases |levels|
  {
    if levels != [] {
      var n := |levels| - 1;
      var front := levels[..n];
      var last := levels[n];
      assert BulkUpserted(t, levels) == Upserted(BulkUpserted(t, front), LevelKey(last), last.quantity);
      assert DistinctLevelKeys(front);
      BulkUpsertListed(t, front);
      assert forall i :: 0 <= i < n ==> front[i] == levels[i] && LevelKey(levels[i]) != LevelKey(last);
    }
  }

  /** A bulk update leaves every row whose key it does not list as it was. */
  lemma {:induction false} BulkUpsertUnlisted(t: Table, levels: seq<StockLevel>)
    ensures forall k :: (forall i :: 0 <= i < |levels| ==> LevelKey(levels[i]) != k) ==>
      (k in BulkUpserted(t, levels) <==> k in t) &&
      (k in t ==> BulkUpserted(t, levels)[k] == t[k])
    decreases |levels|
  {
    if levels != [] {
      var n := |levels| - 1;
      var front := levels[..n];
      BulkUpsertUnlisted(t, front);
      forall k | forall i :: 0 <= i < |levels| ==> LevelKey(levels[i]) != k
        ensures (k in BulkUpserted(t, levels) <==> k in t) &&
          (k in t ==> BulkUpserted(t, levels)[k] == t[k])
      {
        forall i | 0 <= i < n ensures LevelKey(front[i]) != k {
          assert front[i] == levels[i];
        }
        assert LevelKey(levels[n]) != k;
      }
    }
  }

  /** Writing items that the foreign key lets through creates rows only for existing
      products, so whether a later upsert can be written is the same before and after. */
  lemma WritableAfterBulk(t: Table, products: set<int>, levels: seq<StockLevel>, k: Key)
    requires forall i :: 0 <= i < |levels| ==> Writable(t, products, LevelKey(levels[i]))
    ensures Writable(BulkUpserted(t, levels), products, k) <==> Writable(t, products, k)
  {
    BulkUpsertUnlisted(t, levels);
  }

  lemma WritableLevelsStep(t: Table, products: set<int>, levels: seq<StockLevel>, i: int)
    requires 0 <= i < |levels|
    ensures WritableLevels(t, products, levels[..i + 1]) ==
      WritableLevels(t, products, levels[..i]) + if Writable(t, products, LevelKey(levels[i])) then [levels[i]] else []
    ensures AllWritable(t, products, levels[..i + 1]) <==>
      AllWritable(t, products, levels[..i]) && Writable(t, products, LevelKey(levels[i]))
  {
    assert levels[..i + 1][..i] == levels[..i];
    assert (forall j :: 0 <= j < i ==> levels[..i + 1][j] == levels[..i][j]) && levels[..i + 1][i] == levels[i];
  }

  lemma BulkUpsertedSnoc(t: Table, w: seq<StockLevel>, l: StockLevel)
    ensures BulkUpserted(t, w + [l]) == Upserted(BulkUpserted(t, w), LevelKey(l), l.quantity)
  {
    assert (w + [l])[..|w|] == w;
  }

  /** The table after a bulk update of `levels`: the upserts the foreign key lets through. */
  ghost function BulkWritten(t: Table, products: set<int>, levels: seq<StockLevel>): Table {
    BulkUpserted(t, WritableLevels(t, products, levels))
  }

  /** One more item of a bulk update: its upsert is applied when it can be written, and
      whether it can be written does not depend on the items before it. */
  lemma BulkStep(t: Table, products: set<int>, levels: seq<StockLevel>, i: int)
    requires 0 <= i < |levels|
    ensures AllWritable(t, products, levels[..i + 1]) <==>
      AllWritable(t, products, levels[..i]) && Writable(t, products, LevelKey(levels[i]))
    ensures var before := BulkWritten(t, products, levels[..i]);
      && (Writable(before, products, LevelKey(levels[i])) <==> Writable(t, products, LevelKey(levels[i])))
      && BulkWritten(t, products, levels[..i + 1]) ==
        if Writable(t, products, LevelKey(levels[i]))
        then Upserted(before, LevelKey(levels[i]), levels[i].quantity)
        else before
  {
    var w := WritableLevels(t, products, levels[..i]);
    WritableLevelsStep(t, products, levels, i);
    if Writable(t, products, LevelKey(levels[i])) {
      BulkUpsertedSnoc(t, w, levels[i]);
    } else {
      assert w + [] == w;
    }
    WritableAfterBulk(t, products, w, LevelKey(levels[i]));
  }

  // ---------------------------------------------------------------------------------------
  // Listings. Keys within a table are distinct, so ORDER BY (productId, size) is a strict order.

  datatype Entry = Entry(key: Key, row: Row)

  predicate IsLeast(m: Key, s: set<Key>) {
    m in s && forall k :: k in s ==> k == m || KeyBefore(m, k)
  }

  lemma {:induction false} LeastExists(s: set<Key>)
    requires s != {}
    ensures exists m :: IsLeast(m, s)
    decreases |s|
  {
    var x :| x in s;
    var rest := s - {x};
    if rest == {} {
      assert s == {x};
      assert IsLeast(x, s);
    } else {
      LeastExists(rest);
      var m :| IsLeast(m, rest);
      if KeyBefore(x, m) {
        forall k | k in s ensures k == x || KeyBefore(x, k) {
          if k != x { assert k in rest; }
        }
        assert IsLeast(x, s);
      } else {
        forall k | k in s ensures k == m || KeyBefore(m, k) {
          if k != x { assert k in rest; }
        }
        assert IsLeast(m, s);
      }
    }
  }

  predicate AscendingKeys(ks: seq<Key>) {
    forall i, j :: 0 <= i < j < |ks| ==> KeyBefore(ks[i], ks[j])
  }

  /** Putting the least key in front of the sorted rest sorts the whole set. */
  lemma ConsLeast(s: set<Key>, m: Key, tail: seq<Key>)
    requires IsLeast(m, s)
    requires |tail| == |s - {m}| && (forall k :: k in tail <==> k in s - {m}) && AscendingKeys(tail)
    ensures |[m] + tail| == |s|
    ensures forall k :: k in [m] + tail <==> k in s
    ensures AscendingKeys([m] + tail)
  {
    var r := [m] + tail;
    assert |s - {m}| == |s| - 1;
    forall i, j | 0 <= i < j < |r| ensures KeyBefore(r[i], r[j]) {
      assert r[j] == tail[j - 1] && tail[j - 1] in tail;
      if i > 0 {
        assert r[i] == tail[i - 1];
      }
    }
  }

  /** The keys of s, smallest first. */
  function SortedKeys(s: set<Key>): (r: seq<Key>)
    ensures |r| == |s|
    ensures forall k :: k in r <==> k in s
    ensures AscendingKeys(r)
    decreases |s|
  {
    if s == {} then []
    else
      LeastExists(s);
      var m :| IsLeast(m, s);
      var tail := SortedKeys(s - {m});
      ConsLeast(s, m, tail);
      [m] + tail
  }

  function EntriesOf(t: Table, ks: seq<Key>): (r: seq<Entry>)
    requires forall i :: 0 <= i < |ks| ==> ks[i] in t
    ensures |r| == |ks|
    ensures forall i :: 0 <= i < |ks| ==> r[i] == Entry(ks[i], t[ks[i]])
  {
    seq(|ks|, i requires 0 <= i < |ks| => Entry(ks[i], t[ks[i]]))
  }

  function IndexIn(ks: seq<Key>, k: Key): (i: nat)
    requires k in ks
    ensures i < |ks| && ks[i] == k
  {
    if ks[0] == k then 0 else 1 + IndexIn(ks[1..], k)
  }

  /** The rows of t whose keys lie in s, in ascending key order. */
  function SortedEntries(t: Table, s: set<Key>): (r: seq<Entry>)
    requires s <= t.Keys
    ensures forall k :: k in s <==> exists i :: 0 <= i < |r| && r[i].key == k
    ensures forall i :: 0 <= i < |r| ==> r[i].key in s && r[i].row == t[r[i].key]
    ensures forall i, j :: 0 <= i < j < |r| ==> KeyBefore(r[i].key, r[j].key)
  {
    var ks := SortedKeys(s);
    var r := EntriesOf(t, ks);
    forall k | k in s ensures exists i :: 0 <= i < |r| && r[i].key == k {
      var i := IndexIn(ks, k);
      assert r[i].key == k;
    }
    r
  }

  /** Every row, ordered by product and then size; no key appears twice. */
  function AllInventory(t: Table): (r: seq<Entry>)
    ensures forall k :: k in t <==> exists i :: 0 <= i < |r| && r[i].key == k
    ensures forall i :: 0 <= i < |r| ==> r[i].key in t && r[i].row == t[r[i].key]
    ensures forall i, j :: 0 <= i < j < |r| ==> KeyBefore(r[i].key, r[j].key)
  {
    SortedEntries(t, t.Keys)
  }

  /** The rows of one product, by ascending size. */
  function InventoryByProduct(t: Table, productId: int): (r: seq<Entry>)
    ensures forall k :: k in t && k.productId == productId <==> exists i :: 0 <= i < |r| && r[i].key == k
    ensures forall i :: 0 <= i < |r| ==> r[i].key in t && r[i].key.productId == productId && r[i].row == t[r[i].key]
    ensures forall i, j :: 0 <= i < j < |r| ==> r[i].key.sizeTenths < r[j].key.sizeTenths
  {
    var s := set k | k in t.Keys && k.productId == productId;
    var r := SortedEntries(t, s);
    assert forall k :: k in s <==> k in t && k.productId == productId;
    r
  }

  /** The inventory table as the manager endpoints update it in place. */
  class InventoryTable {
    var rows: Table

    constructor ()
      ensures rows == map[]
    {
      rows := map[];
    }

    /** Upsert one (product, size); answers the row as it now stands. `products` holds the
        ids of the product rows, which the foreign key of a created row is checked against. */
    method UpdateInventory(products: set<int>, productId: int, sizeTenths: int, quantity: int)
      returns (r: Result<Row, InventoryError>)
      modifies this
      ensures !Writable(old(rows), products, Key(productId, sizeTenths)) ==>
        r == Failure(ProductMissing(productId)) && rows == old(rows)
      ensures Writable(old(rows), products, Key(productId, sizeTenths)) ==>
        && rows == Upserted(old(rows), Key(productId, sizeTenths), quantity)
        && r == Success(rows[Key(productId, sizeTenths)]) && r.value.quantity == quantity
    {
      var k := Key(productId, sizeTenths);
      if k in rows {
        rows := rows[k := rows[k].(quantity := quantity)];
      } else if productId in products {
        rows := rows[k := NewRow(quantity)];
      } else {
        return Failure(ProductMissing(productId));
      }
      r := Success(rows[k]);
    }

    /** One reservation, release or consumption against the row of `d.key`; the increments and
        decrements of the order endpoints match no row when none exists, and change nothing. */
    method MoveRow(d: Delta, m: Movement)
      modifies this
      ensures rows == MoveOne(old(rows), d, m)
      ensures d.key in old(rows) ==> Available(rows[d.key]) == Available(old(rows)[d.key]) - (if m == Reserve then d.amount else if m == Release then -d.amount else 0)
    {
      if d.key in rows {
        var row := rows[d.key];
        match m
        case Reserve => rows := rows[d.key := row.(reserved := row.reserved + d.amount)];
        case Release => rows := rows[d.key := row.(reserved := row.reserved - d.amount)];
        case Consume => rows := rows[d.key := Row(row.quantity - d.amount, row.reserved - d.amount)];
      }
    }

    /** The movement of every delta in turn, first to last, as the release and delivery loops
        of the status change run it. */
    method MoveRows(ds: seq<Delta>, m: Movement)
      modifies this
      ensures rows == MoveAll(old(rows), ds, m)
    {
      var j := 0;
      while j < |ds|
        invariant 0 <= j <= |ds|
        invariant rows == MoveAll(old(rows), ds[..j], m)
      {
        MoveRow(ds[j], m);
        assert ds[..j + 1][..j] == ds[..j];
        j := j + 1;
      }
      assert ds[..j] == ds;
    }

    /** Upsert every item in turn; answers each row as it stood right after its own update.
        The upserts run outside a transaction: an item the foreign key refuses makes the answer
        a failure, and the other items' writes stay in the table. */
    method BulkUpdateInventory(products: set<int>, levels: seq<StockLevel>)
      returns (r: Result<seq<Row>, InventoryError>)
      modifies this
      ensures rows == BulkUpserted(old(rows), WritableLevels(old(rows), products, levels))
      ensures r.Failure? <==> exists i :: 0 <= i < |levels| && !Writable(old(rows), products, LevelKey(levels[i]))
      ensures r.Failure? ==> exists i :: 0 <= i < |levels| && r.error == ProductMissing(levels[i].productId)
      ensures r.Success? ==>
        && |r.value| == |levels|
        && forall i :: 0 <= i < |levels| ==> r.value[i].quantity == levels[i].quantity
    {
      ghost var t0 := rows;
      ghost var bad := 0;
      var updated: seq<Row> := [];
      var refused: Option<InventoryError> := None;
      var i := 0;
      while i < |levels|
        invariant 0 <= i <= |levels|
        invariant rows == BulkWritten(t0, products, levels[..i])
        invariant refused.None? <==> AllWritable(t0, products, levels[..i])
        invariant refused.Some? ==> 0 <= bad < i && refused.value == ProductMissing(levels[bad].productId)
        invariant refused.None? ==> |updated| == i && forall j :: 0 <= j < i ==> updated[j].quantity == levels[j].quantity
      {
        var l := levels[i];
        BulkStep(t0, products, levels, i);
        ghost var ok := Writable(t0, products, LevelKey(l));
        var res := UpdateInventory(products, l.productId, l.sizeTenths, l.quantity);
        assert res.Success? <==> ok;
        assert rows == BulkWritten(t0, products, levels[..i + 1]);
        if res.Success? {
          if refused.None? {
            updated := updated + [res.value];
          }
        } else if refused.None? {
          refused, bad := Some(res.error), i;
        }
        i := i + 1;
      }
      assert levels[..i] == levels;
      if refused.Some? {
        assert !AllWritable(t0, products, levels);
        return Failure(refused.value);
      }
      r := Success(updated);
    }
  }
}

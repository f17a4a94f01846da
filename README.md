# Shoe shop: inventory ledger, order workflow, cart and catalog rules

This project models the core of a small shoe shop. The backend keeps an inventory table with
one row per (product, size), holding the on-hand quantity and the quantity reserved by open
orders. Orders drive that table:

- placing an order checks every item against the catalog and the inventory, totals the live
  prices, then writes the order, one snapshot line per item and one reservation per item;
- cancelling an order releases what its lines reserved;
- delivering an order takes the lines' quantity off the shelf and out of the reservation.

Beside the ledger sit:

- the manager's inventory endpoints: availability check, single and bulk upsert, and two sorted
  listings;
- the catalog rules: active-only, filtered, newest-first, paginated product listing; slug
  lookups that hide inactive rows; update-by-id with a not-found answer; deletes that only clear
  `isActive`;
- the storefront's cart: a sequence of lines keyed by product, size and customization.

Representation:

- Money is integer kopecks and sizes are integer tenths, because the schema's `DECIMAL(10,2)`
  and `DECIMAL(4,1)` columns are exact.
- The inventory table is a `map` from `Key(productId, sizeTenths)` to `Row(quantity, reserved)`,
  so "at most one row per key" is structural.
- The order, line, product and category tables are sequences in creation order. "Newest first"
  is the reversal of a table.
- Every endpoint that can fail answers a `Result`. A failed placement or status change leaves
  every table as it was, which is how the database transaction's all-or-nothing behaviour
  appears here.

Modules, one per source file or concern:

- `Wrappers`: Option, Result, Min, Max.
- `Paging`: offset, limit and ceiling arithmetic.
- `Collation`: text equality up to ASCII case, as the database's case-insensitive collation
  compares slugs, names, seasons and statuses.
- `Catalog`: product and category rows, and lookups by id.
- `InventoryModel` (`Inventory.ts`): rows, keys, and the reserve, release and consume movements.
- `OrderModel` (`Order.ts`): the status enum, orders and snapshot lines.
- `InventoryController`: includes the class `InventoryTable`, which holds the inventory map and
  updates it in place.
- `CategoryController` and `ProductController`: the classes `CategoryTable` and `ProductTable`.
- `OrderController`: the class `OrderLedger` holds the order and line tables and a reference to
  the shared `InventoryTable`. Its placement and status-change methods loop over items and lines
  as the source does.
- `Cart`: the class `ShoppingCart` holds the hook's `cartItems` state.

## Model

| member | source | states |
|---|---|---|
| OrderController.OrderLedger.CreateOrder | backend/src/controllers/orderController.ts:14-90 | Validation errors come first, in item order. A missing customer field or a repeated order number comes next, as the database's refusal of the order row. Success happens exactly when neither occurs. Any failure leaves orders, lines, the next id and the inventory unchanged. On success: exactly one new order with the next id, status pending and the live-price total; one snapshot line per item, in order; the items' quantities added to `reserved`. The answer is the new order with its lines, which are the snapshot lines and exactly the lines the table now holds for that id. The ledger invariant is kept. |
| OrderController.OrderLedger.RecordItems | backend/src/controllers/orderController.ts:56-78 | The commit loop appends the items' snapshot lines and reserves each item's quantity on its row, first to last. The order table is untouched. |
| OrderController.ValidateItems | backend/src/controllers/orderController.ts:20-41 | The validation loop reports the first failing item's error in request order. When no item fails, the total it accumulates is the sum of current price times quantity. |
| OrderController.FirstError | backend/src/controllers/orderController.ts:22-38 | There is no error exactly when every item's product exists, its (product, size) row exists and `quantity - reserved >= item.quantity` holds on the pre-order table. No error implies every product was found. |
| OrderController.FirstErrorAt | backend/src/controllers/orderController.ts:22-38 | If all items before position i pass and item i fails, the placement answers item i's error: not-found for a missing product, out-of-stock with the product's name and size otherwise. |
| OrderController.CheckItem | backend/src/controllers/orderController.ts:23-38 | An item passes exactly when its product exists, its (product, size) row exists and that row's availability covers the quantity. A missing product answers not-found with its id; any other failure answers out-of-stock with the product's name and the size. |
| OrderController.ItemsTotal | backend/src/controllers/orderController.ts:21-41 | The total is built only from catalog prices and requested quantities, so with non-negative prices and quantities it is not negative. |
| OrderController.Snapshot | backend/src/controllers/orderController.ts:56-67 | One line per item, in request order. Each line carries the new order's id, the item's product, size, quantity and customization, and the product's name and price as they are at placement. |
| OrderController.SnapshotExtend | backend/src/controllers/orderController.ts:56-67 | Writing lines item by item extends the snapshot by exactly one line per item. |
| OrderController.SnapshotTotal | backend/src/controllers/orderController.ts:21-50 | The stored total equals the sum of price times quantity over the order's snapshot lines, so it uses only catalog prices. |
| OrderController.PlacementReservation | backend/src/controllers/orderController.ts:69-77 | After the reservations, a key has a row exactly when it had one before. Its on-hand quantity is unchanged and its reservation grew by the total quantity the items name for it. A key no item names keeps its row. |
| OrderController.DistinctPlacementStaysInStock | backend/src/controllers/orderController.ts:22-41 | With pairwise distinct item keys, each item's row gains exactly that item's quantity in `reserved`, and its availability stays non-negative. |
| OrderController.StockFloor | backend/src/controllers/orderController.ts:22-78 | If no row was oversold before, an accepted placement over distinct keys oversells no row. |
| OrderController.DuplicateItemsCanOverReserve | backend/src/controllers/orderController.ts:22-41 | Two items of 6 on a row holding 10 both pass validation against the pre-order row. Together they reserve 12 and leave availability at -2. |
| OrderController.CancelUndoesPlacement | backend/src/controllers/orderController.ts:69-77 | Releasing the quantities named by an order's snapshot lines returns the inventory to its state before the placement's reservations. |
| OrderController.OrderLedger.UpdateOrderStatus | backend/src/controllers/orderController.ts:165-214 | Answers not-found when no order has the id. A text that names no status even up to case is refused, as the enum column refuses it. Either failure changes nothing. Otherwise the status the text names up to case is stored, whatever the current one was. Cancelling releases, and delivering consumes, each line's quantity on its row, skipping missing rows; any other status leaves the inventory alone. The effect is keyed on the stored status (see Findings). Lines are untouched, the ledger invariant is kept, and the answer is the order re-read with its lines. |
| InventoryController.InventoryTable.MoveRows | backend/src/controllers/orderController.ts:181-207 | The per-line loop applies the movement to each line's row in turn, exactly as the table-level fold does. |
| OrderController.StatusEffectOnRow | backend/src/controllers/orderController.ts:178-208 | Cancelling raises a row's availability by the quantity its lines name and keeps on-hand stock. Delivering lowers on-hand stock by that quantity and keeps availability. Any other status leaves the table as it was. No row is created or removed. |
| OrderController.StatusEffect | backend/src/controllers/orderController.ts:177-208 | A status change never creates or deletes inventory rows, and a status other than cancelled or delivered leaves the table as it was. |
| OrderController.StatusEffectAsWritten | backend/src/controllers/orderController.ts:177-208 | The handler's own test on the request text agrees with the stored-status effect on the exact names `cancelled` and `delivered`, and does nothing for any text that stores neither status. |
| OrderController.CaseVariantLeaksReservation | backend/src/controllers/orderController.ts:175-190 | The text "Cancelled" is stored as cancelled, but the handler's case-sensitive test skips the release: a row of 10 with 2 reserved keeps its 2 reserved, where the release would leave 0. |
| OrderController.CancelByAnySpellingUndoesPlacement | backend/src/controllers/orderController.ts:177-190 | With the effect keyed on the stored status, any text stored as cancelled gives back exactly what the placement reserved. |
| OrderController.AppendOrderKeepsInvariant | backend/src/models/Order.ts:37-46 | The ledger invariant survives appending an order with a fresh id and an unused order number together with its own lines. The invariant: ids ascend and stay below the next id, order numbers are unique, every line names an issued order, and each order's total is its lines' sum. |
| OrderController.SetStatusKeepsInvariant | backend/src/controllers/orderController.ts:175 | Overwriting one order's status keeps the ledger invariant. |
| OrderController.LinesAfterAppend | backend/src/controllers/orderController.ts:56-67 | With the new order's lines appended, that order owns exactly those lines and every other order keeps its own. |
| OrderController.IndexOfOrder | backend/src/controllers/orderController.ts:170-173 | Finds a position holding the id, or answers none exactly when no order has it. |
| OrderController.GetOrderById | backend/src/controllers/orderController.ts:140-163 | Answers an order with the id together with exactly its lines. Answers not-found exactly when no order has the id. |
| OrderController.ListedOrdersMatch | backend/src/controllers/orderController.ts:98-133 | Every listed order passes the filter (its status has the filter's spelling up to case) and carries its own lines. The total counts every order the filter keeps. |
| OrderController.ListOrders | backend/src/controllers/orderController.ts:98-133 | Fails exactly when limit or offset is negative, and then as a page error; a status filter is never refused. On success the total is the number of orders the filter keeps and the page holds at most `limit` of them. |
| OrderController.UnknownStatusListsNothing | backend/src/controllers/orderController.ts:103-109 | A non-empty filter that names no status answers an empty page with total 0. |
| OrderController.FilterIgnoresCase | backend/src/controllers/orderController.ts:103-109 | Filters that are equal up to case answer the same page. |
| OrderController.ListOrdersDefaults | backend/src/controllers/orderController.ts:100-131 | With no filter, page or limit, the answer is the 20 newest orders, newest first, with total, page 1, limit 20 and the ceiling page count. |
| OrderController.AllStatuses | backend/src/controllers/orderController.ts:102-105 | Without a status filter every order is listed, in table order. |
| OrderController.WithStatus | backend/src/controllers/orderController.ts:102-105 | An order is kept exactly when it is in the table and, if a filter is given, its status has the filter's spelling up to case; the kept orders are at most the table. |
| OrderModel.ParseStatus | backend/src/models/Order.ts:67-70 | Names a status exactly when the text equals that status's spelling up to ASCII case, and no status otherwise. |
| OrderModel.ParseStatusName | backend/src/models/Order.ts:67-70 | Every status's spelling, and every case variant of it, parses to that status. |
| OrderModel.ParseIgnoresCase | backend/src/models/Order.ts:67-70 | Texts equal up to case parse to the same status. |
| OrderModel.LinesOf | backend/src/controllers/orderController.ts:179 | Only lines of the requested order are returned. |
| OrderModel.LinesOfAppend | backend/src/controllers/orderController.ts:179 | Fetching an order's lines distributes over appending rows to the line table. |
| OrderModel.LinesOfUniform | backend/src/controllers/orderController.ts:179 | Among lines that all belong to one order, that order gets them all and any other order gets none. |
| OrderModel.LinesTotalAppend | backend/src/models/Order.ts:63-66 | The sum of line amounts distributes over concatenation. |
| InventoryModel.NewRow | backend/src/models/Inventory.ts:47-56 | A row created with only a quantity has nothing reserved and is entirely available. |
| InventoryModel.MoveAll | backend/src/controllers/orderController.ts:181-207 | A run of movements never creates or deletes a row. |
| InventoryModel.MoveAllAt | backend/src/controllers/orderController.ts:69-77 | Applying a run of movements equals one movement per key by the total amount named there. Rows are neither created nor deleted. |
| InventoryModel.AmountAtAbsent | backend/src/controllers/orderController.ts:69-77 | A key no movement names receives nothing. |
| InventoryModel.AmountAtDistinct | backend/src/controllers/orderController.ts:69-77 | With distinct keys, the amount at a named key is that one movement's amount. |
| InventoryModel.ReleaseUndoesReserve | backend/src/controllers/orderController.ts:181-189 | Releasing what was reserved restores the table. |
| InventoryModel.ConsumeKeepsAvailable | backend/src/controllers/orderController.ts:196-207 | Consuming keeps availability and lowers on-hand stock by the amount consumed at that key. |
| InventoryModel.ReleaseRaisesAvailable | backend/src/controllers/orderController.ts:181-189 | Releasing raises availability by the amount released and keeps on-hand stock. |
| InventoryModel.ReserveLowersAvailable | backend/src/controllers/orderController.ts:69-77 | Reserving raises `reserved` by the amount reserved and keeps on-hand stock. |
| InventoryController.CheckAvailability | backend/src/controllers/inventoryController.ts:83-98 | A missing row answers not available with quantity 0. An existing row answers `quantity - reserved`, and it is available exactly when that is positive. |
| InventoryController.UpsertIdempotent | backend/src/controllers/inventoryController.ts:46-53 | Applying the same upsert twice leaves the same table as applying it once. |
| InventoryController.Upserted | backend/src/controllers/inventoryController.ts:46-53 | After the find-or-create and the overwrite, the key has a row with the given quantity and its old reservation (0 for a new row), the key set gains at most that key, and every other row is unchanged. |
| InventoryController.InventoryTable.UpdateInventory | backend/src/controllers/inventoryController.ts:41-58 | A new key whose product does not exist is refused by the product foreign key: the answer is a failure and the table is unchanged. Otherwise the table becomes the upsert of the key and quantity, and the answered row is the stored one with the given quantity. |
| InventoryController.BulkUpsertListed | backend/src/controllers/inventoryController.ts:62-75 | Over distinct keys, every listed key ends with exactly its given quantity, keeping its reservation (0 for a new row). |
| InventoryController.BulkUpsertUnlisted | backend/src/controllers/inventoryController.ts:62-75 | A bulk update leaves every row whose key it does not list as it was, and creates no row for such a key. |
| InventoryController.BulkUpserted | backend/src/controllers/inventoryController.ts:62-75 | After the bulk update every old row is still there, every listed key has a row, and no reservation has changed. |
| InventoryController.InventoryTable.BulkUpdateInventory | backend/src/controllers/inventoryController.ts:62-80 | The table becomes the upserts of exactly the items the foreign key lets through, first to last; refused items leave no row, while the writes of the others stay. The answer is a failure naming a refused item's product iff some item is refused; otherwise each answered row carries its item's quantity. |
| InventoryController.WritableLevels | backend/src/controllers/inventoryController.ts:66-72 | The items the foreign key lets through, in request order: each of them names an existing row or product, and when every item does, all of them. |
| InventoryController.WritableAfterBulk | backend/src/controllers/inventoryController.ts:66-72 | Writes that the foreign key let through do not change whether a later upsert is refused, so the outcome of each item does not depend on the others. |
| InventoryController.InventoryTable.MoveRow | backend/src/controllers/orderController.ts:181-207 | One increment or decrement hits the row of its key, or nothing when no row exists. Reserving lowers availability by the amount; releasing raises it; consuming keeps it. |
| InventoryController.SortedKeys | backend/src/controllers/inventoryController.ts:32 | Lists each key of the set exactly once, in strictly ascending (productId, size) order. |
| InventoryController.AllInventory | backend/src/controllers/inventoryController.ts:24-34 | Lists every row of the table exactly once with its stored values, ordered by product and then size. |
| InventoryController.InventoryByProduct | backend/src/controllers/inventoryController.ts:5-17 | Lists exactly the rows of the product, with their stored values, by strictly ascending size. |
| CategoryController.ActiveCategories | backend/src/controllers/categoryController.ts:5-15 | Lists exactly the active categories. |
| CategoryController.CategoryBySlug | backend/src/controllers/categoryController.ts:22-33 | Answers an active category whose slug equals the requested one up to ASCII case. Answers not-found exactly when no active category has such a slug. |
| CategoryController.DeletedCategoryHidden | backend/src/controllers/categoryController.ts:69-73 | After the soft delete, with slugs unique up to case as the index keeps them, the category is no longer listed and its slug answers not-found. |
| CategoryController.DeleteKeepsRows | backend/src/controllers/categoryController.ts:72 | The soft delete keeps every row with its id, slug, name and season. Only the deleted category's `isActive` becomes false. |
| CategoryController.LookupAfterUpdate | backend/src/controllers/categoryController.ts:53-61 | A lookup by id after an update that keeps the updated rows' id finds the updated version of the row found before. |
| CategoryController.PatchedLookup | backend/src/controllers/categoryController.ts:53-62 | When the body sets no other id, re-reading the updated id answers the patched row. |
| CategoryController.RekeyedLookup | backend/src/controllers/categoryController.ts:53-61 | When the body moves the row to another id, re-reading the old id finds nothing. |
| CategoryController.CategoryTable.UpdateCategory | backend/src/controllers/categoryController.ts:50-62 | Answers not-found, with nothing changed, when no row has the id. Otherwise it patches the rows with the id, the body's `id` included, and answers the row re-read by the request's id: the patched row when the id is kept, nothing (JSON null) when the body moved the row to another id. |
| CategoryController.CategoryTable.DeleteCategory | backend/src/controllers/categoryController.ts:69-73 | Always succeeds. Clears `isActive` on the rows with the id and changes nothing else. |
| ProductController.Filtered | backend/src/controllers/productController.ts:12-36 | Keeps a product exactly when it is active and meets every supplied filter: category id, name substring up to case, inclusive price bounds and its category's season spelling up to case. Kept rows stay in ascending-id order. |
| ProductController.Matches | backend/src/controllers/productController.ts:12-38 | Only active products match; with no filter every active product matches; a season filter that names no season matches nothing. |
| ProductController.ListProducts | backend/src/controllers/productController.ts:8-62 | Fails exactly when limit or offset is negative. On success the total is the number of matching products, the page holds at most `limit` of them, and the page number is the requested one. |
| ProductController.ListedProductsMatch | backend/src/controllers/productController.ts:8-62 | Every listed product is in the table, active and matches every filter. The total is the number of matching products. On an id-ascending table the page is newest first. |
| ProductController.NewestPageDescends | backend/src/controllers/productController.ts:52 | A page of the newest-first view of an id-ascending table has strictly descending ids. |
| ProductController.ListProductsDefaults | backend/src/controllers/productController.ts:10-61 | With no page and no limit, the answer is the first 12 matching products, newest first, with the ceiling of total/12 pages. |
| ProductController.MatchingProductIsListed | backend/src/controllers/productController.ts:28-61 | With a positive limit, every matching product appears on some page between 1 and `totalPages`. |
| ProductController.FilterIgnoresPaging | backend/src/controllers/productController.ts:28-51 | Page and limit do not change which products match. |
| ProductController.CategoryDeleteKeepsProductsListed | backend/src/controllers/categoryController.ts:72 | Soft-deleting a category does not change whether any product matches the listing's filters. |
| ProductController.ProductBySlug | backend/src/controllers/productController.ts:70-97 | Answers an active product whose slug equals the requested one up to ASCII case. Answers not-found exactly when no active product has such a slug, including when the only such product is inactive. |
| ProductController.LookupAfterUpdate | backend/src/controllers/productController.ts:117-125 | A lookup by id after an update that keeps the updated rows' id finds the updated version of the row found before. |
| ProductController.RekeyedLookup | backend/src/controllers/productController.ts:117-125 | When the body moves the row to another id, re-reading the old id finds nothing. |
| ProductController.DeletedProductHidden | backend/src/controllers/productController.ts:139-143 | After the soft delete, the product is in no listing and is inactive. It is still found by id, unchanged apart from `isActive`. |
| ProductController.ProductTable.UpdateProduct | backend/src/controllers/productController.ts:114-132 | Answers not-found, with nothing changed, when no row has the id. Otherwise it patches the rows with the id, whether active or not and the body's `id` included, and answers the row re-read by the request's id: the patched row when the id is kept, nothing (JSON null) when the body moved the row to another id. |
| ProductController.ProductTable.DeleteProduct | backend/src/controllers/productController.ts:139-143 | Always succeeds, also for an unknown id. Clears `isActive` on the rows with the id and changes nothing else. |
| Catalog.ProductById | backend/src/controllers/orderController.ts:23-24 | Answers a product with the id, or none exactly when no product has it. |
| Catalog.CategoryById | backend/src/controllers/categoryController.ts:61 | Answers a category with the id, or none exactly when no category has it. |
| Paging.CeilDiv | backend/src/controllers/productController.ts:61 | The smallest number of pages of the given size that hold n rows. |
| Paging.Paginate | backend/src/controllers/productController.ts:28-62 | Fails exactly when limit or offset is negative. Otherwise the page holds at most `limit` rows, taken consecutively from offset `(page - 1) * limit`, with total, page, limit and the ceiling page count (none for limit 0). |
| Paging.NewestFirst | backend/src/controllers/orderController.ts:122 | The newest-first view holds the rows of the table in reverse creation order. |
| Paging.PageRowsFromListing | backend/src/controllers/orderController.ts:120-121 | Every row on a page belongs to the listing. |
| Paging.NewestFirstSameElements | backend/src/controllers/productController.ts:52 | Reordering newest first neither adds nor drops rows. |
| Paging.EveryRowOnSomePage | backend/src/controllers/orderController.ts:107-131 | With a positive limit, row j is on page `j / limit + 1`, at position `j % limit`, and that page is within `totalPages`. |
| Cart.FindIndex | frontend/src/hooks/useCart.ts:22-27 | Answers the first line with the key, or -1 exactly when no line has it. |
| Cart.Added | frontend/src/hooks/useCart.ts:20-37 | A present key merges into its first line: the quantity grows by the added quantity, and nothing else in the cart changes. A new key is appended at the end, with the earlier lines unchanged. |
| Cart.Removed | frontend/src/hooks/useCart.ts:39-50 | A line stays exactly when its key differs from the removed one. |
| Cart.RemovedAppend | frontend/src/hooks/useCart.ts:39-50 | Removal distributes over concatenation, so the kept lines keep their relative order. |
| Cart.RemovedSingle | frontend/src/hooks/useCart.ts:41-48 | A single line is dropped exactly when its key matches. |
| Cart.RemovedWithoutKey | frontend/src/hooks/useCart.ts:39-50 | Removing a key no line has leaves the cart as it was. |
| Cart.Requantified | frontend/src/hooks/useCart.ts:52-67 | Lines with the key get the new quantity. Length, order and every other field are unchanged. |
| Cart.UnitPrice | frontend/src/hooks/useCart.ts:75 | A line is charged either the list price or the discount price: the discount exactly when it is set and not zero, as `||` decides, and the list price otherwise. |
| Cart.TotalPrice | frontend/src/hooks/useCart.ts:73-78 | With no negative quantity or unit price, the cart total is not negative. |
| Cart.TotalItems | frontend/src/hooks/useCart.ts:80-82 | With no negative quantity, the item count is not negative and is at least the quantity of every line. |
| Cart.TotalsAppend | frontend/src/hooks/useCart.ts:73-82 | Both totals distribute over concatenation. |
| Cart.TotalsUpdate | frontend/src/hooks/useCart.ts:73-82 | Replacing one line changes each total by exactly that line's difference. |
| Cart.AddTotals | frontend/src/hooks/useCart.ts:73-82 | Adding raises the item count by the added quantity. It raises the price total by that quantity times the unit price of the line it lands on: the discount price when set and non-zero, otherwise the list price. |
| Cart.MergeTotals | frontend/src/hooks/useCart.ts:29-33 | Raising one line's quantity raises the item count by the same amount and the price total by that amount at the line's unit price. |
| Cart.Matching | frontend/src/hooks/useCart.ts:43-47 | Only lines with the key are selected. |
| Cart.RemoveTotals | frontend/src/hooks/useCart.ts:73-82 | Removing a key lowers both totals by exactly its lines' contribution. |
| Cart.AddKeepsKeysDistinct | frontend/src/hooks/useCart.ts:20-37 | Adding keeps line keys pairwise distinct. |
| Cart.RemoveKeepsKeysDistinct | frontend/src/hooks/useCart.ts:39-50 | Removing keeps line keys pairwise distinct. |
| Cart.UpdateKeepsKeysDistinct | frontend/src/hooks/useCart.ts:52-67 | Updating a quantity keeps line keys pairwise distinct. |
| Cart.RunKeepsKeysDistinct | frontend/src/hooks/useCart.ts:20-71 | From the empty cart, any sequence of adds, removes, quantity updates and clears keeps line keys pairwise distinct. |
| Cart.AddThenRemove | frontend/src/hooks/useCart.ts:20-50 | Adding a line under a new key and then removing that key restores the cart. |
| Cart.ShoppingCart.AddToCart | frontend/src/hooks/useCart.ts:20-37 | The search loop finds the first line with the key. The cart becomes the merged or appended cart. |
| Cart.ShoppingCart.RemoveFromCart | frontend/src/hooks/useCart.ts:39-50 | The cart becomes the cart without the key's lines. |
| Cart.ShoppingCart.UpdateQuantity | frontend/src/hooks/useCart.ts:52-67 | The cart becomes the cart with the key's lines requantified. |
| Cart.ShoppingCart.ClearCart | frontend/src/hooks/useCart.ts:69-71 | The cart becomes empty. |

## Findings

| source | as written | input that shows it | evidently intended | confidence | as-written member | corrected member |
|---|---|---|---|---|---|---|
| backend/src/controllers/orderController.ts:175-193 | The status goes to the enum column, which stores any case variant of a name as that name. The release and the consume test the request text with the case-sensitive `status === 'cancelled'` and `status === 'delivered'`. | Status text `"Cancelled"` on an order with 2 pairs reserved on a row of 10: the order is stored as cancelled and the row keeps 2 reserved (lemma `CaseVariantLeaksReservation`). | Every order stored as cancelled releases its reservation, as the comment at line 177 says, and every order stored as delivered consumes it. Proved for the corrected effect: any text stored as cancelled gives back exactly what the placement reserved (lemma `CancelByAnySpellingUndoesPlacement`). | medium: rests on MySQL's default case-insensitive collation; not executed | OrderController.StatusEffectAsWritten | OrderController.StatusEffect |

## Left out

- Order numbers: `generateOrderNumber` reads the clock and a random number. The generated
  number is a parameter of `CreateOrder`. A repeated number, compared under the collation as
  the unique index compares it, is refused as the unique index refuses it, and the model does
  not assume freshness.
- Transactions and the ORM: `sequelize.transaction`, rollback and commit, and the 500
  catch-all are not modelled. Atomicity appears as "a failure answer leaves all state unchanged".
  Three database refusals are modelled, each answered with a failure that changes nothing: the
  order row's (missing required customer fields or a repeated order number), a status text the
  enum column does not accept (`InvalidStatus`), and a negative LIMIT or OFFSET
  (`NegativeBounds`).
- The second product read in the commit loop: the catalog is a parameter that does not change
  during a call.
- Concurrency: races between placements on one row are not modelled, and neither is the
  `Promise.all` fan-out of the bulk update. `InventoryTable.BulkUpdateInventory` applies the
  items sequentially, first to last. When several items are refused, the source answers for
  whichever refusal arrives first; the model names the first refused item in request order.
  The table it states is the one after every write has landed, including writes that finish
  after the failure answer.
- Floating point: `Number(price) * quantity` is integer kopecks times quantity. No rounding is
  modelled.
- Cart persistence: the `localStorage` load and save and the React state hooks are not
  modelled. The hook's state is the `items` field of `ShoppingCart`.
- Cart.ShoppingCart.AddToCart: the source increments the quantity on the object it shares with
  the previous state (`newCart[i].quantity +=` on a shallow copy). The model rebuilds the line as
  a value, so that aliasing is not captured.
- Cart.KeyOf: customizations are compared structurally. The source compares their
  `JSON.stringify` forms, which also differ when the same fields appear in another key order.
- Cart.UnitPrice: a discount price of zero falls back to the list price, as `||` does. A DECIMAL
  column read back as the string `"0.00"` would be truthy in the source. That case is not
  modelled.
- Collation: text is compared as MySQL's default case-insensitive collations compare it, as far
  as ASCII goes: upper-case ASCII letters fold to lower case (module `Collation`). Accent
  equivalence, non-ASCII case folding (the catalog's Cyrillic names) and the trailing-space
  equality of PAD SPACE collations are not modelled. A server configured with a case-sensitive
  collation is not modelled either.
- ProductController.Matches: `name LIKE '%search%'` is a substring test on the folded texts.
  The SQL wildcards `%` and `_` inside the search text are not modelled.
- CategoryController.CategoryBySlug: the slug is compared with ASCII case folded. The other
  equivalences of the collation named under "Collation" are not modelled.
- ProductController.ProductBySlug: the slug is compared with ASCII case folded. The other
  equivalences of the collation named under "Collation" are not modelled.
- OrderModel.ParseStatus: the status text is matched with ASCII case folded. MySQL also takes a
  numeric text such as `"5"` as the index of an enum member; the model refuses such a text.
- OrderController.OrderLedger.UpdateOrderStatus: a text the enum column does not accept is
  refused, as MySQL's default strict mode refuses it (the handler then answers 500). Non-strict
  mode, which stores an empty error value instead, is not modelled. The side effect follows the
  stored status, which is the intended behaviour; the handler as written is
  `StatusEffectAsWritten` (see Findings). The `status` column is nullable, so a body
  `{"status": null}` stores NULL; the model's status text and `Status` cannot represent
  that, and such a request is not modelled.
- CategoryController.CategoryTable.UpdateCategory: the 404 rests on the row count that
  `update` reports, which depends on the driver's connection flags and on the automatic
  `updatedAt`. The model takes that count as the number of rows matched by id, so it answers
  not-found exactly when no row has the id. A count of changed rows only is not modelled.
- ProductController.ProductTable.UpdateProduct: the 404 rests on the same reported row count,
  taken as the number of matched rows.
- InventoryController.InventoryTable.UpdateInventory: `quantity` and `reservedQuantity` are
  32-bit `INT` columns; the model's integers are unbounded, so out-of-range values that the
  database would refuse are not refused. The same holds for the bulk update and the movements.
- Product foreign key: the ids of the product rows (active or soft-deleted) are the `products`
  parameter of `UpdateInventory` and `BulkUpdateInventory`. The products table is not read
  by the inventory endpoints themselves, and no concurrent product delete is modelled.
- OrderController.OrderLedger.CreateOrder: `totalAmount` and the line prices are
  `DECIMAL(10,2)`, and quantities are 32-bit `INT`; totals beyond the column range are not
  refused in the model.
- ProductController.ListProducts: the count of a `findAndCountAll` with joined associations is
  modelled as the number of matching products. Counting joined rows is not modelled.
- OrderController.ListOrders: the same applies to the orders listing.
- ProductController.ListedProductsMatch: the total it states is the number of matching
  products, not the joined-row count (see ListProducts).
- ProductController.ListProductsDefaults: the page count it states rests on the same total.
- OrderController.ListedOrdersMatch: the total it states is the number of orders the filter
  keeps, not the joined-row count (see ListOrders).
- OrderController.ListOrdersDefaults: the total and page count it states rest on the same
  count.
- Newest-first ordering: `ORDER BY createdAt DESC` is the reversal of creation order. Ties
  between equal timestamps are not modelled.
- Request parsing: missing or mistyped body and query fields are not modelled, and neither are
  non-numeric `page` or `limit` values. For the fields the handlers test by truthiness
  (`status`, `categoryId`, `search`, `minPrice`, `maxPrice`, `season`), an absent or empty
  value is `None`. The defaults of `page` and `limit` apply only when the parameter is absent
  (`None`); an empty `page=` or `limit=` is `Number('')`, that is `Some(0)`. An empty page thus
  gives a negative offset and `NegativeBounds`, and an empty limit gives an empty page whose
  `totalPages` is `None`. An item list is taken to be a well-formed sequence.
- Update conflicts: unique-index and foreign-key violations raised by an update of a product or
  category (for example a duplicate slug) are not modelled.
- Included associations: the joined category, image and inventory data of the listings carry
  no rule and are not modelled.
- Identity gaps: ids are issued from 1 upward without gaps. Sequence gaps after a
  rolled-back insert are not modelled.
- Sizes: the `DECIMAL(4,1)` range limit of the size column is not enforced. Sizes are unbounded
  integer tenths.
- UI pages and components, the HTTP client, the routes and the server wiring, the seed script,
  and the field-only models `Product.ts`, `Category.ts`, `ProductImage.ts` and `OrderItem.ts` are
  not part of this model. Those models shape the datatypes only.

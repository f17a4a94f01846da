/**
 * The product endpoints: the filtered, newest-first, paginated catalog listing; slug lookup
 * that hides inactive rows; update by id; and the soft delete.
 */
module ProductController {
  import opened Wrappers
  import opened Catalog
  import opened Collation
  import opened Paging
  import CategoryController

  datatype ProductError = ProductNotFound

  /** The listing's query string. An absent (or empty) parameter is `None`. */
  datatype ProductQuery = ProductQuery(
    categoryId: Option<int>,
    season: Option<string>,
    search: Option<string>,
    minPrice: Option<int>,
    maxPrice: Option<int>,
    page: Option<int>,
    limit: Option<int>)

  const DefaultLimit: int := 12

  predicate OccursAt(s: string, sub: string, i: int) {
    0 <= i && i + |sub| <= |s| && s[i..i + |sub|] == sub
  }

  /** Substring test, the model of `name LIKE '%search%'`; the caller folds both sides. */
  predicate Contains(s: string, sub: string) {
    exists i :: 0 <= i <= |s| && OccursAt(s, sub, i)
  }

  /** The listing's WHERE clause: always active-only, then each supplied filter. Text filters
      compare under the collation. The season filter joins the product's category and keeps
      the products whose category's season has the requested spelling, so an unknown season
      keeps none; that category's own `isActive` is not consulted. */
  predicate Matches(cs: seq<Category>, q: ProductQuery, p: Product)
    ensures Matches(cs, q, p) ==> p.isActive
    ensures q.categoryId.None? && q.season.None? && q.search.None? && q.minPrice.None? && q.maxPrice.None? ==>
      (Matches(cs, q, p) <==> p.isActive)
    ensures q.season.Some? && (forall s: Season :: !SameText(SeasonName(s), q.season.value)) ==> !Matches(cs, q, p)
  {
    && p.isActive
    && (q.categoryId.Some? ==> p.categoryId == q.categoryId.value)
    && (q.search.Some? ==> Contains(Folded(p.name), Folded(q.search.value)))
    && (q.minPrice.Some? ==> q.minPrice.value <= p.price)
    && (q.maxPrice.Some? ==> p.price <= q.maxPrice.value)
    && (q.season.Some? ==>
          && CategoryById(cs, p.categoryId).Some?
          && CategoryById(cs, p.categoryId).value.season.Some?
          && SameText(SeasonName(CategoryById(cs, p.categoryId).value.season.value), q.season.value))
  }

  /** Ids ascend along the table: autoincrement ids in creation order. */
  ghost predicate AscendingIds(ps: seq<Product>) {
    forall i, j :: 0 <= i < j < |ps| ==> ps[i].id < ps[j].id
  }

  ghost predicate DescendingIds(ps: seq<Product>) {
    forall i, j :: 0 <= i < j < |ps| ==> ps[i].id > ps[j].id
  }

  /** The matching rows, in table order. */
  function Filtered(ps: seq<Product>, cs: seq<Category>, q: ProductQuery): (r: seq<Product>)
    ensures forall p :: p in r <==> p in ps && Matches(cs, q, p)
    ensures AscendingIds(ps) ==> AscendingIds(r)
    decreases |ps|
  {
    if ps == [] then []
    else
      var front := Filtered(ps[..|ps| - 1], cs, q);
      var last := ps[|ps| - 1];
      assert ps == ps[..|ps| - 1] + [last];
      AscendingBeforeLast(ps, front);
      if Matches(cs, q, last) then front + [last] else front
  }

  lemma AscendingBeforeLast(ps: seq<Product>, front: seq<Product>)
    requires ps != []
    requires forall p :: p in front ==> p in ps[..|ps| - 1]
    ensures AscendingIds(ps) ==> forall p :: p in front ==> p.id < ps[|ps| - 1].id
  {
    if AscendingIds(ps) {
      forall p | p in front ensures p.id < ps[|ps| - 1].id {
        var k :| 0 <= k < |ps| - 1 && ps[..|ps| - 1][k] == p;
        assert ps[k] == p;
      }
    }
  }

  /** GET /products: total counts every matching row; the page holds at most `limit` of them,
      newest first, from `(page - 1) * limit`; defaults are page 1 and limit 12. */
  function ListProducts(ps: seq<Product>, cs: seq<Category>, q: ProductQuery): (r: Result<Paged<Product>, PageError>)
    ensures r.Failure? <==>
      q.limit.GetOr(DefaultLimit) < 0 || Offset(q.page.GetOr(DefaultPage), q.limit.GetOr(DefaultLimit)) < 0
    ensures r.Success? ==>
      && r.value.info.total == |Filtered(ps, cs, q)|
      && |r.value.rows| <= q.limit.GetOr(DefaultLimit)
      && r.value.info.page == q.page.GetOr(DefaultPage)
  {
    Paginate(NewestFirst(Filtered(ps, cs, q)), q.page.GetOr(DefaultPage), q.limit.GetOr(DefaultLimit))
  }

  /** Every listed product is active and satisfies every supplied filter; the total is the
      number of matching rows; the page is ordered newest first. */
  lemma ListedProductsMatch(ps: seq<Product>, cs: seq<Category>, q: ProductQuery)
    requires ListProducts(ps, cs, q).Success?
    ensures var page := ListProducts(ps, cs, q).value;
      && (forall p :: p in page.rows ==> p in ps && p.isActive && Matches(cs, q, p))
      && page.info.total == |Filtered(ps, cs, q)|
      && (AscendingIds(ps) ==> DescendingIds(page.rows))
  {
    var f := Filtered(ps, cs, q);
    var all := NewestFirst(f);
    var pg, limit := q.page.GetOr(DefaultPage), q.limit.GetOr(DefaultLimit);
    PageRowsFromListing(all, pg, limit);
    NewestFirstSameElements(f);
    if AscendingIds(ps) {
      NewestPageDescends(f, pg, limit);
    }
  }

  /** A page of the newest-first view of an id-ascending table has descending ids. */
  lemma NewestPageDescends(f: seq<Product>, page: int, limit: int)
    requires AscendingIds(f) && Paginate(NewestFirst(f), page, limit).Success?
    ensures DescendingIds(Paginate(NewestFirst(f), page, limit).value.rows)
  {
    var rows := Paginate(NewestFirst(f), page, limit).value.rows;
    var off := Offset(page, limit);
    forall i, j | 0 <= i < j < |rows| ensures rows[i].id > rows[j].id {
      assert rows[i] == f[|f| - 1 - (off + i)];
      assert rows[j] == f[|f| - 1 - (off + j)];
    }
  }

  /** With no page or limit given, the first 12 matching rows (newest first) are answered. */
  lemma ListProductsDefaults(ps: seq<Product>, cs: seq<Category>, q: ProductQuery)
    requires q.page.None? && q.limit.None?
    ensures ListProducts(ps, cs, q).Success?
    ensures ListProducts(ps, cs, q).value.rows == NewestFirst(Filtered(ps, cs, q))[..Min(12, |Filtered(ps, cs, q)|)]
    ensures ListProducts(ps, cs, q).value.info.totalPages == Some(CeilDiv(|Filtered(ps, cs, q)|, 12))
  {}

  /** Every matching product is on some page within `totalPages`. */
  lemma MatchingProductIsListed(ps: seq<Product>, cs: seq<Category>, q: ProductQuery, p: Product)
    requires p in ps && Matches(cs, q, p)
    requires q.limit.Some? && q.limit.value > 0
    ensures exists page ::
      && 1 <= page <= CeilDiv(|Filtered(ps, cs, q)|, q.limit.value)
      && ListProducts(ps, cs, q.(page := Some(page))).Success?
      && p in ListProducts(ps, cs, q.(page := Some(page))).value.rows
  {
    var all := NewestFirst(Filtered(ps, cs, q));
    var limit := q.limit.value;
    assert p in all by {
      var f := Filtered(ps, cs, q);
      var k :| 0 <= k < |f| && f[k] == p;
      assert all[|f| - 1 - k] == p;
    }
    var j :| 0 <= j < |all| && all[j] == p;
    EveryRowOnSomePage(all, limit, j);
    var page := j / limit + 1;
    var q' := q.(page := Some(page));
    assert Filtered(ps, cs, q') == Filtered(ps, cs, q) by {
      FilterIgnoresPaging(ps, cs, q, q');
    }
    assert ListProducts(ps, cs, q') == Paginate(all, page, limit);
    assert Paginate(all, page, limit).value.rows[j % limit] == p;
  }

  lemma {:induction false} FilterIgnoresPaging(ps: seq<Product>, cs: seq<Category>, q: ProductQuery, q': ProductQuery)
    requires q' == q.(page := q'.page, limit := q'.limit)
    ensures Filtered(ps, cs, q') == Filtered(ps, cs, q)
    decreases |ps|
  {
    if ps != [] {
      FilterIgnoresPaging(ps[..|ps| - 1], cs, q, q');
    }
  }

  /** Soft-deleting a category does not take its products out of the listing. */
  lemma {:induction false} CategoryDeleteKeepsProductsListed(
    cs: seq<Category>, id: int, q: ProductQuery, p: Product)
    ensures Matches(CategoryController.UpdatedWhere(cs, id, CategoryController.Deactivate), q, p) == Matches(cs, q, p)
  {
    CategoryController.LookupAfterUpdate(cs, id, CategoryController.Deactivate, p.categoryId);
  }

  /** Found only when some active row's slug equals the requested one under the collation:
      an inactive row is not-found. */
  function ProductBySlug(ps: seq<Product>, slug: string): (r: Result<Product, ProductError>)
    ensures r.Success? ==> r.value in ps && SameText(r.value.slug, slug) && r.value.isActive
    ensures r.Failure? <==> forall p :: p in ps ==> !(SameText(p.slug, slug) && p.isActive)
  {
    if ps == [] then Failure(ProductNotFound)
    else if SameText(ps[0].slug, slug) && ps[0].isActive then Success(ps[0])
    else ProductBySlug(ps[1..], slug)
  }

  /** The fields a request body may set; absent fields keep their value. The body is passed
      to the update whole, so it may also set the primary key. */
  datatype ProductPatch = ProductPatch(
    id: Option<int>,
    categoryId: Option<int>,
    name: Option<string>,
    slug: Option<string>,
    description: Option<Option<string>>,
    price: Option<int>,
    discountPrice: Option<Option<int>>,
    sku: Option<Option<string>>,
    isActive: Option<bool>,
    isCustomizable: Option<bool>)

  function PatchProduct(p: Product, u: ProductPatch): Product {
    Product(u.id.GetOr(p.id), u.categoryId.GetOr(p.categoryId), u.name.GetOr(p.name), u.slug.GetOr(p.slug),
            u.description.GetOr(p.description), u.price.GetOr(p.price), u.discountPrice.GetOr(p.discountPrice),
            u.sku.GetOr(p.sku), u.isActive.GetOr(p.isActive), u.isCustomizable.GetOr(p.isCustomizable))
  }

  function Deactivate(p: Product): Product { p.(isActive := false) }

  /** UPDATE ... WHERE id = id: every row with that id is rewritten, no other row
      (`CategoryController.UpdatedWhere` for the products table). */
  function UpdatedWhere(ps: seq<Product>, id: int, f: Product -> Product): (r: seq<Product>)
    ensures |r| == |ps|
    ensures forall i :: 0 <= i < |ps| ==> r[i] == if ps[i].id == id then f(ps[i]) else ps[i]
  {
    seq(|ps|, i requires 0 <= i < |ps| => if ps[i].id == id then f(ps[i]) else ps[i])
  }

  /** A lookup after a rewrite of the rows with one id that keeps their id finds the
      rewritten version of the row found before (`CategoryController.LookupAfterUpdate` for
      the products table). */
  lemma {:induction false} LookupAfterUpdate(ps: seq<Product>, id: int, f: Product -> Product, key: int)
    requires forall p: Product :: p.id == id ==> f(p).id == id
    ensures ProductById(UpdatedWhere(ps, id, f), key) ==
      match ProductById(ps, key)
      case None => None
      case Some(p) => Some(if key == id then f(p) else p)
    decreases |ps|
  {
    var u := UpdatedWhere(ps, id, f);
    if ps != [] && ps[0].id != key {
      assert u[1..] == UpdatedWhere(ps[1..], id, f);
      LookupAfterUpdate(ps[1..], id, f, key);
    }
  }

  /** A soft-deleted product leaves the listing and its slug stops resolving, while its row,
      still found by id, keeps every other field. */
  lemma DeletedProductHidden(ps: seq<Product>, cs: seq<Category>, q: ProductQuery, id: int)
    ensures forall p :: p in Filtered(UpdatedWhere(ps, id, Deactivate), cs, q) ==> p.id != id
    ensures forall p :: p in UpdatedWhere(ps, id, Deactivate) && p.id == id ==> !p.isActive
    ensures ProductById(UpdatedWhere(ps, id, Deactivate), id) ==
      match ProductById(ps, id)
      case None => None
      case Some(p) => Some(p.(isActive := false))
  {
    LookupAfterUpdate(ps, id, Deactivate, id);
  }

  /** A patch that moves the row to another id: the re-read by the old id finds nothing. */
  lemma RekeyedLookup(ps: seq<Product>, id: int, patch: ProductPatch)
    requires patch.id.GetOr(id) != id
    ensures ProductById(UpdatedWhere(ps, id, p => PatchProduct(p, patch)), id).None?
  {
    var u := UpdatedWhere(ps, id, p => PatchProduct(p, patch));
    forall j | 0 <= j < |u| ensures u[j].id != id {
      if ps[j].id == id {
        assert u[j] == PatchProduct(ps[j], patch);
      }
    }
  }

  class ProductTable {
    var rows: seq<Product>

    constructor (rows: seq<Product>)
      ensures this.rows == rows
    {
      this.rows := rows;
    }

    /** Not found when no row has the id; otherwise the row as re-read by the request's id:
        the patched row, or nothing (answered as JSON null) when the patch moved it to
        another id. The row is patched whether it is active or not. */
    method UpdateProduct(id: int, patch: ProductPatch) returns (r: Result<Option<Product>, ProductError>)
      modifies this
      ensures ProductById(old(rows), id).None? ==> r == Failure(ProductNotFound) && rows == old(rows)
      ensures ProductById(old(rows), id).Some? ==>
        rows == UpdatedWhere(old(rows), id, p => PatchProduct(p, patch)) && r == Success(ProductById(rows, id))
      ensures ProductById(old(rows), id).Some? && patch.id.GetOr(id) == id ==>
        r == Success(Some(PatchProduct(ProductById(old(rows), id).value, patch)))
      ensures r.Success? && patch.id.GetOr(id) != id ==> r == Success(None)
    {
      var found := ProductById(rows, id);
      if found.None? {
        return Failure(ProductNotFound);
      }
      rows := UpdatedWhere(rows, id, p => PatchProduct(p, patch));
      r := Success(ProductById(rows, id));
      if patch.id.GetOr(id) == id {
        LookupAfterUpdate(old(rows), id, p => PatchProduct(p, patch), id);
      } else {
        RekeyedLookup(old(rows), id, patch);
      }
    }

    /** Always reports success, also for an unknown id; only `isActive` of matching rows changes. */
    method DeleteProduct(id: int)
      modifies this
      ensures rows == UpdatedWhere(old(rows), id, Deactivate)
    {
      rows := UpdatedWhere(rows, id, Deactivate);
    }
  }
}

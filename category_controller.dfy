/**
 * The category endpoints: active-only listing, slug lookup that hides inactive rows, update
 * by id, and the soft delete that only clears `isActive`.
 */
module CategoryController {
  import opened Wrappers
  import opened Catalog
  import opened Collation

  datatype CategoryError = CategoryNotFound

  /** The active categories, in table order. */
  function ActiveCategories(cs: seq<Category>): (r: seq<Category>)
    ensures forall c :: c in r <==> c in cs && c.isActive
    ensures |r| <= |cs|
    decreases |cs|
  {
    if cs == [] then []
    else
      var front := ActiveCategories(cs[..|cs| - 1]);
      var last := cs[|cs| - 1];
      assert cs == cs[..|cs| - 1] + [last];
      if last.isActive then front + [last] else front
  }

  /** Found only when some active row's slug equals the requested one under the collation. */
  function CategoryBySlug(cs: seq<Category>, slug: string): (r: Result<Category, CategoryError>)
    ensures r.Success? ==> r.value in cs && SameText(r.value.slug, slug) && r.value.isActive
    ensures r.Failure? <==> forall c :: c in cs ==> !(SameText(c.slug, slug) && c.isActive)
  {
    if cs == [] then Failure(CategoryNotFound)
    else if SameText(cs[0].slug, slug) && cs[0].isActive then Success(cs[0])
    else CategoryBySlug(cs[1..], slug)
  }

  /** The fields a request body may set; absent fields keep their value. The body is passed
      to the update whole, so it may also set the primary key. */
  datatype CategoryPatch = CategoryPatch(
    id: Option<int>,
    name: Option<string>,
    slug: Option<string>,
    description: Option<Option<string>>,
    season: Option<Option<Season>>,
    image: Option<Option<string>>,
    isActive: Option<bool>)

  function PatchCategory(c: Category, p: CategoryPatch): Category {
    Category(p.id.GetOr(c.id), p.name.GetOr(c.name), p.slug.GetOr(c.slug), p.description.GetOr(c.description),
             p.season.GetOr(c.season), p.image.GetOr(c.image), p.isActive.GetOr(c.isActive))
  }

  /** UPDATE ... WHERE id = id: every row with that id is rewritten, no other row. */
  function UpdatedWhere(cs: seq<Category>, id: int, f: Category -> Category): (r: seq<Category>)
    ensures |r| == |cs|
    ensures forall i :: 0 <= i < |cs| ==> r[i] == if cs[i].id == id then f(cs[i]) else cs[i]
  {
    seq(|cs|, i requires 0 <= i < |cs| => if cs[i].id == id then f(cs[i]) else cs[i])
  }

  function Deactivate(c: Category): Category { c.(isActive := false) }

  /** The schema's unique index on `slug`, which compares under the collation. */
  ghost predicate UniqueSlugs(cs: seq<Category>) {
    forall i, j :: 0 <= i < j < |cs| ==> !SameText(cs[i].slug, cs[j].slug)
  }

  /** After a soft delete the category is neither listed nor found by its slug. */
  lemma DeletedCategoryHidden(cs: seq<Category>, id: int, i: int)
    requires UniqueSlugs(cs) && 0 <= i < |cs| && cs[i].id == id
    ensures forall c :: c in ActiveCategories(UpdatedWhere(cs, id, Deactivate)) ==> c.id != id
    ensures CategoryBySlug(UpdatedWhere(cs, id, Deactivate), cs[i].slug).Failure?
  {
    var u := UpdatedWhere(cs, id, Deactivate);
    forall c | c in u ensures !(SameText(c.slug, cs[i].slug) && c.isActive) {
      var j :| 0 <= j < |u| && u[j] == c;
      assert j != i ==> !SameText(cs[j].slug, cs[i].slug);
    }
  }

  /** The soft delete keeps every row, so it can be undone by reactivation. */
  lemma {:induction false} DeleteKeepsRows(cs: seq<Category>, id: int)
    ensures |UpdatedWhere(cs, id, Deactivate)| == |cs|
    ensures forall i :: 0 <= i < |cs| ==>
      var c := UpdatedWhere(cs, id, Deactivate)[i];
      c.id == cs[i].id && c.slug == cs[i].slug && c.name == cs[i].name && c.season == cs[i].season &&
      (c.isActive <==> cs[i].isActive && cs[i].id != id)
  {}

  class CategoryTable {
    var rows: seq<Category>

    constructor (rows: seq<Category>)
      ensures this.rows == rows
    {
      this.rows := rows;
    }

    /** Not found when no row has the id; otherwise the row as re-read by the request's id:
        the patched row, or nothing (answered as JSON null) when the patch moved it to
        another id. */
    method UpdateCategory(id: int, patch: CategoryPatch) returns (r: Result<Option<Category>, CategoryError>)
      modifies this
      ensures CategoryById(old(rows), id).None? ==> r == Failure(CategoryNotFound) && rows == old(rows)
      ensures CategoryById(old(rows), id).Some? ==>
        rows == UpdatedWhere(old(rows), id, c => PatchCategory(c, patch)) && r == Success(CategoryById(rows, id))
      ensures CategoryById(old(rows), id).Some? && patch.id.GetOr(id) == id ==>
        r == Success(Some(PatchCategory(CategoryById(old(rows), id).value, patch)))
      ensures r.Success? && patch.id.GetOr(id) != id ==> r == Success(None)
    {
      var found := CategoryById(rows, id);
      if found.None? {
        return Failure(CategoryNotFound);
      }
      rows := UpdatedWhere(rows, id, c => PatchCategory(c, patch));
      r := Success(CategoryById(rows, id));
      if patch.id.GetOr(id) == id {
        PatchedLookup(old(rows), id, patch);
      } else {
        RekeyedLookup(old(rows), id, patch);
      }
    }

    /** Always succeeds, also for an unknown id; only `isActive` of matching rows changes. */
    method DeleteCategory(id: int)
      modifies this
      ensures rows == UpdatedWhere(old(rows), id, Deactivate)
    {
      rows := UpdatedWhere(rows, id, Deactivate);
    }
  }

  /** A lookup after a rewrite of the rows with one id that keeps their id finds the
      rewritten version of the row found before. */
  lemma {:induction false} LookupAfterUpdate(cs: seq<Category>, id: int, f: Category -> Category, key: int)
    requires forall c: Category :: c.id == id ==> f(c).id == id
    ensures CategoryById(UpdatedWhere(cs, id, f), key) ==
      match CategoryById(cs, key)
      case None => None
      case Some(c) => Some(if key == id then f(c) else c)
    decreases |cs|
  {
    var u := UpdatedWhere(cs, id, f);
    if cs != [] && cs[0].id != key {
      assert u[1..] == UpdatedWhere(cs[1..], id, f);
      LookupAfterUpdate(cs[1..], id, f, key);
    }
  }

  /** A patch that keeps the id: the re-read finds the patched row. */
  lemma PatchedLookup(cs: seq<Category>, id: int, patch: CategoryPatch)
    requires CategoryById(cs, id).Some? && patch.id.GetOr(id) == id
    ensures CategoryById(UpdatedWhere(cs, id, c => PatchCategory(c, patch)), id) == Some(PatchCategory(CategoryById(cs, id).value, patch))
  {
    LookupAfterUpdate(cs, id, c => PatchCategory(c, patch), id);
  }

  /** A patch that moves the row to another id: the re-read by the old id finds nothing. */
  lemma RekeyedLookup(cs: seq<Category>, id: int, patch: CategoryPatch)
    requires patch.id.GetOr(id) != id
    ensures CategoryById(UpdatedWhere(cs, id, c => PatchCategory(c, patch)), id).None?
  {
    var u := UpdatedWhere(cs, id, c => PatchCategory(c, patch));
    forall j | 0 <= j < |u| ensures u[j].id != id {
      if cs[j].id == id {
        assert u[j] == PatchCategory(cs[j], patch);
      }
    }
  }
}

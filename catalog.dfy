/**
 * Catalog rows: categories and products. Prices are DECIMAL(10,2) in the schema and are
 * integer kopecks here. Tables are kept in creation order (ascending id).
 */
module Catalog {
  import opened Wrappers

  datatype Season = Summer | Winter | Spring | Autumn | AllSeason

  /** The spelling the category's enum column stores. */
  function SeasonName(s: Season): string {
    match s
    case Summer => "summer"
    case Winter => "winter"
    case Spring => "spring"
    case Autumn => "autumn"
    case AllSeason => "all-season"
  }

  datatype Category = Category(
    id: int,
    name: string,
    slug: string,
    description: Option<string>,
    season: Option<Season>,
    image: Option<string>,
    isActive: bool)

  datatype Product = Product(
    id: int,
    categoryId: int,
    name: string,
    slug: string,
    description: Option<string>,
    price: int,
    discountPrice: Option<int>,
    sku: Option<string>,
    isActive: bool,
    isCustomizable: bool)

  datatype Material = Leather | Nubuck | Synthetic | Fur | Fleece

  /** The free-form customization payload of an order line or cart line. */
  datatype Customization = Customization(material: Option<Material>, color: Option<string>, sole: Option<string>)

  /** Primary-key lookup. It does not look at `isActive`: soft-deleted rows are still found. */
  function ProductById(ps: seq<Product>, id: int): (r: Option<Product>)
    ensures r.Some? ==> r.value in ps && r.value.id == id
    ensures r.None? ==> forall i :: 0 <= i < |ps| ==> ps[i].id != id
  {
    if ps == [] then None else if ps[0].id == id then Some(ps[0]) else ProductById(ps[1..], id)
  }

  /** `ProductById` for the categories table. */
  function CategoryById(cs: seq<Category>, id: int): (r: Option<Category>)
    ensures r.Some? ==> r.value in cs && r.value.id == id
    ensures r.None? ==> forall i :: 0 <= i < |cs| ==> cs[i].id != id
  {
    if cs == [] then None else if cs[0].id == id then Some(cs[0]) else CategoryById(cs[1..], id)
  }
}

/**
 * The `Product` record shared by the admin panel, the catalog page and the
 * product-detail page (src/pages/Admin.tsx:16-24, src/pages/ProductDetails.tsx:10-18).
 */
module ProductData {
  import opened Wrappers

  /**
   * `images` is optional in the source (`images?: string[]`). Prices are plain
   * numbers there; they are modelled as `real`.
   */
  datatype Product = Product(
    id: int,
    name: string,
    category: string,
    price: real,
    image: string,
    images: Option<seq<string>>,
    description: string)

  /**
   * `product.images || [product.image]`. An array is truthy in JavaScript even
   * when it is empty, so the fallback applies only when `images` is absent.
   */
  function ImagesOrFallback(p: Product): (r: seq<string>)
    ensures p.images.None? ==> r == [p.image]
    ensures p.images.Some? ==> r == p.images.value
    ensures |r| == 0 <==> p.images == Some([])
  {
    p.images.GetOr([p.image])
  }

  /** No two products of `ps` share an id. */
  ghost predicate UniqueIds(ps: seq<Product>) {
    forall i, j :: 0 <= i < j < |ps| ==> ps[i].id != ps[j].id
  }

  /** Some product of `ps` has id `id`. */
  ghost predicate HasId(ps: seq<Product>, id: int) {
    exists i :: 0 <= i < |ps| && ps[i].id == id
  }
}

/**
 * The product-detail page (src/pages/ProductDetails.tsx): looking the product
 * up by the route's id, the add-to-cart guard, the image gallery and the
 * related-products strip.
 */
module ProductDetails {
  import opened Wrappers
  import opened ProductData
  import Seqs

  /**
   * The route's `:id` segment as the page sees it: missing (or empty), not a
   * number (`parseInt` gives NaN, which equals no id), or a number.
   */
  datatype RouteParam = Missing | NotANumber | Number(n: int)

  /** The position of the first product with id `id`, if any. */
  function FirstIndex(ps: seq<Product>, id: int): (r: Option<nat>)
    ensures r.None? <==> !HasId(ps, id)
    ensures r.Some? ==> r.value < |ps| && ps[r.value].id == id
    ensures r.Some? ==> forall j :: 0 <= j < r.value ==> ps[j].id != id
  {
    if |ps| == 0 then None
    else if ps[0].id == id then Some(0)
    else
      match FirstIndex(ps[1..], id)
      case None =>
        assert forall i :: 0 < i < |ps| ==> ps[i] == ps[1..][i - 1];
        None
      case Some(k) => Some(k + 1)
  }

  /** `products.find(p => p.id === id)`: the first product with that id. */
  function FindById(ps: seq<Product>, id: int): (r: Option<Product>)
    ensures r.None? <==> !HasId(ps, id)
    ensures r.Some? ==> exists i :: 0 <= i < |ps| && ps[i] == r.value && r.value.id == id &&
                                    forall j :: 0 <= j < i ==> ps[j].id != id
  {
    match FirstIndex(ps, id)
    case None => None
    case Some(i) => Some(ps[i])
  }

  /**
   * The lookup effect: with no id the page keeps the product it had; otherwise
   * it shows the product found, or "Product not found" when there is none.
   */
  function LoadProduct(current: Option<Product>, param: RouteParam, catalog: seq<Product>): (r: Option<Product>)
    ensures param.Missing? ==> r == current
    ensures param.NotANumber? ==> r.None?
    ensures param.Number? ==> (r.None? <==> !HasId(catalog, param.n))
    ensures param.Number? && r.Some? ==> r.value in catalog && r.value.id == param.n
    ensures param.Number? && r.Some? ==> exists i :: 0 <= i < |catalog| && catalog[i] == r.value &&
                                                     forall j :: 0 <= j < i ==> catalog[j].id != param.n
  {
    match param
    case Missing => current
    case NotANumber => None
    case Number(n) => FindById(catalog, n)
  }

  /** What `handleAddToCart` does: a call into the cart store and a toast. */
  datatype Effect = AddToCart(product: Product) | ShowToast(title: string, description: string)

  /** `handleAddToCart`: only a product that was found is added to the cart. */
  function HandleAddToCart(product: Option<Product>): (r: seq<Effect>)
    ensures product.None? <==> r == []
    ensures forall e :: e in r && e.AddToCart? ==> product == Some(e.product)
    ensures product.Some? ==> r[0] == AddToCart(product.value) && |r| == 2
    ensures product.Some? ==> r[1].ShowToast? && r[1].title == "Added to Cart"
    ensures product.Some? ==> r[1].ShowToast? && r[1].description == product.value.name + " has been added to your cart!"
  {
    match product
    case None => []
    case Some(p) => [AddToCart(p), ShowToast("Added to Cart", p.name + " has been added to your cart!")]
  }

  /** The strip of thumbnails appears only when there is more than one image to show. */
  function ShowsThumbnails(p: Product): (b: bool)
    ensures b <==> p.images.Some? && |p.images.value| > 1
    ensures b ==> |ImagesOrFallback(p)| > 1
  {
    |ImagesOrFallback(p)| > 1
  }

  /** A product's gallery has an image to show exactly when its image list is not present-but-empty. */
  lemma DisplayImagesNonEmpty(p: Product)
    requires p.images.None? || |p.images.value| > 0
    ensures |ImagesOrFallback(p)| >= 1
    ensures ImagesOrFallback(p)[0] == if p.images.None? then p.image else p.images.value[0]
  {
  }

  /** The picture of a related product: `images?.[0] || image`. */
  function RelatedThumbnail(p: Product): (url: string)
    ensures url == p.image || (p.images.Some? && |p.images.value| > 0 && url == p.images.value[0])
    ensures url != p.image ==> url != ""
    ensures p.images.Some? && |p.images.value| > 0 && p.images.value[0] != "" ==> url == p.images.value[0]
    ensures !(p.images.Some? && |p.images.value| > 0 && p.images.value[0] != "") ==> url == p.image
  {
    if p.images.Some? && |p.images.value| > 0 && p.images.value[0] != "" then p.images.value[0]
    else p.image
  }

  /** The related products shown: at most this many. */
  const MaxRelated := 3

  /** Related to `current`: the same category under a different id. */
  function IsRelatedTo(current: Product): Product -> bool {
    (p: Product) => p.category == current.category && p.id != current.id
  }

  /** `products.filter(same category, other id).slice(0, 3)`. */
  function RelatedProducts(catalog: seq<Product>, current: Product): (r: seq<Product>)
    ensures |r| <= MaxRelated
    ensures forall p :: p in r ==> p.category == current.category && p.id != current.id
    ensures r <= Seqs.Keep(catalog, IsRelatedTo(current))
    ensures |r| == if |Seqs.Keep(catalog, IsRelatedTo(current))| < MaxRelated
                   then |Seqs.Keep(catalog, IsRelatedTo(current))| else MaxRelated
    ensures |r| < MaxRelated ==> forall i ::
              0 <= i < |catalog| && catalog[i].category == current.category && catalog[i].id != current.id
              ==> catalog[i] in r
  {
    var all := Seqs.Keep(catalog, IsRelatedTo(current));
    if |all| <= MaxRelated then all
    else
      var shown := all[..MaxRelated];
      assert forall p :: p in shown ==> p in all;
      shown
  }

  /** The related products appear in catalog order. */
  lemma RelatedIsSubsequence(catalog: seq<Product>, current: Product)
    ensures Seqs.IsSubsequence(RelatedProducts(catalog, current), catalog)
  {
    var all := Seqs.Keep(catalog, IsRelatedTo(current));
    Seqs.KeepIsSubsequence(catalog, IsRelatedTo(current));
    Seqs.PrefixOfSubsequence(all, catalog, |RelatedProducts(catalog, current)|);
  }
}

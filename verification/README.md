# Bakery storefront: list operations and decisions of the pages

This project models, in Dafny, the logic inside the page components of a
small bakery storefront written in React. The pages hold their state in
memory as arrays of product records. Four pieces carry real decisions:

- **Admin panel** (`src/pages/Admin.tsx`). It holds a product list and a
  product form. Submitting validates the form: every text field must be
  non-empty, then at least one image is required. A valid form either
  replaces every product carrying the edited id, keeping that id, or
  appends a new product under a caller-supplied id. Deleting removes every
  product with an id. The form can be reset, filled from a product to
  edit, opened for adding, and cancelled.
- **Catalog filter** (`src/pages/Products.tsx`). It keeps the products
  whose lower-cased name contains the lower-cased search term and whose
  category equals the selected one. The selection `"All"` admits every
  category. A "no products found" message appears when nothing is left.
- **Product detail** (`src/pages/ProductDetails.tsx`). It looks the route's
  id up in the catalog, adds to the cart only a product that was found,
  shows `images` or else `[image]` as the gallery, shows thumbnails only
  for more than one image, and lists at most three related products. A
  related product has the same category and a different id.
- **Route guard** (`src/components/ProtectedRoute.tsx`). When the route is
  guarded (a truthy `adminKey` prop), it renders the children only if the
  `key` query parameter equals `"admin123"`. Otherwise it redirects to `/`.

Modules, one per concern:

| file | module | models |
|---|---|---|
| wrappers.dfy | `Wrappers` | optional values (`undefined`, a failed `find`) |
| seqs.dfy | `Seqs` | `Array.prototype.filter` and the subsequence relation |
| text.dfy | `Text` | ASCII `toLowerCase` and `String.prototype.includes` |
| product_data.dfy | `ProductData` | the `Product` record and the `images \|\| [image]` fallback |
| admin.dfy | `Admin` | `src/pages/Admin.tsx` |
| product_filter.dfy | `ProductFilter` | `src/pages/Products.tsx` |
| product_details.dfy | `ProductDetails` | `src/pages/ProductDetails.tsx` |
| protected_route.dfy | `ProtectedRoute` | `src/components/ProtectedRoute.tsx` |

Two JavaScript details shape the model:

- An empty array is truthy in JavaScript. So `product.images || [product.image]`
  falls back only when `images` is absent. A product whose `images` is
  present but empty shows no gallery image at all. The gallery is
  non-empty exactly when `images` is absent or non-empty
  (`ProductData.ImagesOrFallback`, `ProductDetails.DisplayImagesNonEmpty`).
- `!formData.price` tests the price *text*. Any non-empty text passes,
  including text that `parseFloat` cannot read.

Values that come from outside the components are parameters:

- the `Date.now()` id of a new product (`newId`);
- the parsed price (`price`), and the price text of a product opened for
  editing (`priceText`, i.e. `product.price.toString()`);
- the route's `:id` segment after `parseInt` (`RouteParam`);
- the `key` query parameter (`providedKey`).

## Model

| member | source | states |
|---|---|---|
| Seqs.Keep | src/pages/Products.tsx:71-75 | a filter keeps exactly the elements passing the test, each as often as in the input, and never grows the list |
| Seqs.KeepIsSubsequence | src/pages/Products.tsx:71-75 | a filter's result is the input with elements deleted, the rest in their original order |
| Seqs.PrefixOfSubsequence | src/pages/ProductDetails.tsx:202-204 | slicing the front of an order-preserving selection keeps it order-preserving |
| Seqs.KeepAll | src/pages/Admin.tsx:148 | a filter whose test every element passes returns the list unchanged |
| Seqs.KeepIdempotent | src/pages/Admin.tsx:148 | filtering a second time by the same test changes nothing |
| Seqs.KeepAppend | src/pages/Admin.tsx:124 | filtering a list extended by one element is filtering the list, then keeping or dropping that element |
| Seqs.KeepCongruent | src/pages/Products.tsx:72 | two tests that agree on every element select the same sub-list |
| Text.LowerChar | src/pages/Products.tsx:72 | lower-casing a character yields no upper-case letter; upper-case letters move up by 32 and other characters stay |
| Text.Lower | src/pages/Products.tsx:72 | lower-casing keeps the length and leaves no upper-case letter |
| Text.LowerIdempotent | src/pages/Products.tsx:72 | lower-casing twice is lower-casing once |
| Text.Includes | src/pages/Products.tsx:72 | `includes` is true exactly when the term occurs at some position of the string |
| Text.ShiftOccurrence | src/pages/Products.tsx:72 | when the term does not start the string, it occurs in the string exactly when it occurs in the string's tail |
| Text.EmptyIncluded | src/pages/Products.tsx:72 | the empty search term is contained in every name |
| ProductData.ImagesOrFallback | src/pages/ProductDetails.tsx:104 | the gallery is `images` when present, else `[image]`; it is empty exactly when `images` is present and empty |
| Admin.FromForm | src/pages/Admin.tsx:102-107 | a stored product carries the form's name, category, description and image list, the parsed price, and `images[0]` as its primary image |
| Admin.ApplyEdit | src/pages/Admin.tsx:110-114 | an edit keeps the list's length, order and ids; each product with the edited id becomes the new data under that id; all others are untouched |
| Admin.Delete | src/pages/Admin.tsx:148 | a delete leaves no product with the id and keeps every other product with its multiplicity |
| Admin.ResetForm | src/pages/Admin.tsx:70-79 | after a reset every form field is empty, there are no images and nothing is being edited; the list is untouched |
| Admin.OpenAddDialog | src/pages/Admin.tsx:173-175 | the Add button opens the dialog on an empty form with no edit target |
| Admin.CancelDialog | src/pages/Admin.tsx:256 | Cancel closes the dialog and keeps the form, the edit target and the list |
| Admin.StartEdit | src/pages/Admin.tsx:135-145 | starting an edit records the product and copies its fields into the form; images fall back to `[image]` when absent |
| Admin.Submit | src/pages/Admin.tsx:81-133 | missing text fields reject first and missing images second, both with the state unchanged; otherwise the form's product replaces the edited id in place, or is appended once under the new id with the prefix unchanged, and the form is reset and closed |
| Admin.DeleteProduct | src/pages/Admin.tsx:147-153 | deleting changes only the list and always reports success |
| Admin.DeleteMissingId | src/pages/Admin.tsx:148 | deleting an id no product has leaves the list unchanged |
| Admin.DeleteIsSubsequence | src/pages/Admin.tsx:148 | the remaining products keep their original relative order |
| Admin.DeleteIdempotent | src/pages/Admin.tsx:148 | deleting the same id twice is deleting it once |
| Admin.ApplyEditIdempotent | src/pages/Admin.tsx:110-114 | applying the same edit twice is applying it once |
| Admin.AddThenDelete | src/pages/Admin.tsx:119-124 | adding under a fresh id and then deleting that id restores the original list |
| Admin.EditRoundTrip | src/pages/Admin.tsx:135-145 | opening a product with a unique id, a present image list and `images[0]` as its primary image for editing, and submitting the form unchanged (or having it rejected), restores the original list; every product the admin page stores has that image shape, as `SubmitKeepsStoredShape` and `DeleteKeepsStoredShape` keep true |
| Admin.SubmitKeepsStoredShape | src/pages/Admin.tsx:102-124 | if every product has a non-empty image list headed by its primary image, that still holds after a submit |
| Admin.DeleteKeepsStoredShape | src/pages/Admin.tsx:148 | the same shape of every product survives a delete |
| ProductFilter.Filter | src/pages/Products.tsx:71-75 | every shown product's lower-cased name contains the lower-cased term and its category is the selected one unless "All" is selected; every catalog product meeting both is shown, as many times as the catalog holds it |
| ProductFilter.FilterIsSubsequence | src/pages/Products.tsx:71-75 | the shown products appear in catalog order |
| ProductFilter.EmptySearchShowsAll | src/pages/Products.tsx:72-73 | with an empty search and "All" the whole catalog is shown |
| ProductFilter.SearchIgnoresCase | src/pages/Products.tsx:72 | searching for the lower-cased term gives the same products as the term itself |
| ProductFilter.ShowsNoProductsMessage | src/pages/Products.tsx:129 | the "no products found" message appears exactly when no catalog product meets both tests |
| ProductDetails.FirstIndex | src/pages/ProductDetails.tsx:70 | the position found holds the id and no earlier position does; there is none exactly when no product has the id |
| ProductDetails.FindById | src/pages/ProductDetails.tsx:70 | `find` yields the first catalog product with the id, or nothing when no product has it |
| ProductDetails.LoadProduct | src/pages/ProductDetails.tsx:68-73 | with no id the current product is kept; an unparseable id finds nothing; a numeric id finds the first catalog product with that id, and nothing exactly when no product has it |
| ProductDetails.HandleAddToCart | src/pages/ProductDetails.tsx:75-83 | the cart store is called, with the found product, only when a product was found, followed by the confirmation toast |
| ProductDetails.ShowsThumbnails | src/pages/ProductDetails.tsx:130 | thumbnails appear exactly when the product has an image list of more than one entry |
| ProductDetails.DisplayImagesNonEmpty | src/pages/ProductDetails.tsx:104 | when `images` is absent or non-empty the gallery has a first image: `image`, or `images[0]` |
| ProductDetails.RelatedThumbnail | src/pages/ProductDetails.tsx:209 | a related product's picture is its first listed image when that is a non-empty string, else its primary image |
| ProductDetails.RelatedProducts | src/pages/ProductDetails.tsx:202-204 | at most three related products, each of the same category and another id, forming the prefix of the related catalog products whose length is three, or all of them when there are fewer |
| ProductDetails.RelatedIsSubsequence | src/pages/ProductDetails.tsx:202-204 | the related products appear in catalog order |
| ProtectedRoute.Guard | src/components/ProtectedRoute.tsx:10-20 | the children render exactly when the route is unguarded or the key is `admin123`; otherwise the visitor is redirected to `/`, replacing the history entry |
| ProtectedRoute.AdminKeyValueIgnored | src/components/ProtectedRoute.tsx:13-15 | any two non-empty `adminKey` values give the same outcome |
| ProtectedRoute.UnguardedAlwaysRenders | src/components/ProtectedRoute.tsx:15-19 | without a truthy `adminKey` the children render whatever key is given |

## Left out

- The shared cart store (`useCart` from `src/contexts/CartContext`). It is not part of this model: its source is not available, so `addToCart` is only an effect that `ProductDetails.HandleAddToCart` emits.
- Cart and checkout totals (`src/pages/Cart.tsx`, `src/pages/Checkout.tsx`). They are floating-point display arithmetic (`price * quantity`, the delivery fee, `toFixed(2)`) over the unmodelled cart store.
- The simulated payment delay in checkout. It is a timer.
- The admin panel's average price (`src/pages/Admin.tsx:293`). It is floating-point division for display.
- `parseFloat` and `Number.prototype.toString`. The parsed price and the price text are parameters. A price text that does not parse (NaN) is not modelled.
- `Date.now()`. The new product's id is a parameter, so it need not be unique.
- `parseInt`. The route id reaches the model already classified as missing, not a number, or a number.
- Text.Lower: lower-cases ASCII letters only, because full Unicode case mapping is out of reach of the model.
- `window.location`, `URLSearchParams` and `<Navigate>`. The query key is an `Option<string>` input, and the redirect is a value.
- The category `<Select>` in the admin form offers only "Cakes", "Cookies" and "Brownies". The model accepts any non-empty category text.
- The image upload component is not part of this model; the form's image list is whatever it last reported.
- The browser's own form validation is not modelled: the name, price and description inputs are `required` and the price input is numeric, so the browser can stop a submit before the submit handler runs; the model follows the handler as written.
- The main gallery picture `displayImages[selectedImageIndex]` and the selected-thumbnail state. They are rendering.
- The literal product arrays the pages start from. They are data, not behaviour.
- Toast titles and texts other than the add-to-cart confirmation. The admin toasts are modelled by which message is shown.
- Rendering, navigation, the profile, sign-in, home and product-card components. They only display state.

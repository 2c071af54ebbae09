/**
 * The admin product-list editor of src/pages/Admin.tsx: the form state, the
 * submit validator, adding, editing and deleting products.
 */
module Admin {
  import opened Wrappers
  import opened ProductData
  import Seqs

  /** The form's fields. The price is kept as the text typed into the form. */
  datatype FormData = FormData(
    name: string,
    category: string,
    price: string,
    description: string,
    images: seq<string>)

  /** The form as `resetForm` leaves it: every field empty, no images. */
  const EmptyForm := FormData("", "", "", "", [])

  /** The page state: the product list, the product being edited (if any), the form and the dialog. */
  datatype AdminState = AdminState(
    products: seq<Product>,
    editing: Option<Product>,
    form: FormData,
    dialogOpen: bool)

  /** The toast messages an admin action shows. */
  datatype Toast = FieldsMissing | ImageMissing | ProductUpdated | ProductAdded | ProductDeleted

  /** The state a submit leaves behind, with the toast it shows. */
  datatype Outcome = Outcome(state: AdminState, toast: Toast)

  /** Every text field holds a non-empty string (a JavaScript-truthy value). */
  predicate FieldsFilled(f: FormData) {
    f.name != "" && f.category != "" && f.price != "" && f.description != ""
  }

  /** `p` carries exactly the form's data, with `images[0]` as the primary image. */
  ghost predicate StoredFrom(p: Product, f: FormData, price: real) {
    && |f.images| > 0
    && p.name == f.name
    && p.category == f.category
    && p.price == price
    && p.description == f.description
    && p.image == f.images[0]
    && p.images == Some(f.images)
  }

  /** The product a valid form describes (`productData` plus an id). */
  function FromForm(f: FormData, id: int, price: real): (p: Product)
    requires |f.images| > 0
    ensures StoredFrom(p, f, price)
    ensures p.id == id
  {
    Product(id, f.name, f.category, price, f.images[0], Some(f.images), f.description)
  }

  /** `products.map(p => p.id === target ? {...replacement, id: target} : p)`. */
  function ApplyEdit(ps: seq<Product>, target: int, replacement: Product): (r: seq<Product>)
    ensures |r| == |ps|
    ensures forall i :: 0 <= i < |ps| ==> r[i].id == ps[i].id
    ensures forall i :: 0 <= i < |ps| && ps[i].id == target ==> r[i] == replacement.(id := target)
    ensures forall i :: 0 <= i < |ps| && ps[i].id != target ==> r[i] == ps[i]
  {
    if |ps| == 0 then []
    else
      var head := if ps[0].id == target then replacement.(id := target) else ps[0];
      [head] + ApplyEdit(ps[1..], target, replacement)
  }

  /** Deleting keeps every product whose id differs. */
  function IdIsNot(id: int): Product -> bool {
    (p: Product) => p.id != id
  }

  /** `products.filter(p => p.id !== id)`. */
  function Delete(ps: seq<Product>, id: int): (r: seq<Product>)
    ensures forall p :: p in r ==> p.id != id
    ensures forall i :: 0 <= i < |ps| && ps[i].id != id ==> ps[i] in r
    ensures forall p :: multiset(r)[p] == if p.id == id then 0 else multiset(ps)[p]
  {
    Seqs.Keep(ps, IdIsNot(id))
  }

  /** `resetForm`: empties the form and forgets the edit target. */
  function ResetForm(s: AdminState): (r: AdminState)
    ensures r.form == EmptyForm && !FieldsFilled(r.form) && |r.form.images| == 0
    ensures r.editing == None
    ensures r.products == s.products && r.dialogOpen == s.dialogOpen
  {
    s.(form := EmptyForm, editing := None)
  }

  /** The "Add Product" button: reset the form, then open the dialog. */
  function OpenAddDialog(s: AdminState): (r: AdminState)
    ensures r.form == EmptyForm && r.editing == None && r.dialogOpen
    ensures r.products == s.products
  {
    ResetForm(s).(dialogOpen := true)
  }

  /** The "Cancel" button only closes the dialog; form and edit target stay as they are. */
  function CancelDialog(s: AdminState): (r: AdminState)
    ensures !r.dialogOpen
    ensures r.products == s.products && r.form == s.form && r.editing == s.editing
  {
    s.(dialogOpen := false)
  }

  /**
   * `handleEdit(product)`: remember the product and copy its fields into the
   * form. `priceText` is `product.price.toString()`.
   */
  function StartEdit(s: AdminState, p: Product, priceText: string): (r: AdminState)
    ensures r.editing == Some(p) && r.dialogOpen && r.products == s.products
    ensures r.form.name == p.name && r.form.category == p.category
    ensures r.form.description == p.description && r.form.price == priceText
    ensures p.images.None? ==> r.form.images == [p.image]
    ensures p.images.Some? ==> r.form.images == p.images.value
  {
    var f := FormData(p.name, p.category, priceText, p.description, ImagesOrFallback(p));
    AdminState(s.products, Some(p), f, true)
  }

  /**
   * `handleSubmit`. `newId` is the `Date.now()` reading an add would use and
   * `price` is `parseFloat` of the price text; both come from outside.
   */
  function Submit(s: AdminState, newId: int, price: real): (r: Outcome)
    // The field check comes first and rejects without touching the state.
    ensures r.toast == FieldsMissing <==> !FieldsFilled(s.form)
    ensures r.toast == ImageMissing <==> FieldsFilled(s.form) && |s.form.images| == 0
    ensures r.toast in {FieldsMissing, ImageMissing} ==> r.state == s
    // A valid form is stored and the form is reset.
    ensures r.toast == ProductUpdated <==> FieldsFilled(s.form) && |s.form.images| > 0 && s.editing.Some?
    ensures r.toast == ProductAdded <==> FieldsFilled(s.form) && |s.form.images| > 0 && s.editing.None?
    ensures r.toast in {ProductUpdated, ProductAdded} ==>
      r.state.form == EmptyForm && r.state.editing == None && !r.state.dialogOpen
    // Editing replaces, in place, every product with the edited id, keeping that id.
    ensures r.toast == ProductUpdated ==>
      && |r.state.products| == |s.products|
      && forall i :: 0 <= i < |s.products| ==>
           && r.state.products[i].id == s.products[i].id
           && (s.products[i].id == s.editing.value.id ==> StoredFrom(r.state.products[i], s.form, price))
           && (s.products[i].id != s.editing.value.id ==> r.state.products[i] == s.products[i])
    // Adding appends exactly one product carrying the supplied id.
    ensures r.toast == ProductAdded ==>
      && |r.state.products| == |s.products| + 1
      && r.state.products[..|s.products|] == s.products
      && r.state.products[|s.products|].id == newId
      && StoredFrom(r.state.products[|s.products|], s.form, price)
  {
    if !FieldsFilled(s.form) then Outcome(s, FieldsMissing)
    else if |s.form.images| == 0 then Outcome(s, ImageMissing)
    else
      match s.editing
      case Some(e) =>
        var ps := ApplyEdit(s.products, e.id, FromForm(s.form, e.id, price));
        Outcome(AdminState(ps, None, EmptyForm, false), ProductUpdated)
      case None =>
        var ps := s.products + [FromForm(s.form, newId, price)];
        Outcome(AdminState(ps, None, EmptyForm, false), ProductAdded)
  }

  /** `handleDelete(id)`: removes the products with that id; the toast always reports success. */
  function DeleteProduct(s: AdminState, id: int): (r: Outcome)
    ensures r.toast == ProductDeleted
    ensures r.state.products == Delete(s.products, id)
    ensures r.state.form == s.form && r.state.editing == s.editing && r.state.dialogOpen == s.dialogOpen
  {
    Outcome(s.(products := Delete(s.products, id)), ProductDeleted)
  }

  // ---------------------------------------------------------------------------
  // Properties relating several operations
  // ---------------------------------------------------------------------------

  /** The list after a delete is the original list with some products left out, in order. */
  lemma DeleteIsSubsequence(ps: seq<Product>, id: int)
    ensures Seqs.IsSubsequence(Delete(ps, id), ps)
  {
    Seqs.KeepIsSubsequence(ps, IdIsNot(id));
  }

  /** Deleting an id no product has changes nothing. */
  lemma DeleteMissingId(ps: seq<Product>, id: int)
    requires !HasId(ps, id)
    ensures Delete(ps, id) == ps
  {
    Seqs.KeepAll(ps, IdIsNot(id));
  }

  /** Deleting an id twice is deleting it once. */
  lemma DeleteIdempotent(ps: seq<Product>, id: int)
    ensures Delete(Delete(ps, id), id) == Delete(ps, id)
  {
    Seqs.KeepIdempotent(ps, IdIsNot(id));
  }

  /** Editing twice with the same data is editing once. */
  lemma {:induction false} ApplyEditIdempotent(ps: seq<Product>, target: int, replacement: Product)
    ensures ApplyEdit(ApplyEdit(ps, target, replacement), target, replacement)
         == ApplyEdit(ps, target, replacement)
  {
    var once := ApplyEdit(ps, target, replacement);
    var twice := ApplyEdit(once, target, replacement);
    assert forall i :: 0 <= i < |ps| ==> twice[i] == once[i];
  }

  /**
   * Adding a product under a fresh id and then deleting that id gives back
   * the original list.
   */
  lemma AddThenDelete(s: AdminState, newId: int, price: real)
    requires FieldsFilled(s.form) && |s.form.images| > 0 && s.editing.None?
    requires !HasId(s.products, newId)
    ensures Delete(Submit(s, newId, price).state.products, newId) == s.products
  {
    var added := FromForm(s.form, newId, price);
    Seqs.KeepAppend(s.products, added, IdIsNot(newId));
    DeleteMissingId(s.products, newId);
  }

  /**
   * Opening a product for editing and submitting the form unchanged, with the
   * price text parsing back to the product's price, leaves the list as it was
   * when the product's id is unique and its primary image heads its image list.
   * A form the validator rejects leaves the list as it was too.
   */
  lemma EditRoundTrip(s: AdminState, p: Product, priceText: string, newId: int)
    requires p in s.products && UniqueIds(s.products)
    requires p.images.Some? && |p.images.value| > 0 && p.image == p.images.value[0]
    ensures Submit(StartEdit(s, p, priceText), newId, p.price).state.products == s.products
  {
    var e := StartEdit(s, p, priceText);
    var r := Submit(e, newId, p.price).state.products;
    forall i | 0 <= i < |s.products|
      ensures r[i] == s.products[i]
    {
      if s.products[i].id == p.id {
        var k :| 0 <= k < |s.products| && s.products[k] == p;
        assert k == i;
      }
    }
  }

  /**
   * An admin-stored product has a non-empty image list whose first entry is
   * its primary image. Every product a submit or a delete leaves behind keeps
   * that shape when every product before did.
   */
  ghost predicate StoredShape(p: Product) {
    p.images.Some? && |p.images.value| > 0 && p.image == p.images.value[0]
  }

  ghost predicate AllStoredShape(ps: seq<Product>) {
    forall i :: 0 <= i < |ps| ==> StoredShape(ps[i])
  }

  lemma SubmitKeepsStoredShape(s: AdminState, newId: int, price: real)
    requires AllStoredShape(s.products)
    ensures AllStoredShape(Submit(s, newId, price).state.products)
  {
  }

  lemma DeleteKeepsStoredShape(ps: seq<Product>, id: int)
    requires AllStoredShape(ps)
    ensures AllStoredShape(Delete(ps, id))
  {
    var r := Delete(ps, id);
    forall i | 0 <= i < |r|
      ensures StoredShape(r[i])
    {
      assert r[i] in multiset(r);
    }
  }
}

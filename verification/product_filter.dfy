/**
 * The catalog page's search and category filter (src/pages/Products.tsx).
 */
module ProductFilter {
  import opened ProductData
  import opened Text
  import Seqs

  /** The category button that places no restriction on the category. */
  const AllCategories := "All"

  /** The lower-cased name contains the lower-cased search term. */
  predicate MatchesSearch(p: Product, term: string) {
    Includes(Lower(p.name), Lower(term))
  }

  /** "All" admits every category; any other selection admits only itself. */
  predicate MatchesCategory(p: Product, category: string) {
    category == AllCategories || p.category == category
  }

  /** The test the page applies to each catalog product. */
  function Matcher(term: string, category: string): Product -> bool {
    (p: Product) => MatchesSearch(p, term) && MatchesCategory(p, category)
  }

  /** `filteredProducts`: the catalog products passing both tests, in catalog order. */
  function Filter(catalog: seq<Product>, term: string, category: string): (r: seq<Product>)
    // soundness: every result matches the search and the category
    ensures forall p :: p in r ==> Contains(Lower(p.name), Lower(term))
    ensures forall p :: p in r ==> category == AllCategories || p.category == category
    // completeness: every matching catalog product is in the result
    ensures forall i ::
              0 <= i < |catalog| && Contains(Lower(catalog[i].name), Lower(term)) && MatchesCategory(catalog[i], category)
              ==> catalog[i] in r
    ensures |r| <= |catalog|
    // each matching catalog record is shown as many times as the catalog holds it
    ensures forall p :: multiset(r)[p] == if Matcher(term, category)(p) then multiset(catalog)[p] else 0
  {
    Seqs.Keep(catalog, Matcher(term, category))
  }

  /** The result keeps the catalog's order: it is a subsequence of the catalog. */
  lemma FilterIsSubsequence(catalog: seq<Product>, term: string, category: string)
    ensures Seqs.IsSubsequence(Filter(catalog, term, category), catalog)
  {
    Seqs.KeepIsSubsequence(catalog, Matcher(term, category));
  }

  /** The initial page state (empty search, "All") shows the whole catalog. */
  lemma EmptySearchShowsAll(catalog: seq<Product>)
    ensures Filter(catalog, "", AllCategories) == catalog
  {
    forall i | 0 <= i < |catalog|
      ensures Matcher("", AllCategories)(catalog[i])
    {
      EmptyIncluded(Lower(catalog[i].name));
    }
    Seqs.KeepAll(catalog, Matcher("", AllCategories));
  }

  /** The search ignores case: searching for the lower-cased term changes nothing. */
  lemma SearchIgnoresCase(catalog: seq<Product>, term: string, category: string)
    ensures Filter(catalog, Lower(term), category) == Filter(catalog, term, category)
  {
    LowerIdempotent(term);
    Seqs.KeepCongruent(catalog, Matcher(Lower(term), category), Matcher(term, category));
  }

  /** "No products found matching your criteria." is shown exactly when nothing matches. */
  function ShowsNoProductsMessage(catalog: seq<Product>, term: string, category: string): (b: bool)
    ensures b <==> forall i ::
                     0 <= i < |catalog| ==>
                     !(Contains(Lower(catalog[i].name), Lower(term)) && MatchesCategory(catalog[i], category))
  {
    var r := Filter(catalog, term, category);
    assert |r| > 0 ==> r[0] in r;
    |r| == 0
  }
}

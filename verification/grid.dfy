/** The storefront product grid of src/components/ProductGrid.tsx: a
    category and search filter, and a window over the result that "Load More"
    widens six products at a time. */
module Grid {
  import opened Values
  import Seqs
  import Catalog

  type Product = Catalog.Product

  const AllProducts := "All Products"

  /** The `selectedCategory` prop, which defaults to "All Products" when the
      parent passes none; the default switches the category filter off. */
  function SelectedCategory(prop: Option<string>): (r: string)
    ensures prop.None? ==> !CategoryActive(r)
    ensures prop.Some? ==> r == prop.value
  {
    prop.GetOr(AllProducts)
  }

  /** The category filter applies only for a non-empty category other than
      "All Products". */
  predicate CategoryActive(category: string) {
    category != "" && category != AllProducts
  }

  /** The grid's selection rule. */
  predicate Shows(p: Product, query: string, category: string) {
    (!CategoryActive(category) || p.info.category == category)
    && (query == "" || Catalog.SearchMatches(p, query))
  }

  function InCategory(category: string): Product -> bool {
    (p: Product) => p.info.category == category
  }

  function MatchingSearch(query: string): Product -> bool {
    (p: Product) => Catalog.SearchMatches(p, query)
  }

  function ShowsFn(query: string, category: string): Product -> bool {
    (p: Product) => Shows(p, query, category)
  }

  /** The filter effect: first the category, then the search. */
  function Filtered(ps: seq<Product>, query: string, category: string): (r: seq<Product>)
    ensures forall p :: p in r <==> p in ps && Shows(p, query, category)
    ensures !CategoryActive(category) && query == "" ==> r == ps
  {
    var byCategory := if CategoryActive(category) then Seqs.Filter(ps, InCategory(category)) else ps;
    if query != "" then Seqs.Filter(byCategory, MatchingSearch(query)) else byCategory
  }

  /** Without a category prop and without a search the grid lists the whole
      catalog, in order. */
  lemma NoPropsShowAll(ps: seq<Product>)
    ensures Filtered(ps, "", SelectedCategory(None)) == ps
  {
  }

  /** The staged filter is one pass with the selection rule: an
      order-preserving subsequence of the catalog. */
  lemma {:induction false} FilteredIsOnePass(ps: seq<Product>, query: string, category: string)
    ensures Filtered(ps, query, category) == Seqs.Filter(ps, ShowsFn(query, category))
    ensures Seqs.IsSubsequence(Filtered(ps, query, category), ps)
  {
    var shows := ShowsFn(query, category);
    if CategoryActive(category) && query != "" {
      Seqs.FilterFusion(ps, InCategory(category), MatchingSearch(query), shows);
    } else if CategoryActive(category) {
      Seqs.FilterExtensional(ps, InCategory(category), shows);
    } else if query != "" {
      Seqs.FilterExtensional(ps, MatchingSearch(query), shows);
    } else {
      assert forall i :: 0 <= i < |ps| ==> shows(ps[i]);
    }
  }

  // ---------------------------------------------------------------------------
  // The window

  const PageSize := 6

  /** `visibleProducts` starts at one page. */
  const InitialVisible := PageSize

  /** `loadMore`. */
  function LoadMore(visible: nat): (r: nat)
    ensures r == visible + PageSize
    ensures forall f: seq<Product> :: Displayed(f, visible) <= Displayed(f, r)
    ensures forall f: seq<Product> :: LoadMoreOffered(f, visible) ==> |Displayed(f, visible)| < |Displayed(f, r)|
  {
    visible + PageSize
  }

  /** `visibleProducts` after `n` clicks of "Load More". */
  function VisibleAfter(n: nat): nat {
    if n == 0 then InitialVisible else LoadMore(VisibleAfter(n - 1))
  }

  lemma {:induction false} VisibleAfterClicks(n: nat)
    ensures VisibleAfter(n) == PageSize * (n + 1)
  {
    if n > 0 {
      VisibleAfterClicks(n - 1);
    }
  }

  function Min(a: nat, b: nat): nat {
    if a <= b then a else b
  }

  /** `filteredProducts.slice(0, visibleProducts)`. */
  function Displayed(filtered: seq<Product>, visible: nat): (r: seq<Product>)
    ensures |r| == Min(visible, |filtered|)
    ensures forall i :: 0 <= i < |r| ==> r[i] == filtered[i]
  {
    filtered[..Min(visible, |filtered|)]
  }

  /** "Load More" is offered when `visibleProducts < filteredProducts.length`. */
  predicate LoadMoreOffered(filtered: seq<Product>, visible: nat) {
    visible < |filtered|
  }

  /** "No products found" is shown when the filtered list is empty. */
  predicate EmptyMessageShown(filtered: seq<Product>) {
    |filtered| == 0
  }

  /** "Load More" is offered exactly when some filtered product is not on
      screen, and never together with the empty message. */
  lemma LoadMoreIffHidden(filtered: seq<Product>, visible: nat)
    ensures LoadMoreOffered(filtered, visible) <==> |Displayed(filtered, visible)| < |filtered|
    ensures !LoadMoreOffered(filtered, visible) ==> Displayed(filtered, visible) == filtered
    ensures EmptyMessageShown(filtered) ==> !LoadMoreOffered(filtered, visible) && Displayed(filtered, visible) == []
  {
  }

  /** Loading more only extends what is on screen. */
  lemma LoadMoreExtendsDisplay(filtered: seq<Product>, visible: nat)
    ensures var before, after := Displayed(filtered, visible), Displayed(filtered, LoadMore(visible));
      |before| <= |after| && after[..|before|] == before
      && (LoadMoreOffered(filtered, visible) ==> |after| == Min(visible + PageSize, |filtered|) > |before|)
  {
  }

  /** Enough clicks show every filtered product and withdraw the button. */
  lemma {:induction false} EnoughClicksShowAll(filtered: seq<Product>)
    ensures var n := |filtered| / PageSize;
      Displayed(filtered, VisibleAfter(n)) == filtered && !LoadMoreOffered(filtered, VisibleAfter(n))
  {
    VisibleAfterClicks(|filtered| / PageSize);
  }
}

/**
 * The catalogue page (`src/app/pages/ProductsPage.tsx`): `filteredProducts`,
 * a search and category filter followed by a sort chosen by the user.
 */
module ProductsPage {
  import opened Tables
  import opened Text
  import opened Ordering

  /** A product as the catalogue feed delivers it. */
  datatype ListedProduct = ListedProduct(
    id: int, name: string, price: int, category: string, image: Option<string>, shopName: Option<string>)

  /** The name contains the query, both lowercased, and the category filter is `all` or the product's category. */
  predicate Matches(p: ListedProduct, query: string, category: string)
  {
    Contains(Lower(p.name), Lower(query)) && (category == "all" || p.category == category)
  }

  function Filter(products: seq<ListedProduct>, query: string, category: string): (r: seq<ListedProduct>)
    ensures |r| <= |products|
  {
    if products == [] then []
    else if Matches(products[0], query, category) then [products[0]] + Filter(products[1..], query, category)
    else Filter(products[1..], query, category)
  }

  lemma {:induction false} FilterMembers(products: seq<ListedProduct>, query: string, category: string, x: ListedProduct)
    ensures x in Filter(products, query, category) <==> x in products && Matches(x, query, category)
  {
    if products != [] {
      FilterMembers(products[1..], query, category, x);
      assert products == [products[0]] + products[1..];
    }
  }

  /** With nothing typed and every category selected, the whole catalogue is shown, in feed order. */
  lemma {:induction false} EmptySearchKeepsAll(products: seq<ListedProduct>)
    ensures Filter(products, "", "all") == products
  {
    if products != [] {
      ContainsEmpty(Lower(products[0].name));
      EmptySearchKeepsAll(products[1..]);
      assert products == [products[0]] + products[1..];
    }
  }

  function Price(p: ListedProduct): int
  {
    p.price
  }

  function NegatedPrice(p: ListedProduct): int
  {
    -p.price
  }

  /** `filteredProducts`: filter, then sort by price ascending or descending when one of those orders is chosen. */
  function FilteredProducts(products: seq<ListedProduct>, query: string, category: string, sortBy: string)
    : seq<ListedProduct>
  {
    var kept := Filter(products, query, category);
    if sortBy == "price-low" then SortBy(kept, Price)
    else if sortBy == "price-high" then SortBy(kept, NegatedPrice)
    else kept
  }

  /**
   * The page shows each matching product as often as the feed holds it and
   * nothing else, ordered cheapest first for `price-low` and dearest first for
   * `price-high`.
   */
  lemma {:induction false} FilteredProductsSpec(products: seq<ListedProduct>, query: string, category: string, sortBy: string)
    ensures var shown := FilteredProducts(products, query, category, sortBy);
      && multiset(shown) == multiset(Filter(products, query, category))
      && (sortBy == "price-low" ==> forall i, j :: 0 <= i < j < |shown| ==> shown[i].price <= shown[j].price)
      && (sortBy == "price-high" ==> forall i, j :: 0 <= i < j < |shown| ==> shown[i].price >= shown[j].price)
  {
    var kept := Filter(products, query, category);
    var shown := FilteredProducts(products, query, category, sortBy);
    if sortBy == "price-low" {
      SortBySorted(kept, Price);
      assert forall i, j :: 0 <= i < j < |shown| ==> Price(shown[i]) <= Price(shown[j]);
    } else if sortBy == "price-high" {
      SortBySorted(kept, NegatedPrice);
      assert forall i, j :: 0 <= i < j < |shown| ==> NegatedPrice(shown[i]) <= NegatedPrice(shown[j]);
    }
  }

  /** A product is on the page exactly when it is in the feed and matches. */
  lemma {:induction false} FilteredProductsMembers(products: seq<ListedProduct>, query: string, category: string, sortBy: string, x: ListedProduct)
    ensures x in FilteredProducts(products, query, category, sortBy) <==> x in products && Matches(x, query, category)
  {
    FilterMembers(products, query, category, x);
    FilteredProductsSpec(products, query, category, sortBy);
    assert x in FilteredProducts(products, query, category, sortBy)
       <==> x in multiset(FilteredProducts(products, query, category, sortBy));
  }
}

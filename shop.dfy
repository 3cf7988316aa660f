/** The shop page's search box: the fetched product list is narrowed in
    the browser to the products whose name or description contains the
    query, ignoring case. */
module Shop {
  import opened Common
  import Text
  import Products

  predicate Hit(p: Products.Product, query: string)
  {
    Text.Matches(p.name, query) || Text.Matches(p.description, query)
  }

  /** The filter in `loadProducts`; an empty query keeps the list. */
  function SearchFilter(products: seq<Products.Product>, query: string): (r: seq<Products.Product>)
    ensures query == "" ==> r == products
    ensures forall p :: p in r ==> p in products && Hit(p, query)
    ensures forall p :: p in products && Hit(p, query) ==> p in r
    ensures IsSubsequence(r, products)
  {
    if query == "" then
      SubsequenceOfItself(products);
      products
    else Filter(products, (p: Products.Product) => Hit(p, query))
  }

  /** On the full product list, the browser's filter keeps exactly the
      products the server's search endpoint returns, in the list's own
      order rather than by name, when the query holds no LIKE wildcard and
      the query and the product's texts are ASCII, where JavaScript's
      `toLowerCase` and SQLite's case folding coincide. */
  lemma FilterAgreesWithServerSearch(products: seq<Products.Product>, query: string)
    requires query != "" && Text.NoWildcards(query) && Text.IsAscii(query)
    ensures forall p :: p in products && Text.IsAscii(p.name) && Text.IsAscii(p.description) ==>
      (p in SearchFilter(products, query) <==> p in Products.Search(products, query))
  {
    Products.SearchLiteralKeyword(products, query);
  }

  /** A query with `_` tells the two apart: the server's search finds a
      product named "Roza" for "r_za", the page's filter does not. */
  lemma FilterDiffersFromServerSearchOnWildcards(p: Products.Product)
    requires p.name == "Roza" && p.description == ""
    ensures p in Products.Search([p], "r_za")
    ensures p !in SearchFilter([p], "r_za")
  {
    Text.UnderscoreIsAWildcard();
    assert "%" + "r_za" + "%" == "%r_za%";
    assert Text.Lower("") == "";
    assert !Text.Contains("", Text.Lower("r_za"));
  }

  /** Every product of the list matches the empty query too, so the early
      exit changes nothing but the work done. */
  lemma EmptyQueryMatchesAll(products: seq<Products.Product>)
    ensures Filter(products, (p: Products.Product) => Hit(p, "")) == products
  {
    forall p | p in products ensures Hit(p, "") {
      Text.ContainsEmpty(Text.Lower(p.name));
    }
    FilterAll(products, (p: Products.Product) => Hit(p, ""));
  }
}

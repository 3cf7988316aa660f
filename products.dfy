/** The `products` table and the queries of the Product model. Rows are
    kept in insertion order; `nextId` plays the role of SQLite's
    AUTOINCREMENT counter. */
module Products {
  import opened Common
  import Text

  /** A row of `products`. Prices are in cents. `categoryId` is NULL when
      an update leaves the category out; `imagePath` is NULL until an image
      is uploaded. */
  datatype Product = Product(
    id: int,
    name: string,
    description: string,
    price: int,
    stockQuantity: int,
    categoryId: Option<int>,
    imagePath: Option<string>)

  function IdOf(p: Product): int { p.id }

  /** The table invariant: ids are the AUTOINCREMENT values handed out so
      far, so they are positive, below the counter and strictly increasing
      in insertion (that is, `created_at`) order. */
  ghost predicate WellFormed(rows: seq<Product>, nextId: int)
  {
    0 < nextId && AscendingBy(rows, IdOf) && forall p :: p in rows ==> 0 < p.id < nextId
  }

  /** `SELECT ... WHERE p.id = ?`: the row with that id, if any. */
  function FindById(rows: seq<Product>, id: int): (r: Option<Product>)
    ensures r.Some? ==> r.value in rows && r.value.id == id
    ensures r.None? <==> forall p :: p in rows ==> p.id != id
  {
    if rows == [] then None
    else if rows[0].id == id then Some(rows[0])
    else FindById(rows[1..], id)
  }

  /** `UPDATE products SET ... WHERE id = ?` with the change `f` applied to
      the matching rows; `f` never touches the id. */
  function UpdateWhere(rows: seq<Product>, id: int, f: Product -> Product): (r: seq<Product>)
    requires forall p :: f(p).id == p.id
    ensures |r| == |rows|
    ensures forall i :: 0 <= i < |rows| ==> r[i] == if rows[i].id == id then f(rows[i]) else rows[i]
  {
    if rows == [] then []
    else [if rows[0].id == id then f(rows[0]) else rows[0]] + UpdateWhere(rows[1..], id, f)
  }

  /** After an update, a lookup by the updated id sees the change and a
      lookup by any other id sees the old row. */
  lemma {:induction false} FindAfterUpdate(rows: seq<Product>, id: int, f: Product -> Product, x: int)
    requires forall p :: f(p).id == p.id
    ensures FindById(UpdateWhere(rows, id, f), x)
         == if x == id && FindById(rows, x).Some? then Some(f(FindById(rows, x).value)) else FindById(rows, x)
  {
    if rows != [] {
      var r := UpdateWhere(rows, id, f);
      assert r[1..] == UpdateWhere(rows[1..], id, f);
      FindAfterUpdate(rows[1..], id, f, x);
    }
  }

  /** A row after `Product.update`: every column but the id is replaced;
      the image only by a non-empty path. */
  function Updated(p: Product, name: string, description: string, price: int, stockQuantity: int,
                   categoryId: Option<int>, imagePath: Option<string>): (r: Product)
    ensures r.id == p.id && r.name == name && r.description == description && r.price == price
    ensures r.stockQuantity == stockQuantity && r.categoryId == categoryId
    ensures r.imagePath == if imagePath.Some? && imagePath.value != "" then imagePath else p.imagePath
  {
    Product(p.id, name, description, price, stockQuantity, categoryId,
            if imagePath.Some? && imagePath.value != "" then imagePath else p.imagePath)
  }

  lemma UpdateKeepsWellFormed(rows: seq<Product>, nextId: int, id: int, f: Product -> Product)
    requires WellFormed(rows, nextId)
    requires forall p :: f(p).id == p.id
    ensures WellFormed(UpdateWhere(rows, id, f), nextId)
  {
    var r := UpdateWhere(rows, id, f);
    assert forall k :: 0 <= k < |r| ==> r[k].id == rows[k].id;
    forall p | p in r ensures 0 < p.id < nextId {
      var i :| 0 <= i < |r| && r[i] == p;
      assert rows[i] in rows;
    }
  }

  /** `updateStock`: `stock_quantity = stock_quantity - q` for that id. */
  function StockReduced(rows: seq<Product>, id: int, q: int): (r: seq<Product>)
    ensures |r| == |rows|
  {
    if rows == [] then []
    else [if rows[0].id == id then rows[0].(stockQuantity := rows[0].stockQuantity - q) else rows[0]]
         + StockReduced(rows[1..], id, q)
  }

  /** Row by row: only the rows with that id lose `q` units, and nothing
      else about any row changes. */
  lemma {:induction false} StockReducedAt(rows: seq<Product>, id: int, q: int, k: int)
    requires 0 <= k < |rows|
    ensures StockReduced(rows, id, q)[k]
         == if rows[k].id == id then rows[k].(stockQuantity := rows[k].stockQuantity - q) else rows[k]
  {
    if k > 0 {
      StockReducedAt(rows[1..], id, q, k - 1);
    }
  }

  /** The stock decrement is the update that lowers the stock field. */
  lemma {:induction false} StockReducedIsUpdate(rows: seq<Product>, id: int, q: int)
    ensures StockReduced(rows, id, q) == UpdateWhere(rows, id, (p: Product) => p.(stockQuantity := p.stockQuantity - q))
  {
    if rows != [] {
      StockReducedIsUpdate(rows[1..], id, q);
      var f := (p: Product) => p.(stockQuantity := p.stockQuantity - q);
      assert UpdateWhere(rows, id, f) == [if rows[0].id == id then f(rows[0]) else rows[0]] + UpdateWhere(rows[1..], id, f);
    }
  }

  /** Reducing one product's stock leaves every other product, and every
      field but the stock of that product, as it was; no lower bound is
      applied. */
  lemma FindAfterStockReduced(rows: seq<Product>, id: int, q: int, x: int)
    ensures FindById(StockReduced(rows, id, q), x).Some? == FindById(rows, x).Some?
    ensures x != id ==> FindById(StockReduced(rows, id, q), x) == FindById(rows, x)
    ensures x == id && FindById(rows, x).Some? ==>
      FindById(StockReduced(rows, id, q), x).value
        == FindById(rows, x).value.(stockQuantity := FindById(rows, x).value.stockQuantity - q)
  {
    StockReducedIsUpdate(rows, id, q);
    FindAfterUpdate(rows, id, (p: Product) => p.(stockQuantity := p.stockQuantity - q), x);
  }

  /** Reducing stock keeps every row's id in place, so the ids stay
      ascending. */
  lemma StockReducedKeepsAscending(rows: seq<Product>, id: int, q: int)
    requires AscendingBy(rows, IdOf)
    ensures AscendingBy(StockReduced(rows, id, q), IdOf)
  {
    StockReducedIsUpdate(rows, id, q);
    var r := StockReduced(rows, id, q);
    assert forall k :: 0 <= k < |r| ==> r[k].id == rows[k].id;
  }

  /** A decrement the product's stock covers leaves no stock negative. */
  lemma CoveredReductionKeepsStock(rows: seq<Product>, id: int, q: int)
    requires AscendingBy(rows, IdOf)
    requires forall p :: p in rows ==> p.stockQuantity >= 0
    requires FindById(rows, id).Some? && FindById(rows, id).value.stockQuantity >= q
    ensures forall p :: p in StockReduced(rows, id, q) ==> p.stockQuantity >= 0
  {
    StockReducedIsUpdate(rows, id, q);
    var next := StockReduced(rows, id, q);
    forall p | p in next ensures p.stockQuantity >= 0 {
      var k :| 0 <= k < |next| && next[k] == p;
      assert rows[k] in rows;
      if rows[k].id == id {
        FindByIdUnique(rows, k);
      }
    }
  }

  /** With ascending (hence distinct) ids, the lookup by a row's id finds
      that very row. */
  lemma {:induction false} FindByIdUnique(rows: seq<Product>, k: int)
    requires AscendingBy(rows, IdOf)
    requires 0 <= k < |rows|
    ensures FindById(rows, rows[k].id) == Some(rows[k])
  {
    if k > 0 {
      assert IdOf(rows[0]) < IdOf(rows[k]);
      assert AscendingBy(rows[1..], IdOf);
      FindByIdUnique(rows[1..], k - 1);
    }
  }

  /** `DELETE FROM products WHERE id = ?`. */
  function Without(rows: seq<Product>, id: int): (r: seq<Product>)
    ensures forall p :: p in r <==> p in rows && p.id != id
  {
    Filter(rows, (p: Product) => p.id != id)
  }

  lemma {:induction false} FindAfterDelete(rows: seq<Product>, id: int, x: int)
    ensures FindById(Without(rows, id), x) == if x == id then None else FindById(rows, x)
  {
    if rows != [] {
      var keep := (p: Product) => p.id != id;
      assert Filter(rows, keep) == if keep(rows[0]) then [rows[0]] + Filter(rows[1..], keep) else Filter(rows[1..], keep);
      FindAfterDelete(rows[1..], id, x);
    }
  }

  /** `getAll(categoryId)`: with a truthy category id only the products of
      that category, otherwise all products; newest first. */
  function GetAll(rows: seq<Product>, categoryId: Option<int>): (r: seq<Product>)
    requires AscendingBy(rows, IdOf)
    ensures forall p :: p in r ==> p in rows && (Truthy(categoryId) ==> p.categoryId == categoryId)
    ensures forall p :: p in rows && (Truthy(categoryId) ==> p.categoryId == categoryId) ==> p in r
    ensures DescendingBy(r, IdOf)
  {
    var chosen := if Truthy(categoryId) then Filter(rows, (p: Product) => p.categoryId == categoryId) else rows;
    FilterKeepsAscending(rows, (p: Product) => p.categoryId == categoryId, IdOf);
    ReverseOfAscending(chosen, IdOf);
    ReverseMembers(chosen);
    Reverse(chosen)
  }

  /** `getFeatured(limit)`: the `limit` newest products (all of them when
      SQLite is given a negative limit). */
  function GetFeatured(rows: seq<Product>, limit: int): (r: seq<Product>)
    requires AscendingBy(rows, IdOf)
    ensures 0 <= limit ==> |r| <= limit
    ensures |r| == if 0 <= limit < |rows| then limit else |rows|
    ensures forall i :: 0 <= i < |r| ==> r[i] == rows[|rows| - 1 - i]
    ensures DescendingBy(r, IdOf)
  {
    ReverseOfAscending(rows, IdOf);
    Limit(Reverse(rows), limit)
  }

  /** The WHERE clause of `search`: `name LIKE '%k%' OR description LIKE
      '%k%'`, the keyword pasted into the pattern as it is, so that `%` and
      `_` in it act as wildcards. */
  predicate KeywordHit(p: Product, keyword: string)
  {
    Text.Like(p.name, "%" + keyword + "%") || Text.Like(p.description, "%" + keyword + "%")
  }

  /** `search(keyword)`: every matching row once, ordered by name. */
  function Search(rows: seq<Product>, keyword: string): (r: seq<Product>)
    ensures forall p :: p in r ==> p in rows && KeywordHit(p, keyword)
    ensures forall p :: p in rows && KeywordHit(p, keyword) ==> p in r
    ensures multiset(r) == multiset(Filter(rows, (p: Product) => KeywordHit(p, keyword)))
    ensures Text.SortedBy(r, (p: Product) => p.name)
  {
    var hits := Filter(rows, (p: Product) => KeywordHit(p, keyword));
    var r := Text.SortBy(hits, (p: Product) => p.name);
    forall p | p in r ensures p in hits {
      assert p in multiset(r);
    }
    forall p | p in hits ensures p in r {
      assert p in multiset(hits);
    }
    r
  }

  /** For a keyword without wildcards, `search` keeps exactly the products
      whose name or description contains it, ignoring ASCII case. */
  lemma SearchLiteralKeyword(rows: seq<Product>, keyword: string)
    requires Text.NoWildcards(keyword)
    ensures forall p :: p in Search(rows, keyword) <==>
      p in rows && (Text.Matches(p.name, keyword) || Text.Matches(p.description, keyword))
  {
    forall p | p in rows ensures KeywordHit(p, keyword) <==> Text.Matches(p.name, keyword) || Text.Matches(p.description, keyword) {
      Text.LikeContainsIff(p.name, keyword);
      Text.LikeContainsIff(p.description, keyword);
    }
  }

  class ProductTable {
    var rows: seq<Product>
    var nextId: int

    ghost predicate Valid()
      reads this
    {
      WellFormed(rows, nextId)
    }

    constructor ()
      ensures Valid() && rows == []
    {
      rows := [];
      nextId := 1;
    }

    /** `Product.create`: one new row with exactly the given fields and a
        fresh id. */
    method Create(name: string, description: string, price: int, stockQuantity: int,
                  categoryId: Option<int>, imagePath: Option<string>) returns (id: int)
      requires Valid()
      modifies this
      ensures Valid()
      ensures id == old(nextId) && nextId == id + 1
      ensures rows == old(rows) + [Product(id, name, description, price, stockQuantity, categoryId, imagePath)]
      ensures FindById(rows, id) == Some(Product(id, name, description, price, stockQuantity, categoryId, imagePath))
      ensures forall x :: x != id ==> FindById(rows, x) == FindById(old(rows), x)
    {
      id := nextId;
      var row := Product(id, name, description, price, stockQuantity, categoryId, imagePath);
      FindAfterAppend(rows, row);
      AppendKeepsAscending(rows, row, IdOf);
      rows := rows + [row];
      nextId := nextId + 1;
    }

    /** `Product.update`: name, description, price, stock and category are
        always overwritten; the image only when a truthy path is given. */
    method Update(id: int, name: string, description: string, price: int, stockQuantity: int,
                  categoryId: Option<int>, imagePath: Option<string>)
      requires Valid()
      modifies this
      ensures Valid() && nextId == old(nextId) && |rows| == |old(rows)|
      ensures rows == UpdateWhere(old(rows), id, (p: Product) => Updated(p, name, description, price, stockQuantity, categoryId, imagePath))
      ensures forall x ::
        (FindById(rows, x)
           == if x == id && FindById(old(rows), x).Some?
              then Some(Updated(FindById(old(rows), x).value, name, description, price, stockQuantity, categoryId, imagePath))
              else FindById(old(rows), x))
    {
      var f := (p: Product) => Updated(p, name, description, price, stockQuantity, categoryId, imagePath);
      UpdateKeepsWellFormed(rows, nextId, id, f);
      forall x ensures FindById(UpdateWhere(rows, id, f), x)
        == (if x == id && FindById(rows, x).Some? then Some(f(FindById(rows, x).value)) else FindById(rows, x))
      {
        FindAfterUpdate(rows, id, f, x);
      }
      rows := UpdateWhere(rows, id, f);
    }

    /** `Product.delete`. */
    method Delete(id: int)
      requires Valid()
      modifies this
      ensures Valid() && nextId == old(nextId)
      ensures rows == Without(old(rows), id)
    {
      FilterKeepsAscending(rows, (p: Product) => p.id != id, IdOf);
      rows := Without(rows, id);
    }

    /** `Product.updateStock`. */
    method UpdateStock(id: int, quantity: int)
      requires Valid()
      modifies this
      ensures Valid() && nextId == old(nextId)
      ensures rows == StockReduced(old(rows), id, quantity)
    {
      UpdateKeepsWellFormed(rows, nextId, id, (p: Product) => p.(stockQuantity := p.stockQuantity - quantity));
      StockReducedIsUpdate(rows, id, quantity);
      rows := StockReduced(rows, id, quantity);
    }
  }

  /** Appending a row whose id is new makes it findable and changes no
      other lookup. */
  lemma {:induction false} FindAfterAppend(rows: seq<Product>, row: Product)
    requires forall p :: p in rows ==> p.id != row.id
    ensures FindById(rows + [row], row.id) == Some(row)
    ensures forall x :: x != row.id ==> FindById(rows + [row], x) == FindById(rows, x)
  {
    if rows != [] {
      assert (rows + [row])[1..] == rows[1..] + [row];
      FindAfterAppend(rows[1..], row);
    }
  }
}

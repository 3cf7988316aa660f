/** The browser's cart, shared by every page: a sequence of lines kept in
    `localStorage` under the key `cart`, the merge that adding a product
    performs, and the total the pages display. */
module Cart {
  import opened Common
  import Products

  /** One cart entry; the price is the one the product had when it was
      first added to the cart. */
  datatype CartLine = CartLine(productId: int, name: string, price: int, quantity: int, imagePath: Option<string>)

  function LineTotal(l: CartLine): int { l.price * l.quantity }

  /** `calculateCartTotal`: the sum of price times quantity over the lines. */
  function CartTotal(items: seq<CartLine>): (r: int)
    ensures items == [] ==> r == 0
    ensures (forall k :: 0 <= k < |items| ==> items[k].price >= 0 && items[k].quantity >= 0) ==> r >= 0
  {
    if items == [] then 0 else LineTotal(items[0]) + CartTotal(items[1..])
  }

  /** The cart total is the `Sum` of the line totals. */
  lemma {:induction false} CartTotalIsSum(items: seq<CartLine>)
    ensures CartTotal(items) == Sum(items, LineTotal)
  {
    if items != [] {
      CartTotalIsSum(items[1..]);
    }
  }

  /** `cart.find(item => item.productId === productId)`: the index of the
      first line for that product. */
  function FindLine(cart: seq<CartLine>, productId: int): (r: Option<int>)
    ensures r.Some? ==> 0 <= r.value < |cart| && cart[r.value].productId == productId
    ensures r.Some? ==> forall k :: 0 <= k < r.value ==> cart[k].productId != productId
    ensures r.None? <==> forall k :: 0 <= k < |cart| ==> cart[k].productId != productId
  {
    if cart == [] then None
    else if cart[0].productId == productId then Some(0)
    else match FindLine(cart[1..], productId)
      case None => None
      case Some(i) => Some(i + 1)
  }

  /** Adding `line` to the cart: a line for the same product gets the
      quantity added and keeps its name, price and image; otherwise `line`
      is appended at the end. */
  function Merge(cart: seq<CartLine>, line: CartLine): (r: seq<CartLine>)
    ensures FindLine(cart, line.productId).Some? ==>
      var i := FindLine(cart, line.productId).value;
      && |r| == |cart|
      && r[i] == cart[i].(quantity := cart[i].quantity + line.quantity)
      && forall k :: 0 <= k < |cart| && k != i ==> r[k] == cart[k]
    ensures FindLine(cart, line.productId).None? ==>
      |r| == |cart| + 1 && r[..|cart|] == cart && r[|cart|] == line
  {
    match FindLine(cart, line.productId)
    case Some(i) => cart[i := cart[i].(quantity := cart[i].quantity + line.quantity)]
    case None => cart + [line]
  }

  /** No two lines are for the same product. */
  predicate UniqueIds(cart: seq<CartLine>)
  {
    forall i, j :: 0 <= i < |cart| && 0 <= j < |cart| && cart[i].productId == cart[j].productId ==> i == j
  }

  /** Adding never creates a second line for a product. */
  lemma MergeKeepsUniqueIds(cart: seq<CartLine>, line: CartLine)
    requires UniqueIds(cart)
    ensures UniqueIds(Merge(cart, line))
  {
    var r := Merge(cart, line);
    if FindLine(cart, line.productId).Some? {
      assert forall k :: 0 <= k < |r| ==> r[k].productId == cart[k].productId;
    } else {
      assert forall k :: 0 <= k < |cart| ==> r[k] == cart[k];
    }
  }

  /** Adding raises the total by the quantity added, priced at the line
      already in the cart when there is one (its stored price may differ
      from the product's current one) and at the new line's price otherwise. */
  lemma MergeTotal(cart: seq<CartLine>, line: CartLine)
    ensures FindLine(cart, line.productId).Some? ==>
      CartTotal(Merge(cart, line)) == CartTotal(cart) + cart[FindLine(cart, line.productId).value].price * line.quantity
    ensures FindLine(cart, line.productId).None? ==>
      CartTotal(Merge(cart, line)) == CartTotal(cart) + line.price * line.quantity
  {
    var r := Merge(cart, line);
    CartTotalIsSum(cart);
    CartTotalIsSum(r);
    match FindLine(cart, line.productId)
    case Some(i) =>
      assert r == cart[i := cart[i].(quantity := cart[i].quantity + line.quantity)];
      RaisedQuantitySum(cart, i, line.quantity);
    case None =>
      assert r == cart + [line];
      AppendedLineSum(cart, line);
  }

  lemma AppendedLineSum(cart: seq<CartLine>, line: CartLine)
    ensures Sum(cart + [line], LineTotal) == Sum(cart, LineTotal) + line.price * line.quantity
  {
    SumConcat(cart, [line], LineTotal);
    assert Sum([line], LineTotal) == LineTotal(line);
  }

  lemma RaisedQuantitySum(cart: seq<CartLine>, i: int, q: int)
    requires 0 <= i < |cart|
    ensures Sum(cart[i := cart[i].(quantity := cart[i].quantity + q)], LineTotal)
         == Sum(cart, LineTotal) + cart[i].price * q
  {
    var updated := cart[i].(quantity := cart[i].quantity + q);
    SumUpdate(cart, i, updated, LineTotal);
    var p, a := cart[i].price, cart[i].quantity;
    assert LineTotal(updated) == p * (a + q) == p * a + p * q;
  }

  /** What `fetch(...).then(r => r.json())` yields for the product: the
      request or the parsing of its body failed; the server answered with an
      error body such as the 404 `{error}` of a deleted product; or the
      product itself. */
  datatype ProductAnswer =
    | RequestFailed
    | ErrorBody
    | ProductFound(product: Products.Product)

  /** The browser's `localStorage` entry for the cart. */
  class CartStorage {
    /** The stored cart; None when the key is absent. */
    var saved: Option<seq<CartLine>>

    constructor ()
      ensures saved == None
    {
      saved := None;
    }

    /** `getCart`: the stored cart, or the empty cart when nothing is
        stored. */
    function GetCart(): (r: seq<CartLine>)
      reads this
      ensures saved.None? ==> r == []
      ensures saved.Some? ==> r == saved.value
    {
      if saved.None? then [] else saved.value
    }

    /** `localStorage.setItem('cart', ...)`. */
    method Save(cart: seq<CartLine>)
      modifies this
      ensures saved == Some(cart) && GetCart() == cart
    {
      saved := Some(cart);
    }

    /** `clearCart`: the key is removed, and the cart reads as empty. */
    method ClearCart()
      modifies this
      ensures saved == None && GetCart() == []
    {
      saved := None;
    }

    /** `addToCartQuick`: one more unit of the product, merged into the
        stored cart. The response status is never looked at, so an error
        answer still goes on: a line already in the cart gets one more
        unit. Only a failed request or an unparsable body changes nothing. */
    method AddToCartQuick(productId: int, answer: ProductAnswer)
      modifies this
      ensures answer.RequestFailed? ==> saved == old(saved)
      ensures answer.ProductFound? ==>
        saved == Some(Merge(old(GetCart()), CartLine(productId, answer.product.name, answer.product.price, 1, answer.product.imagePath)))
      ensures answer.ErrorBody? && FindLine(old(GetCart()), productId).Some? ==>
        var i := FindLine(old(GetCart()), productId).value;
        saved == Some(old(GetCart())[i := old(GetCart())[i].(quantity := old(GetCart())[i].quantity + 1)])
    {
      if answer.RequestFailed? {
        return;
      }
      var cart := GetCart();
      var existing := FindLine(cart, productId);
      if existing.Some? {
        var i := existing.value;
        cart := cart[i := cart[i].(quantity := cart[i].quantity + 1)];
      } else if answer.ProductFound? {
        var product := answer.product;
        cart := cart + [CartLine(productId, product.name, product.price, 1, product.imagePath)];
      } else {
        return;
      }
      Save(cart);
    }
  }

  /** The stock line of a product card: "In Stock" exactly when the add
      button is enabled, which is exactly when stock is positive. */
  function StockText(stockQuantity: int): (r: string)
    ensures r == "In Stock" || r == "Out of Stock"
    ensures r == "In Stock" <==> stockQuantity > 0
  {
    if stockQuantity > 0 then "In Stock" else "Out of Stock"
  }

  /** The card's add button is disabled exactly when its stock line says
      "Out of Stock". */
  function AddButtonDisabled(stockQuantity: int): (r: bool)
    ensures r <==> StockText(stockQuantity) == "Out of Stock"
  {
    stockQuantity <= 0
  }

  lemma CardStockConsistent(stockQuantity: int)
    ensures StockText(stockQuantity) == "In Stock" <==> !AddButtonDisabled(stockQuantity)
    ensures !AddButtonDisabled(stockQuantity) <==> stockQuantity > 0
  {
  }
}

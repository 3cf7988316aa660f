/** The product page: which product the address names, whether it can be
    added, and adding a chosen quantity of it to the cart. */
module ProductDetail {
  import opened Common
  import opened Cart
  import Products

  /** `path.split('/').pop()`: the part of the path after its last '/', or
      the whole path when it has none. */
  function ProductIdFromPath(path: string): (r: string)
    ensures |r| <= |path| && r == path[|path| - |r|..]
    ensures '/' !in r
    ensures |r| < |path| ==> path[|path| - |r| - 1] == '/'
  {
    if path == [] || path[|path| - 1] == '/' then []
    else ProductIdFromPath(path[..|path| - 1]) + [path[|path| - 1]]
  }

  /** Whatever comes before the last '/' does not matter. */
  lemma {:induction false} ProductIdAfterPrefix(prefix: string, id: string)
    requires '/' !in id
    ensures ProductIdFromPath(prefix + "/" + id) == id
    decreases |id|
  {
    var path := prefix + "/" + id;
    if id == [] {
      assert path[|path| - 1] == '/';
    } else {
      assert path[..|path| - 1] == prefix + "/" + id[..|id| - 1];
      assert id[|id| - 1] in id;
      ProductIdAfterPrefix(prefix, id[..|id| - 1]);
      assert id[..|id| - 1] + [id[|id| - 1]] == id;
    }
  }

  /** The quantity field and the add button are disabled exactly when the
      product is out of stock, which is exactly when the product's card in
      the listing has its add button disabled. */
  function ControlsDisabled(p: Products.Product): (r: bool)
    ensures r == AddButtonDisabled(p.stockQuantity)
  {
    p.stockQuantity <= 0
  }

  /** The line that adding `quantity` units of `p` contributes. */
  function LineFor(p: Products.Product, quantity: int): (l: CartLine)
    ensures l.productId == p.id && l.name == p.name && l.price == p.price
    ensures l.quantity == quantity && l.imagePath == p.imagePath
  {
    CartLine(p.id, p.name, p.price, quantity, p.imagePath)
  }

  /** `addToCart` with the already parsed quantity: nothing happens when no
      product is loaded or the quantity is below 1; otherwise the quantity
      is added to the product's line, or a new line is appended. */
  method AddToCart(storage: CartStorage, current: Option<Products.Product>, quantity: int)
    modifies storage
    ensures current.None? || quantity < 1 ==> storage.saved == old(storage.saved)
    ensures current.Some? && quantity >= 1 ==>
      storage.saved == Some(Merge(old(storage.GetCart()), LineFor(current.value, quantity)))
  {
    if current.None? {
      return;
    }
    if quantity < 1 {
      return;
    }
    var product := current.value;
    var cart := storage.GetCart();
    var existing := FindLine(cart, product.id);
    if existing.Some? {
      var i := existing.value;
      cart := cart[i := cart[i].(quantity := cart[i].quantity + quantity)];
    } else {
      cart := cart + [LineFor(product, quantity)];
    }
    storage.Save(cart);
  }

  /** Adding a positive quantity raises the cart total, and never creates a
      second line for the product. */
  lemma AddedQuantityRaisesTotal(cart: seq<CartLine>, p: Products.Product, quantity: int)
    requires quantity >= 1 && UniqueIds(cart)
    requires forall k :: 0 <= k < |cart| ==> cart[k].price > 0
    requires p.price > 0
    ensures CartTotal(Merge(cart, LineFor(p, quantity))) > CartTotal(cart)
    ensures UniqueIds(Merge(cart, LineFor(p, quantity)))
  {
    MergeTotal(cart, LineFor(p, quantity));
    MergeKeepsUniqueIds(cart, LineFor(p, quantity));
    var pr := if FindLine(cart, p.id).Some? then cart[FindLine(cart, p.id).value].price else p.price;
    PositiveProduct(pr, quantity);
  }

  lemma PositiveProduct(a: int, b: int)
    requires a > 0 && b > 0
    ensures a * b > 0
  {
  }
}

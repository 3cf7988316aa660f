/** The cart page: changing a line's quantity, removing a line, and the
    button that leads on to checkout. Each change reads the stored cart,
    edits it and writes it back. */
module CartPage {
  import opened Common
  import opened Cart

  /** `cart.splice(index, 1)`: line `index` is taken out and the others
      close up in order; an index past the end removes nothing. */
  function RemoveAt(cart: seq<CartLine>, index: nat): (r: seq<CartLine>)
    ensures index < |cart| ==> |r| == |cart| - 1
    ensures index < |cart| ==> forall k :: 0 <= k < index ==> r[k] == cart[k]
    ensures index < |cart| ==> forall k :: index <= k < |r| ==> r[k] == cart[k + 1]
    ensures index >= |cart| ==> r == cart
  {
    if index < |cart| then cart[..index] + cart[index + 1..] else cart
  }

  /** Removing a line keeps the others in their relative order. */
  lemma {:induction false} RemoveAtIsSubsequence(cart: seq<CartLine>, index: nat)
    ensures IsSubsequence(RemoveAt(cart, index), cart)
  {
    if index < |cart| {
      if index == 0 {
        assert RemoveAt(cart, 0) == cart[1..];
        SkipFirstIsSubsequence(cart);
      } else {
        assert RemoveAt(cart, index)[0] == cart[0];
        assert RemoveAt(cart, index)[1..] == RemoveAt(cart[1..], index - 1);
        RemoveAtIsSubsequence(cart[1..], index - 1);
      }
    } else {
      SubsequenceOfItself(cart);
    }
  }

  /** A removed line no longer counts towards the total. */
  lemma RemoveAtTotal(cart: seq<CartLine>, index: nat)
    requires index < |cart|
    ensures CartTotal(RemoveAt(cart, index)) == CartTotal(cart) - LineTotal(cart[index])
  {
    CartTotalIsSum(cart);
    CartTotalIsSum(RemoveAt(cart, index));
    SumRemove(cart, index, LineTotal);
  }

  /** `cart[index].quantity = quantity`. */
  function SetQuantity(cart: seq<CartLine>, index: nat, quantity: int): (r: seq<CartLine>)
    requires index < |cart|
    ensures |r| == |cart|
    ensures r[index] == cart[index].(quantity := quantity)
    ensures forall k :: 0 <= k < |cart| && k != index ==> r[k] == cart[k]
  {
    cart[index := cart[index].(quantity := quantity)]
  }

  /** Changing a quantity keeps the product ids of all lines, so a cart
      without duplicate products keeps that property. */
  lemma SetQuantityKeepsUniqueIds(cart: seq<CartLine>, index: nat, quantity: int)
    requires index < |cart| && UniqueIds(cart)
    ensures UniqueIds(SetQuantity(cart, index, quantity))
  {
    var r := SetQuantity(cart, index, quantity);
    assert forall k :: 0 <= k < |r| ==> r[k].productId == cart[k].productId;
  }

  /** `removeFromCart`: the stored cart with line `index` taken out. The
      result is written back even when nothing was stored before. */
  method RemoveFromCart(storage: CartStorage, index: nat)
    modifies storage
    ensures storage.saved == Some(RemoveAt(old(storage.GetCart()), index))
  {
    var cart := storage.GetCart();
    if index < |cart| {
      cart := cart[..index] + cart[index + 1..];
    }
    storage.Save(cart);
  }

  /** `updateQuantity` with the already parsed quantity: below 1 the line
      is removed; otherwise only that line's quantity changes. An index
      past the end makes the assignment throw, and nothing is written. */
  method UpdateQuantity(storage: CartStorage, index: nat, quantity: int)
    modifies storage
    ensures quantity < 1 ==> storage.saved == Some(RemoveAt(old(storage.GetCart()), index))
    ensures quantity >= 1 && index < |old(storage.GetCart())| ==>
      storage.saved == Some(SetQuantity(old(storage.GetCart()), index, quantity))
    ensures quantity >= 1 && index >= |old(storage.GetCart())| ==> storage.saved == old(storage.saved)
  {
    var cart := storage.GetCart();
    if quantity < 1 {
      RemoveFromCart(storage, index);
      return;
    }
    if index >= |cart| {
      return;
    }
    cart := cart[index := cart[index].(quantity := quantity)];
    storage.Save(cart);
  }

  /** Where the "proceed to checkout" button leads. */
  datatype Navigation = Stay | Navigate(path: string)

  /** An empty cart keeps the user on the page; otherwise the profile
      request decides: signed in (`Some(true)`) goes to checkout, and a
      refused or failed request (`Some(false)`, None) goes to login. */
  function ProceedToCheckout(cart: seq<CartLine>, profileOk: Option<bool>): (r: Navigation)
    ensures r == Stay <==> cart == []
    ensures r == Navigate("/checkout") <==> cart != [] && profileOk == Some(true)
    ensures r == Navigate("/login") <==> cart != [] && profileOk != Some(true)
  {
    if cart == [] then Stay
    else if profileOk == Some(true) then Navigate("/checkout")
    else Navigate("/login")
  }
}

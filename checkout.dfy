/** The checkout form: what the browser refuses to send, the order request
    it sends, and when it empties the cart. */
module Checkout {
  import opened Common
  import opened Cart
  import Text
  import OrderController
  import Sessions
  import Products

  /** Why the form is not sent. */
  datatype Refusal = CartIsEmpty | FillAllFields

  datatype Submission = Refused(reason: Refusal) | Post(request: OrderController.OrderRequest)

  /** `cart.map(item => ({ productId, quantity }))`. */
  function Project(cart: seq<CartLine>): (r: seq<OrderController.Line>)
    ensures |r| == |cart|
    ensures forall k :: 0 <= k < |cart| ==> r[k] == OrderController.Line(cart[k].productId, cart[k].quantity)
  {
    seq(|cart|, k requires 0 <= k < |cart| => OrderController.Line(cart[k].productId, cart[k].quantity))
  }

  /** The checks of `handleCheckout`, in their order, and the request body:
      an empty cart is refused, then a field that is empty after trimming;
      otherwise the projected cart and the trimmed fields are posted. */
  function Submit(cart: seq<CartLine>, customerName: string, address: string, phoneNumber: string): (r: Submission)
    ensures r == Refused(CartIsEmpty) <==> cart == []
    ensures r == Refused(FillAllFields) <==>
      cart != [] && (Text.Trim(customerName) == "" || Text.Trim(address) == "" || Text.Trim(phoneNumber) == "")
    ensures r.Post? ==>
      && r.request.items == Some(Project(cart))
      && r.request.customerName == Text.Trim(customerName) != ""
      && r.request.address == Text.Trim(address) != ""
      && r.request.phoneNumber == Text.Trim(phoneNumber) != ""
  {
    if cart == [] then Refused(CartIsEmpty)
    else
      var name, addr, phone := Text.Trim(customerName), Text.Trim(address), Text.Trim(phoneNumber);
      if name == "" || addr == "" || phone == "" then Refused(FillAllFields)
      else Post(OrderController.OrderRequest(Some(Project(cart)), name, addr, phone))
  }

  /** A request the form sends for a signed-in user passes every check the
      server makes before looking at products. */
  lemma PostedRequestPassesPrecheck(cart: seq<CartLine>, customerName: string, address: string, phoneNumber: string,
                                    user: Sessions.SessionUser)
    requires Submit(cart, customerName, address, phoneNumber).Post?
    ensures OrderController.Precheck(Some(user), Submit(cart, customerName, address, phoneNumber).request).None?
  {
    var req := Submit(cart, customerName, address, phoneNumber).request;
    assert |req.items.value| == |cart| > 0;
  }

  /** When the cart's stored prices are the products' current prices, the
      total the cart shows is the total the server charges for the posted
      items. */
  lemma {:induction false} CartTotalIsServerTotal(cart: seq<CartLine>, rows: seq<Products.Product>)
    requires forall k :: 0 <= k < |cart| ==> cart[k].price == OrderController.PriceOf(rows, cart[k].productId)
    ensures CartTotal(cart) == OrderController.RequestTotal(rows, Project(cart))
  {
    if cart != [] {
      assert Project(cart)[1..] == Project(cart[1..]);
      CartTotalIsServerTotal(cart[1..], rows);
    }
  }

  /** What became of a submission. */
  datatype Outcome = NotSent(reason: Refusal) | Failed | Placed

  /** `handleCheckout`. `accepted` is whether the server answered the post
      with a success status. The cart is cleared only after a success. */
  method HandleCheckout(storage: CartStorage, customerName: string, address: string, phoneNumber: string, accepted: bool)
    returns (posted: Option<OrderController.OrderRequest>, outcome: Outcome)
    modifies storage
    ensures Submit(old(storage.GetCart()), customerName, address, phoneNumber).Refused? ==>
      && posted.None?
      && outcome == NotSent(Submit(old(storage.GetCart()), customerName, address, phoneNumber).reason)
      && storage.saved == old(storage.saved)
    ensures Submit(old(storage.GetCart()), customerName, address, phoneNumber).Post? ==>
      && posted == Some(Submit(old(storage.GetCart()), customerName, address, phoneNumber).request)
      && (accepted ==> outcome == Placed && storage.saved == None)
      && (!accepted ==> outcome == Failed && storage.saved == old(storage.saved))
  {
    var cart := storage.GetCart();
    if cart == [] {
      return None, NotSent(CartIsEmpty);
    }
    var name := Text.Trim(customerName);
    var addr := Text.Trim(address);
    var phone := Text.Trim(phoneNumber);
    if name == "" || addr == "" || phone == "" {
      return None, NotSent(FillAllFields);
    }
    var orderItems := Project(cart);
    posted := Some(OrderController.OrderRequest(Some(orderItems), name, addr, phone));
    if !accepted {
      return posted, Failed;
    }
    storage.ClearCart();
    outcome := Placed;
  }
}

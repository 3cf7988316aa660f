/** The order endpoints. Placing an order walks the requested items in
    order, checks each against the product table as it stands at that
    moment, decrements its stock at once, and stops at the first item that
    fails; decrements already made are not undone. */
module OrderController {
  import opened Common
  import opened Sessions
  import Products
  import Orders

  /** One entry of the request's `items`. */
  datatype Line = Line(productId: int, quantity: int)

  /** The request body; `items` is None when it is missing or not an array,
      and a missing text field is the empty string. */
  datatype OrderRequest = OrderRequest(
    items: Option<seq<Line>>,
    customerName: string,
    address: string,
    phoneNumber: string)

  datatype OrderError =
    | NotLoggedIn
    | ItemsRequired
    | CustomerInfoRequired
    | ProductNotFound(productId: int)
    | NotEnoughStock(productName: string)
    | OrderNotFound
    | AccessDenied
    | StatusRequired
    | InvalidOrderStatus

  /** The HTTP status each error is answered with. An unknown status is
      thrown by the model and reaches the handler's catch block, hence 500. */
  function Code(e: OrderError): int
  {
    match e
    case NotLoggedIn => 401
    case ItemsRequired | CustomerInfoRequired | NotEnoughStock(_) | StatusRequired => 400
    case ProductNotFound(_) | OrderNotFound => 404
    case AccessDenied => 403
    case InvalidOrderStatus => 500
  }

  /** An order together with its item rows, as the handlers return it. */
  datatype OrderWithItems = OrderWithItems(order: Orders.Order, items: seq<Orders.OrderItem>)

  /** The checks made before any product is looked at, in their order:
      a session user, a non-empty item list, the three delivery fields. */
  function Precheck(user: Option<SessionUser>, req: OrderRequest): (r: Option<OrderError>)
    ensures user.None? ==> r == Some(NotLoggedIn)
    ensures user.Some? && (req.items.None? || req.items.value == []) ==> r == Some(ItemsRequired)
    ensures r == Some(CustomerInfoRequired) <==>
      (user.Some? && req.items.Some? && req.items.value != []
       && (req.customerName == "" || req.address == "" || req.phoneNumber == ""))
    ensures r.None? <==>
      (user.Some? && req.items.Some? && req.items.value != []
       && req.customerName != "" && req.address != "" && req.phoneNumber != "")
  {
    if user.None? then Some(NotLoggedIn)
    else if req.items.None? || req.items.value == [] then Some(ItemsRequired)
    else if req.customerName == "" || req.address == "" || req.phoneNumber == "" then Some(CustomerInfoRequired)
    else None
  }

  /** How the item loop ends: every item passed, with its priced lines; or
      the item at index `at` names no product; or the item at index `at`
      asks for more than the product's current stock. */
  datatype Outcome =
    | AllInStock(lines: seq<Orders.PricedLine>)
    | Missing(at: int, productId: int)
    | Short(at: int, productName: string)

  /** An outcome together with the product rows the loop leaves behind. */
  datatype Scan = Scan(outcome: Outcome, rows: seq<Products.Product>)

  /** The scan of the later items, seen from `done` items further back that
      contributed `lines`. */
  function Resume(done: int, lines: seq<Orders.PricedLine>, s: Scan): Scan
  {
    match s.outcome
    case AllInStock(ls) => Scan(AllInStock(lines + ls), s.rows)
    case Missing(at, pid) => Scan(Missing(done + at, pid), s.rows)
    case Short(at, name) => Scan(Short(done + at, name), s.rows)
  }

  /** What one priced line adds to the order's total. */
  function LineCost(l: Orders.PricedLine): int { l.price * l.quantity }

  /** The item loop of `create`: look the product up, compare its current
      stock with the quantity, add `price * quantity`, record the price, and
      decrement the stock before going on with the next item. */
  function ScanItems(rows: seq<Products.Product>, items: seq<Line>): (r: Scan)
    ensures r.outcome.AllInStock? ==> |r.outcome.lines| == |items|
    ensures !r.outcome.AllInStock? ==> 0 <= r.outcome.at < |items|
    decreases |items|
  {
    if items == [] then Scan(AllInStock([]), rows)
    else
      var item := items[0];
      match Products.FindById(rows, item.productId)
      case None => Scan(Missing(0, item.productId), rows)
      case Some(p) =>
        if p.stockQuantity < item.quantity then Scan(Short(0, p.name), rows)
        else
          var line := Orders.PricedLine(item.productId, item.quantity, p.price);
          Resume(1, [line], ScanItems(Products.StockReduced(rows, item.productId, item.quantity), items[1..]))
  }

  lemma ResumeResume(i: int, lines: seq<Orders.PricedLine>, line: Orders.PricedLine, s: Scan)
    ensures Resume(i, lines, Resume(1, [line], s)) == Resume(i + 1, lines + [line], s)
  {
    if s.outcome.AllInStock? {
      assert lines + ([line] + s.outcome.lines) == (lines + [line]) + s.outcome.lines;
    }
  }

  /** Every stock decrement of `items`, one after the other, with no check:
      the reference for what the loop does to the table. */
  function ReduceAll(rows: seq<Products.Product>, items: seq<Line>): seq<Products.Product>
    decreases |items|
  {
    if items == [] then rows
    else ReduceAll(Products.StockReduced(rows, items[0].productId, items[0].quantity), items[1..])
  }

  /** The total quantity `items` asks of one product. */
  function QtyFor(items: seq<Line>, productId: int): int
  {
    if items == [] then 0
    else (if items[0].productId == productId then items[0].quantity else 0) + QtyFor(items[1..], productId)
  }

  /** A looked-up row with its stock lowered by `q`. */
  function Lowered(p: Option<Products.Product>, q: int): Option<Products.Product>
  {
    if p.Some? then Some(p.value.(stockQuantity := p.value.stockQuantity - q)) else None
  }

  lemma LoweredTwice(p: Option<Products.Product>, a: int, b: int)
    ensures Lowered(Lowered(p, a), b) == Lowered(p, a + b)
  {
  }

  /** One decrement, seen through a lookup. */
  lemma StockReducedLowers(rows: seq<Products.Product>, id: int, q: int, x: int)
    ensures Products.FindById(Products.StockReduced(rows, id, q), x)
         == Lowered(Products.FindById(rows, x), if x == id then q else 0)
  {
    Products.FindAfterStockReduced(rows, id, q, x);
  }

  /** After a run of decrements each product's stock is its old stock less
      everything asked of it, and nothing else about any product changes. */
  lemma {:induction false} ReduceAllEffect(rows: seq<Products.Product>, items: seq<Line>, x: int)
    ensures Products.FindById(ReduceAll(rows, items), x) == Lowered(Products.FindById(rows, x), QtyFor(items, x))
    decreases |items|
  {
    if items == [] {
      LoweredNothing(Products.FindById(rows, x));
    } else {
      var next := Products.StockReduced(rows, items[0].productId, items[0].quantity);
      var c := if items[0].productId == x then items[0].quantity else 0;
      calc {
        Products.FindById(ReduceAll(rows, items), x);
        Products.FindById(ReduceAll(next, items[1..]), x);
        { ReduceAllEffect(next, items[1..], x); }
        Lowered(Products.FindById(next, x), QtyFor(items[1..], x));
        { StockReducedLowers(rows, items[0].productId, items[0].quantity, x); }
        Lowered(Lowered(Products.FindById(rows, x), c), QtyFor(items[1..], x));
        { LoweredTwice(Products.FindById(rows, x), c, QtyFor(items[1..], x)); }
        Lowered(Products.FindById(rows, x), QtyFor(items, x));
      }
    }
  }

  lemma LoweredNothing(p: Option<Products.Product>)
    ensures Lowered(p, 0) == p
  {
  }

  /** Whether one item passes its checks against the table `rows`. */
  predicate Passes(rows: seq<Products.Product>, item: Line)
  {
    Products.FindById(rows, item.productId).Some? && Products.FindById(rows, item.productId).value.stockQuantity >= item.quantity
  }

  /** When every item passes, the table has had every decrement applied, the
      priced lines follow the request one for one with the price each
      product had when the request arrived. */
  lemma {:induction false} ScanSuccess(rows: seq<Products.Product>, items: seq<Line>)
    requires ScanItems(rows, items).outcome.AllInStock?
    ensures var s := ScanItems(rows, items);
      && s.rows == ReduceAll(rows, items)
      && |s.outcome.lines| == |items|
      && (forall k :: 0 <= k < |items| ==>
            && Products.FindById(rows, items[k].productId).Some?
            && s.outcome.lines[k] == Orders.PricedLine(items[k].productId, items[k].quantity,
                                                       Products.FindById(rows, items[k].productId).value.price))
    decreases |items|
  {
    if items != [] {
      var item := items[0];
      assert items == [item] + items[1..];
      assert Passes(rows, item);
      ScanStepPass(rows, item, items[1..]);
      var p := Products.FindById(rows, item.productId).value;
      var next := Products.StockReduced(rows, item.productId, item.quantity);
      var rest := ScanItems(next, items[1..]);
      var line := Orders.PricedLine(item.productId, item.quantity, p.price);
      var s := ScanItems(rows, items);
      assert s == Resume(1, [line], rest);
      ScanSuccess(next, items[1..]);
      assert s.outcome.lines == [line] + rest.outcome.lines && s.rows == rest.rows;
      forall k | 1 <= k < |items|
        ensures Products.FindById(rows, items[k].productId).Some?
        ensures s.outcome.lines[k] == Orders.PricedLine(items[k].productId, items[k].quantity,
                                                        Products.FindById(rows, items[k].productId).value.price)
      {
        Products.FindAfterStockReduced(rows, item.productId, item.quantity, items[k].productId);
        assert items[1..][k - 1] == items[k] && s.outcome.lines[k] == rest.outcome.lines[k - 1];
      }
    }
  }

  /** The price a product has in `rows` (0 for a product that is not there). */
  function PriceOf(rows: seq<Products.Product>, productId: int): int
  {
    match Products.FindById(rows, productId)
    case None => 0
    case Some(p) => p.price
  }

  /** What the request costs at the prices of `rows`. */
  function RequestTotal(rows: seq<Products.Product>, items: seq<Line>): int
  {
    if items == [] then 0
    else LineCost(Orders.PricedLine(items[0].productId, items[0].quantity, PriceOf(rows, items[0].productId)))
         + RequestTotal(rows, items[1..])
  }

  lemma {:induction false} LinesTotal(rows: seq<Products.Product>, items: seq<Line>, lines: seq<Orders.PricedLine>)
    requires |lines| == |items|
    requires forall k :: 0 <= k < |items| ==>
      lines[k] == Orders.PricedLine(items[k].productId, items[k].quantity, PriceOf(rows, items[k].productId))
    ensures Sum(lines, LineCost) == RequestTotal(rows, items)
  {
    if items != [] {
      assert forall k :: 0 <= k < |items[1..]| ==> lines[1..][k] == lines[k + 1] && items[1..][k] == items[k + 1];
      LinesTotal(rows, items[1..], lines[1..]);
    }
  }

  /** The total of a placed order is the sum, over the request, of each
      product's price when the request arrived times the quantity asked:
      no decrement made along the way changes a price. */
  lemma PlacedTotal(rows: seq<Products.Product>, items: seq<Line>)
    requires ScanItems(rows, items).outcome.AllInStock?
    ensures Sum(ScanItems(rows, items).outcome.lines, LineCost) == RequestTotal(rows, items)
  {
    ScanSuccess(rows, items);
    LinesTotal(rows, items, ScanItems(rows, items).outcome.lines);
  }

  /** All items pass exactly when each one passes against the table as the
      earlier items left it: a repeated product is checked against its
      already-decremented stock. */
  lemma {:induction false} ScanSucceedsIff(rows: seq<Products.Product>, items: seq<Line>)
    ensures ScanItems(rows, items).outcome.AllInStock? <==> AllPass(rows, items)
    decreases |items|
  {
    if items != [] {
      var item := items[0];
      var next := Products.StockReduced(rows, item.productId, item.quantity);
      ScanSucceedsIff(next, items[1..]);
      AllPassStep(rows, items);
      assert items == [item] + items[1..];
      if Passes(rows, item) {
        ScanStepPass(rows, item, items[1..]);
      } else if Products.FindById(rows, item.productId).None? {
        ScanStepMissing(rows, item, items[1..]);
      } else {
        ScanStepShort(rows, item, items[1..]);
      }
    }
  }

  /** Every item passes against the table the earlier items left. */
  ghost predicate AllPass(rows: seq<Products.Product>, items: seq<Line>)
  {
    forall k :: 0 <= k < |items| ==> Passes(ReduceAll(rows, items[..k]), items[k])
  }

  lemma AllPassStep(rows: seq<Products.Product>, items: seq<Line>)
    requires items != []
    ensures AllPass(rows, items)
        <==> Passes(rows, items[0])
             && AllPass(Products.StockReduced(rows, items[0].productId, items[0].quantity), items[1..])
  {
    var next := Products.StockReduced(rows, items[0].productId, items[0].quantity);
    forall k | 0 < k < |items|
      ensures ReduceAll(rows, items[..k]) == ReduceAll(next, items[1..][..k - 1])
    {
      assert items[..k][1..] == items[1..][..k - 1];
    }
    assert items[..0] == [];
    if AllPass(rows, items) {
      forall k | 0 <= k < |items[1..]| ensures Passes(ReduceAll(next, items[1..][..k]), items[1..][k]) {
        assert Passes(ReduceAll(rows, items[..k + 1]), items[k + 1]);
      }
    }
    if Passes(rows, items[0]) && AllPass(next, items[1..]) {
      forall k | 0 < k < |items| ensures Passes(ReduceAll(rows, items[..k]), items[k]) {
        assert Passes(ReduceAll(next, items[1..][..k - 1]), items[1..][k - 1]);
      }
    }
  }

  /** When an item fails, it is the item at `at`: every earlier item passed
      and had its decrement applied, which stays applied, and the failing
      item's product is left as the earlier items made it. */
  lemma {:induction false} ScanFailure(rows: seq<Products.Product>, items: seq<Line>)
    requires !ScanItems(rows, items).outcome.AllInStock?
    ensures var s := ScanItems(rows, items);
      var at := s.outcome.at;
      && 0 <= at < |items|
      && ScanItems(rows, items[..at]).outcome.AllInStock?
      && s.rows == ReduceAll(rows, items[..at])
      && !Passes(s.rows, items[at])
      && (s.outcome.Missing? <==> Products.FindById(s.rows, items[at].productId).None?)
      && (s.outcome.Missing? ==> s.outcome.productId == items[at].productId)
      && (s.outcome.Short? ==> s.outcome.productName == Products.FindById(s.rows, items[at].productId).value.name)
    decreases |items|
  {
    var item := items[0];
    assert items == [item] + items[1..];
    if Passes(rows, item) {
      var next := Products.StockReduced(rows, item.productId, item.quantity);
      ScanStepPass(rows, item, items[1..]);
      ScanFailure(next, items[1..]);
      var at := ScanItems(next, items[1..]).outcome.at;
      assert items[..at + 1] == [item] + items[1..][..at];
      ScanStepPass(rows, item, items[1..][..at]);
      assert items[1..][at] == items[at + 1];
    } else {
      assert items[..0] == [];
    }
  }

  /** A failing item ends the scan: no later item plays any part in the
      result. */
  lemma {:induction false} ScanStopsAtFailure(rows: seq<Products.Product>, items: seq<Line>)
    requires !ScanItems(rows, items).outcome.AllInStock?
    ensures var s := ScanItems(rows, items);
      0 <= s.outcome.at < |items| && ScanItems(rows, items[..s.outcome.at + 1]) == s
    decreases |items|, 1
  {
    var item := items[0];
    assert items == [item] + items[1..];
    if Passes(rows, item) {
      StopsAfterPass(rows, item, items[1..]);
    } else {
      assert items[..1] == [item] + [];
      if Products.FindById(rows, item.productId).None? {
        ScanStepMissing(rows, item, items[1..]);
        ScanStepMissing(rows, item, []);
      } else {
        ScanStepShort(rows, item, items[1..]);
        ScanStepShort(rows, item, []);
      }
    }
  }

  lemma {:induction false} StopsAfterPass(rows: seq<Products.Product>, item: Line, rest: seq<Line>)
    requires Passes(rows, item) && !ScanItems(rows, [item] + rest).outcome.AllInStock?
    ensures var s := ScanItems(rows, [item] + rest);
      0 <= s.outcome.at < |rest| + 1 && ScanItems(rows, ([item] + rest)[..s.outcome.at + 1]) == s
    decreases |rest| + 1, 0
  {
    var next := Products.StockReduced(rows, item.productId, item.quantity);
    PassThenSameScan(rows, item, rest, rest);
    ScanStopsAtFailure(next, rest);
    var s := ScanItems(next, rest);
    var prefix := rest[..s.outcome.at + 1];
    assert ScanItems(next, prefix) == s;
    assert ([item] + rest)[..s.outcome.at + 2] == [item] + prefix;
    PassThenSameScan(rows, item, rest, prefix);
  }

  /** After a passing item, two continuations that scan alike keep scanning
      alike, and a failure among them moves one place later. */
  lemma PassThenSameScan(rows: seq<Products.Product>, item: Line, rest: seq<Line>, other: seq<Line>)
    requires Passes(rows, item)
    requires var next := Products.StockReduced(rows, item.productId, item.quantity);
      ScanItems(next, other) == ScanItems(next, rest)
    ensures ScanItems(rows, [item] + other) == ScanItems(rows, [item] + rest)
    ensures !ScanItems(rows, [item] + rest).outcome.AllInStock? ==>
      ScanItems(rows, [item] + rest).outcome.at
        == ScanItems(Products.StockReduced(rows, item.productId, item.quantity), rest).outcome.at + 1
  {
    ScanStepPass(rows, item, rest);
    ScanStepPass(rows, item, other);
  }

  /** No rollback: after a failed placement every product's stock is
      lowered by what the items before the failing one asked of it. */
  lemma FailedPlacementKeepsDecrements(rows: seq<Products.Product>, items: seq<Line>, x: int)
    requires !ScanItems(rows, items).outcome.AllInStock?
    ensures var s := ScanItems(rows, items);
      0 <= s.outcome.at < |items|
      && Products.FindById(s.rows, x) == Lowered(Products.FindById(rows, x), QtyFor(items[..s.outcome.at], x))
  {
    ScanFailure(rows, items);
    ReduceAllEffect(rows, items[..ScanItems(rows, items).outcome.at], x);
  }

  /** After a successful placement every product's stock is lowered by the
      total quantity the request asked of it. */
  lemma PlacedStock(rows: seq<Products.Product>, items: seq<Line>, x: int)
    requires ScanItems(rows, items).outcome.AllInStock?
    ensures Products.FindById(ScanItems(rows, items).rows, x) == Lowered(Products.FindById(rows, x), QtyFor(items, x))
  {
    ScanSuccess(rows, items);
    ReduceAllEffect(rows, items, x);
  }

  /** Stock never goes negative, whatever the quantities: an item only
      passes when the stock covers its quantity, and a negative quantity
      raises the stock. Ids must be distinct, as AUTOINCREMENT makes them. */
  lemma {:induction false} ScanKeepsStockNonNegative(rows: seq<Products.Product>, items: seq<Line>)
    requires AscendingBy(rows, Products.IdOf)
    requires forall p :: p in rows ==> p.stockQuantity >= 0
    ensures forall p :: p in ScanItems(rows, items).rows ==> p.stockQuantity >= 0
    decreases |items|
  {
    if items != [] && Passes(rows, items[0]) {
      var item := items[0];
      var next := Products.StockReduced(rows, item.productId, item.quantity);
      assert items == [item] + items[1..];
      ScanStepPass(rows, item, items[1..]);
      assert ScanItems(rows, items).rows == ScanItems(next, items[1..]).rows;
      Products.CoveredReductionKeepsStock(rows, item.productId, item.quantity);
      Products.StockReducedKeepsAscending(rows, item.productId, item.quantity);
      ScanKeepsStockNonNegative(next, items[1..]);
    } else if items != [] {
      assert ScanItems(rows, items).rows == rows;
    }
  }

  /** The same product twice: the second line is checked against the stock
      the first one left, fails, and the first decrement stays. */
  lemma RepeatedProductSeesDecrementedStock()
    ensures var rows := [Products.Product(1, "Rose", "", 500, 5, Some(1), None)];
      var s := ScanItems(rows, [Line(1, 3), Line(1, 3)]);
      s.outcome == Short(1, "Rose") && s.rows == [Products.Product(1, "Rose", "", 500, 2, Some(1), None)]
  {
    var rows := [Products.Product(1, "Rose", "", 500, 5, Some(1), None)];
    var items := [Line(1, 3), Line(1, 3)];
    var next := Products.StockReduced(rows, 1, 3);
    assert next == [Products.Product(1, "Rose", "", 500, 2, Some(1), None)];
    assert items[1..] == [Line(1, 3)];
    assert ScanItems(next, items[1..]) == Scan(Short(0, "Rose"), next);
  }

  /** Nothing rejects a negative quantity: it passes the stock check,
      raises the stock and lowers the total. */
  lemma NegativeQuantityRaisesStock()
    ensures var rows := [Products.Product(1, "Rose", "", 500, 5, Some(1), None)];
      var s := ScanItems(rows, [Line(1, -2)]);
      s.outcome == AllInStock([Orders.PricedLine(1, -2, 500)])
      && Sum(s.outcome.lines, LineCost) == -1000
      && s.rows == [Products.Product(1, "Rose", "", 500, 7, Some(1), None)]
  {
    var rows := [Products.Product(1, "Rose", "", 500, 5, Some(1), None)];
    var next := Products.StockReduced(rows, 1, -2);
    assert next == [Products.Product(1, "Rose", "", 500, 7, Some(1), None)];
    assert [Line(1, -2)][1..] == [];
  }

  /** `create`. The session user, request body and both tables are the
      handler's inputs; the response is its result. */
  method Create(user: Option<SessionUser>, req: OrderRequest, products: Products.ProductTable, orders: Orders.OrderTable)
    returns (r: Response<OrderWithItems, OrderError>)
    requires products.Valid() && orders.Valid()
    modifies products, orders
    ensures products.Valid() && orders.Valid() && products.nextId == old(products.nextId)
    ensures Precheck(user, req).Some? ==>
      r == Failure(Precheck(user, req).value) && products.rows == old(products.rows) && unchanged(orders)
    ensures Precheck(user, req).None? ==>
      var s := ScanItems(old(products.rows), req.items.value);
      && products.rows == s.rows
      && (s.outcome.Missing? ==> r == Failure(ProductNotFound(s.outcome.productId)) && unchanged(orders))
      && (s.outcome.Short? ==> r == Failure(NotEnoughStock(s.outcome.productName)) && unchanged(orders))
      && (s.outcome.AllInStock? ==>
            var order := Orders.Order(old(orders.nextOrderId), user.value.id, Sum(s.outcome.lines, LineCost),
                                      req.customerName, req.address, req.phoneNumber, Orders.Pending);
            var rows := Orders.ItemRows(old(orders.nextItemId), order.id, s.outcome.lines);
            && orders.orders == old(orders.orders) + [order]
            && orders.items == old(orders.items) + rows
            && r == Success(201, OrderWithItems(order, rows)))
  {
    var failed := Precheck(user, req);
    if failed.Some? {
      return Failure(failed.value);
    }
    var outcome, total := PlaceItems(req.items.value, products);
    match outcome
    case Missing(_, productId) =>
      r := Failure(ProductNotFound(productId));
    case Short(_, productName) =>
      r := Failure(NotEnoughStock(productName));
    case AllInStock(lines) =>
      var orderId := orders.Create(user.value.id, total, req.customerName, req.address, req.phoneNumber, lines);
      var order := Orders.Order(orderId, user.value.id, total, req.customerName, req.address, req.phoneNumber, Orders.Pending);
      r := Success(201, OrderWithItems(order, Orders.GetOrderItems(orders.items, orderId)));
  }

  /** The item loop of `create`: each item is looked up in the table as it
      stands, checked against the current stock, priced and decremented at
      once; the loop returns at the first item that fails, leaving earlier
      decrements in place. `total` is the running sum of price times
      quantity. */
  method PlaceItems(items: seq<Line>, products: Products.ProductTable) returns (outcome: Outcome, total: int)
    requires products.Valid()
    modifies products
    ensures products.Valid() && products.nextId == old(products.nextId)
    ensures Scan(outcome, products.rows) == ScanItems(old(products.rows), items)
    ensures outcome.AllInStock? ==> total == Sum(outcome.lines, LineCost)
  {
    total := 0;
    var processed: seq<Orders.PricedLine> := [];
    ghost var rows0 := products.rows;
    assert items[0..] == items;
    ResumeNothing(ScanItems(rows0, items));
    var i := 0;
    while i < |items|
      invariant 0 <= i <= |items|
      invariant products.Valid() && products.nextId == old(products.nextId)
      invariant LoopInvariant(rows0, items, i, processed, products.rows)
      invariant total == Sum(processed, LineCost)
    {
      var item := items[i];
      assert items[i..] == [item] + items[i + 1..];
      ghost var before := products.rows;
      var found := Products.FindById(products.rows, item.productId);
      if found.None? {
        ScanStepMissing(before, item, items[i + 1..]);
        assert ScanItems(before, items[i..]) == Scan(Missing(0, item.productId), before);
        return Missing(i, item.productId), total;
      }
      var product := found.value;
      if product.stockQuantity < item.quantity {
        ScanStepShort(before, item, items[i + 1..]);
        assert ScanItems(before, items[i..]) == Scan(Short(0, product.name), before);
        return Short(i, product.name), total;
      }
      var line := Orders.PricedLine(item.productId, item.quantity, product.price);
      SumConcat(processed, [line], LineCost);
      total := total + LineCost(line);
      products.UpdateStock(item.productId, item.quantity);
      LoopStep(rows0, items, i, processed, before, item, product, products.rows);
      processed := processed + [line];
      i := i + 1;
    }
    assert items[i..] == [];
    assert ScanItems(products.rows, items[i..]) == Scan(AllInStock([]), products.rows);
    assert processed + [] == processed;
    outcome := AllInStock(processed);
  }

  /** The invariant of the item loop: after `i` items, with the lines
      `processed` so far and the table at `rows`, scanning the remaining
      items completes the scan of the whole request. */
  predicate LoopInvariant(rows0: seq<Products.Product>, items: seq<Line>, i: int,
                          processed: seq<Orders.PricedLine>, rows: seq<Products.Product>)
  {
    0 <= i <= |items| && Resume(i, processed, ScanItems(rows, items[i..])) == ScanItems(rows0, items)
  }

  /** One passing turn of the item loop keeps its invariant. */
  lemma LoopStep(rows0: seq<Products.Product>, items: seq<Line>, i: int, processed: seq<Orders.PricedLine>,
                 before: seq<Products.Product>, item: Line, p: Products.Product, after: seq<Products.Product>)
    requires 0 <= i < |items| && item == items[i] && LoopInvariant(rows0, items, i, processed, before)
    requires Products.FindById(before, item.productId) == Some(p) && p.stockQuantity >= item.quantity
    requires after == Products.StockReduced(before, item.productId, item.quantity)
    ensures LoopInvariant(rows0, items, i + 1,
                          processed + [Orders.PricedLine(item.productId, item.quantity, p.price)], after)
  {
    assert items[i..] == [item] + items[i + 1..];
    ScanStepPass(before, item, items[i + 1..]);
    ResumeResume(i, processed, Orders.PricedLine(item.productId, item.quantity, p.price),
                 ScanItems(after, items[i + 1..]));
  }

  lemma ResumeNothing(s: Scan)
    ensures Resume(0, [], s) == s
  {
    if s.outcome.AllInStock? {
      assert [] + s.outcome.lines == s.outcome.lines;
    }
  }

  lemma ScanStepMissing(rows: seq<Products.Product>, item: Line, rest: seq<Line>)
    requires Products.FindById(rows, item.productId).None?
    ensures ScanItems(rows, [item] + rest) == Scan(Missing(0, item.productId), rows)
  {
  }

  lemma ScanStepShort(rows: seq<Products.Product>, item: Line, rest: seq<Line>)
    requires Products.FindById(rows, item.productId).Some?
    requires Products.FindById(rows, item.productId).value.stockQuantity < item.quantity
    ensures ScanItems(rows, [item] + rest) == Scan(Short(0, Products.FindById(rows, item.productId).value.name), rows)
  {
  }

  lemma ScanStepPass(rows: seq<Products.Product>, item: Line, rest: seq<Line>)
    requires Passes(rows, item)
    ensures var p := Products.FindById(rows, item.productId).value;
      ScanItems(rows, [item] + rest)
        == Resume(1, [Orders.PricedLine(item.productId, item.quantity, p.price)],
                  ScanItems(Products.StockReduced(rows, item.productId, item.quantity), rest))
  {
    assert ([item] + rest)[1..] == rest;
  }

  /** `getById`: 404 for an unknown order, 403 unless the caller owns the
      order or is an admin, otherwise the order with its items. */
  function GetById(user: Option<SessionUser>, orders: seq<Orders.Order>, items: seq<Orders.OrderItem>, id: int)
    : (r: Response<OrderWithItems, OrderError>)
    ensures r == Failure(OrderNotFound) <==> Orders.FindById(orders, id).None?
    ensures r == Failure(AccessDenied) <==>
      (Orders.FindById(orders, id).Some?
       && !(user.Some? && (user.value.id == Orders.FindById(orders, id).value.userId || user.value.isAdmin)))
    ensures r.Success? ==>
      && user.Some? && (user.value.id == r.body.order.userId || user.value.isAdmin)
      && Orders.FindById(orders, id) == Some(r.body.order)
      && r.code == 200 && r.body.items == Orders.GetOrderItems(items, id)
  {
    match Orders.FindById(orders, id)
    case None => Failure(OrderNotFound)
    case Some(o) =>
      if !(user.Some? && (user.value.id == o.userId || user.value.isAdmin)) then Failure(AccessDenied)
      else Success(200, OrderWithItems(o, Orders.GetOrderItems(items, id)))
  }

  /** The owner of an order may always view it, and so may any admin. */
  lemma OwnerOrAdminMayView(user: SessionUser, orders: seq<Orders.Order>, items: seq<Orders.OrderItem>, id: int)
    requires Orders.FindById(orders, id).Some?
    requires user.id == Orders.FindById(orders, id).value.userId || user.isAdmin
    ensures GetById(Some(user), orders, items, id).Success?
  {
  }

  /** Each order paired with its item rows. */
  function WithItems(os: seq<Orders.Order>, items: seq<Orders.OrderItem>): (r: seq<OrderWithItems>)
    ensures |r| == |os|
    ensures forall k :: 0 <= k < |os| ==> r[k] == OrderWithItems(os[k], Orders.GetOrderItems(items, os[k].id))
  {
    seq(|os|, k requires 0 <= k < |os| => OrderWithItems(os[k], Orders.GetOrderItems(items, os[k].id)))
  }

  /** `getByUserId`: 401 without a session user, otherwise that user's
      orders, each once and strictly newest first, each with its items. */
  function GetByUserId(user: Option<SessionUser>, orders: seq<Orders.Order>, items: seq<Orders.OrderItem>)
    : (r: Response<seq<OrderWithItems>, OrderError>)
    requires AscendingBy(orders, Orders.OrderIdOf)
    ensures r.Failure? <==> user.None?
    ensures r.Failure? ==> r.error == NotLoggedIn
    ensures r.Success? ==>
      && (forall k :: 0 <= k < |r.body| ==> r.body[k].order in orders && r.body[k].order.userId == user.value.id)
      && (forall o :: o in orders && o.userId == user.value.id ==> exists k :: 0 <= k < |r.body| && r.body[k].order == o)
      && (forall k :: 0 <= k < |r.body| ==> r.body[k].items == Orders.GetOrderItems(items, r.body[k].order.id))
      && DescendingBy(r.body, OrderIdOfEntry)
  {
    if user.None? then Failure(NotLoggedIn)
    else
      var mine := Orders.GetByUserId(orders, user.value.id);
      WithItemsOrders(mine, items);
      var r := WithItems(mine, items);
      assert forall k :: 0 <= k < |r| ==> OrderIdOfEntry(r[k]) == Orders.OrderIdOf(mine[k]);
      Success(200, r)
  }

  function OrderIdOfEntry(e: OrderWithItems): int { e.order.id }

  /** The orders of `WithItems(os, items)` are exactly those of `os`. */
  lemma WithItemsOrders(os: seq<Orders.Order>, items: seq<Orders.OrderItem>)
    ensures forall k :: 0 <= k < |WithItems(os, items)| ==> WithItems(os, items)[k].order in os
    ensures forall o :: o in os ==> exists k :: 0 <= k < |WithItems(os, items)| && WithItems(os, items)[k].order == o
  {
    var r := WithItems(os, items);
    forall o | o in os ensures exists k :: 0 <= k < |r| && r[k].order == o {
      var k :| 0 <= k < |os| && os[k] == o;
      assert r[k].order == o;
    }
  }

  /** `getAll` (admins only, by its route): every order, newest first, each
      with its items. */
  function GetAll(orders: seq<Orders.Order>, items: seq<Orders.OrderItem>): (r: seq<OrderWithItems>)
    requires AscendingBy(orders, Orders.OrderIdOf)
    ensures |r| == |orders|
    ensures forall k :: 0 <= k < |r| ==> r[k].order == orders[|orders| - 1 - k]
    ensures forall k :: 0 <= k < |r| ==> r[k].items == Orders.GetOrderItems(items, r[k].order.id)
  {
    WithItems(Reverse(orders), items)
  }

  /** `updateStatus`: 400 for an empty status, 404 for an unknown order,
      500 with the model's message for a status outside the four, and
      otherwise the order with its new status. */
  method UpdateStatus(orders: Orders.OrderTable, id: int, status: string) returns (r: Response<Orders.Order, OrderError>)
    requires orders.Valid()
    modifies orders
    ensures orders.Valid()
    ensures status == "" ==> r == Failure(StatusRequired) && unchanged(orders)
    ensures status != "" && Orders.FindById(old(orders.orders), id).None? ==> r == Failure(OrderNotFound) && unchanged(orders)
    ensures status != "" && Orders.FindById(old(orders.orders), id).Some? && status !in Orders.ValidStatuses ==>
      r == Failure(InvalidOrderStatus) && orders.orders == old(orders.orders)
    ensures r.Success? <==> Orders.FindById(old(orders.orders), id).Some? && status in Orders.ValidStatuses
    ensures r.Success? ==>
      && r.code == 200
      && r.body == Orders.FindById(old(orders.orders), id).value.(status := Orders.ParseStatus(status).value)
      && orders.orders == Orders.WithStatus(old(orders.orders), id, Orders.ParseStatus(status).value)
    ensures orders.items == old(orders.items)
  {
    if status == "" {
      return Failure(StatusRequired);
    }
    if Orders.FindById(orders.orders, id).None? {
      return Failure(OrderNotFound);
    }
    ghost var before := orders.orders;
    var ok := orders.UpdateStatus(id, status);
    if !ok {
      return Failure(InvalidOrderStatus);
    }
    Orders.FindAfterStatusChange(before, id, Orders.ParseStatus(status).value, id);
    var updated := Orders.FindById(orders.orders, id);
    r := Success(200, updated.value);
  }
}

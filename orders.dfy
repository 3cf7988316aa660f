/** The `orders` and `order_items` tables and the Order model. An order's
    items carry the unit price captured when the order was placed. */
module Orders {
  import opened Common

  /** The four statuses `updateStatus` accepts. */
  datatype Status = Pending | Processing | Completed | Cancelled

  function StatusName(s: Status): string
  {
    match s
    case Pending => "Pending"
    case Processing => "Processing"
    case Completed => "Completed"
    case Cancelled => "Cancelled"
  }

  const ValidStatuses: seq<string> := ["Pending", "Processing", "Completed", "Cancelled"]

  /** `validStatuses.includes(status)`, returning the status it names. */
  function ParseStatus(s: string): (r: Option<Status>)
    ensures r.Some? <==> s in ValidStatuses
    ensures r.Some? ==> StatusName(r.value) == s
  {
    if s == "Pending" then Some(Pending)
    else if s == "Processing" then Some(Processing)
    else if s == "Completed" then Some(Completed)
    else if s == "Cancelled" then Some(Cancelled)
    else None
  }

  /** Every status is accepted under its own name. */
  lemma ParseStatusName(s: Status)
    ensures ParseStatus(StatusName(s)) == Some(s)
  {
  }

  /** A row of `orders`; `totalPrice` in cents. */
  datatype Order = Order(
    id: int,
    userId: int,
    totalPrice: int,
    customerName: string,
    address: string,
    phoneNumber: string,
    status: Status)

  /** A row of `order_items`; `price` is the unit price at order time. */
  datatype OrderItem = OrderItem(id: int, orderId: int, productId: int, quantity: int, price: int)

  /** An entry of the list `Order.create` receives: product, quantity and
      the unit price read when the order was placed. */
  datatype PricedLine = PricedLine(productId: int, quantity: int, price: int)

  function OrderIdOf(o: Order): int { o.id }

  function ItemIdOf(i: OrderItem): int { i.id }

  /** The item rows `Order.create` inserts for `lines`, in input order, with
      consecutive ids from `firstId`. */
  function ItemRows(firstId: int, orderId: int, lines: seq<PricedLine>): (r: seq<OrderItem>)
    ensures |r| == |lines|
    ensures forall k :: 0 <= k < |lines| ==>
      r[k] == OrderItem(firstId + k, orderId, lines[k].productId, lines[k].quantity, lines[k].price)
  {
    seq(|lines|, k requires 0 <= k < |lines| =>
      OrderItem(firstId + k, orderId, lines[k].productId, lines[k].quantity, lines[k].price))
  }

  /** Both tables' ids as AUTOINCREMENT hands them out, and every item
      pointing at an order id already handed out. */
  ghost predicate WellFormed(orders: seq<Order>, items: seq<OrderItem>, nextOrderId: int, nextItemId: int)
  {
    && 0 < nextOrderId && 0 < nextItemId
    && AscendingBy(orders, OrderIdOf) && (forall o :: o in orders ==> 0 < o.id < nextOrderId)
    && AscendingBy(items, ItemIdOf) && (forall i :: i in items ==> 0 < i.id < nextItemId)
    && (forall i :: i in items ==> i.orderId < nextOrderId)
  }

  /** `findById`. */
  function FindById(orders: seq<Order>, id: int): (r: Option<Order>)
    ensures r.Some? ==> r.value in orders && r.value.id == id
    ensures r.None? <==> forall o :: o in orders ==> o.id != id
  {
    if orders == [] then None
    else if orders[0].id == id then Some(orders[0])
    else FindById(orders[1..], id)
  }

  /** `getByUserId`: exactly the orders of that user, newest first. */
  function GetByUserId(orders: seq<Order>, userId: int): (r: seq<Order>)
    requires AscendingBy(orders, OrderIdOf)
    ensures forall o :: o in r ==> o in orders && o.userId == userId
    ensures forall o :: o in orders && o.userId == userId ==> o in r
    ensures DescendingBy(r, OrderIdOf)
  {
    var mine := Filter(orders, (o: Order) => o.userId == userId);
    FilterKeepsAscending(orders, (o: Order) => o.userId == userId, OrderIdOf);
    ReverseOfAscending(mine, OrderIdOf);
    ReverseMembers(mine);
    Reverse(mine)
  }

  /** `getAll`: every order, newest first (the joined user name and email
      are not modelled). */
  function GetAll(orders: seq<Order>): (r: seq<Order>)
    requires AscendingBy(orders, OrderIdOf)
    ensures |r| == |orders| && forall o :: o in r <==> o in orders
    ensures DescendingBy(r, OrderIdOf)
  {
    ReverseOfAscending(orders, OrderIdOf);
    ReverseMembers(orders);
    Reverse(orders)
  }

  /** `getOrderItems`: the item rows of one order, in insertion order. */
  function GetOrderItems(items: seq<OrderItem>, orderId: int): (r: seq<OrderItem>)
    ensures forall i :: i in r ==> i in items && i.orderId == orderId
    ensures forall i :: i in items && i.orderId == orderId ==> i in r
    ensures IsSubsequence(r, items)
  {
    Filter(items, (i: OrderItem) => i.orderId == orderId)
  }

  /** `getRecentOrders(limit)`: at most `limit` orders, the newest ones. */
  function GetRecentOrders(orders: seq<Order>, limit: int): (r: seq<Order>)
    requires AscendingBy(orders, OrderIdOf)
    ensures |r| == if 0 <= limit < |orders| then limit else |orders|
    ensures forall i :: 0 <= i < |r| ==> r[i] == orders[|orders| - 1 - i]
    ensures DescendingBy(r, OrderIdOf)
  {
    ReverseOfAscending(orders, OrderIdOf);
    Limit(Reverse(orders), limit)
  }

  /** The statuses whose orders count towards revenue. */
  predicate CountsAsRevenue(o: Order)
  {
    o.status == Completed || o.status == Processing
  }

  function TotalOf(o: Order): int { o.totalPrice }

  /** What one order adds to the revenue. */
  function Contribution(o: Order): int
  {
    if CountsAsRevenue(o) then o.totalPrice else 0
  }

  /** `getTotalRevenue`: `SUM(total_price)` over Completed and Processing
      orders, with the empty sum (SQL NULL) reported as 0. */
  function TotalRevenue(orders: seq<Order>): (r: int)
    ensures (forall o :: o in orders ==> !CountsAsRevenue(o)) ==> r == 0
  {
    if orders == [] then 0
    else Contribution(orders[0]) + TotalRevenue(orders[1..])
  }

  /** Revenue is the plain sum of the totals of the counted orders. */
  lemma {:induction false} RevenueIsSumOfCounted(orders: seq<Order>)
    ensures TotalRevenue(orders) == Sum(Filter(orders, CountsAsRevenue), TotalOf)
  {
    if orders != [] {
      RevenueIsSumOfCounted(orders[1..]);
    }
  }

  /** `UPDATE orders SET status = ? WHERE id = ?`. */
  function WithStatus(orders: seq<Order>, id: int, s: Status): (r: seq<Order>)
    ensures |r| == |orders|
    ensures forall k :: 0 <= k < |orders| ==> r[k] == if orders[k].id == id then orders[k].(status := s) else orders[k]
  {
    if orders == [] then []
    else [if orders[0].id == id then orders[0].(status := s) else orders[0]] + WithStatus(orders[1..], id, s)
  }

  /** A status change moves revenue by exactly the changed order's
      contribution: it leaves when the order stops counting and arrives
      when it starts. */
  lemma {:induction false} RevenueAfterStatusChange(orders: seq<Order>, id: int, s: Status)
    requires AscendingBy(orders, OrderIdOf)
    requires FindById(orders, id).Some?
    ensures TotalRevenue(WithStatus(orders, id, s))
         == TotalRevenue(orders) - Contribution(FindById(orders, id).value)
            + Contribution(FindById(orders, id).value.(status := s))
  {
    if orders[0].id == id {
      forall k | 0 <= k < |orders[1..]| ensures orders[1..][k].id != id {
        assert OrderIdOf(orders[0]) < OrderIdOf(orders[k + 1]);
      }
      RevenueWhenFirst(orders, id, s);
    } else {
      assert AscendingBy(orders[1..], OrderIdOf);
      RevenueAfterStatusChange(orders[1..], id, s);
      RevenueWhenLater(orders, id, s);
    }
  }

  lemma RevenueWhenFirst(orders: seq<Order>, id: int, s: Status)
    requires orders != [] && orders[0].id == id
    requires forall k :: 0 <= k < |orders[1..]| ==> orders[1..][k].id != id
    ensures TotalRevenue(WithStatus(orders, id, s))
         == TotalRevenue(orders) - Contribution(orders[0]) + Contribution(orders[0].(status := s))
  {
    var r := WithStatus(orders, id, s);
    assert r[1..] == WithStatus(orders[1..], id, s);
    UnchangedWhenAbsent(orders[1..], id, s);
  }

  lemma RevenueWhenLater(orders: seq<Order>, id: int, s: Status)
    requires orders != [] && orders[0].id != id
    ensures TotalRevenue(WithStatus(orders, id, s))
         == Contribution(orders[0]) + TotalRevenue(WithStatus(orders[1..], id, s))
  {
    var r := WithStatus(orders, id, s);
    assert r[1..] == WithStatus(orders[1..], id, s);
  }

  lemma {:induction false} UnchangedWhenAbsent(orders: seq<Order>, id: int, s: Status)
    requires forall k :: 0 <= k < |orders| ==> orders[k].id != id
    ensures WithStatus(orders, id, s) == orders
  {
    if orders != [] {
      UnchangedWhenAbsent(orders[1..], id, s);
    }
  }

  /** A lookup after a status change sees the new status on that order and
      the old row for every other id. */
  lemma {:induction false} FindAfterStatusChange(orders: seq<Order>, id: int, s: Status, x: int)
    ensures FindById(WithStatus(orders, id, s), x)
         == if x == id && FindById(orders, x).Some? then Some(FindById(orders, x).value.(status := s)) else FindById(orders, x)
  {
    if orders != [] {
      var r := WithStatus(orders, id, s);
      assert r[1..] == WithStatus(orders[1..], id, s);
      FindAfterStatusChange(orders[1..], id, s, x);
    }
  }

  class OrderTable {
    var orders: seq<Order>
    var items: seq<OrderItem>
    var nextOrderId: int
    var nextItemId: int

    ghost predicate Valid()
      reads this
    {
      WellFormed(orders, items, nextOrderId, nextItemId)
    }

    constructor ()
      ensures Valid() && orders == [] && items == []
    {
      orders, items := [], [];
      nextOrderId, nextItemId := 1, 1;
    }

    /** `Order.create`: one Pending order row with the given total, then one
        item row per line in input order, each carrying the new order's id
        and the line's captured price. Earlier rows are untouched. */
    method Create(userId: int, totalPrice: int, customerName: string, address: string, phoneNumber: string,
                  lines: seq<PricedLine>) returns (orderId: int)
      requires Valid()
      modifies this
      ensures Valid()
      ensures orderId == old(nextOrderId) && nextOrderId == orderId + 1
      ensures forall o :: o in old(orders) ==> o.id < orderId
      ensures orders == old(orders) + [Order(orderId, userId, totalPrice, customerName, address, phoneNumber, Pending)]
      ensures items == old(items) + ItemRows(old(nextItemId), orderId, lines)
      ensures nextItemId == old(nextItemId) + |lines|
      ensures GetOrderItems(items, orderId) == ItemRows(old(nextItemId), orderId, lines)
    {
      orderId := nextOrderId;
      AppendKeepsAscending(orders, Order(orderId, userId, totalPrice, customerName, address, phoneNumber, Pending), OrderIdOf);
      orders := orders + [Order(orderId, userId, totalPrice, customerName, address, phoneNumber, Pending)];
      nextOrderId := nextOrderId + 1;
      ghost var firstItemId := nextItemId;
      var i := 0;
      while i < |lines|
        invariant 0 <= i <= |lines|
        invariant orders == old(orders) + [Order(orderId, userId, totalPrice, customerName, address, phoneNumber, Pending)]
        invariant nextOrderId == orderId + 1
        invariant nextItemId == firstItemId + i
        invariant items == old(items) + ItemRows(firstItemId, orderId, lines[..i])
        invariant Valid()
      {
        var row := OrderItem(nextItemId, orderId, lines[i].productId, lines[i].quantity, lines[i].price);
        assert ItemRows(firstItemId, orderId, lines[..i + 1]) == ItemRows(firstItemId, orderId, lines[..i]) + [row];
        AppendKeepsAscending(items, row, ItemIdOf);
        items := items + [row];
        nextItemId := nextItemId + 1;
        i := i + 1;
      }
      assert lines[..i] == lines;
      NewOrderItems(old(items), ItemRows(firstItemId, orderId, lines), orderId);
    }

    /** `Order.updateStatus`: an unknown status throws and changes nothing;
        a known one overwrites that order's status, whatever it was. */
    method UpdateStatus(id: int, status: string) returns (ok: bool)
      requires Valid()
      modifies this
      ensures Valid()
      ensures ok <==> status in ValidStatuses
      ensures ok ==> orders == WithStatus(old(orders), id, ParseStatus(status).value)
      ensures !ok ==> orders == old(orders)
      ensures items == old(items) && nextOrderId == old(nextOrderId) && nextItemId == old(nextItemId)
    {
      var parsed := ParseStatus(status);
      if parsed.None? {
        return false;
      }
      var updated := WithStatus(orders, id, parsed.value);
      assert forall k :: 0 <= k < |updated| ==> updated[k].id == orders[k].id;
      forall o | o in updated ensures 0 < o.id < nextOrderId {
        var k :| 0 <= k < |updated| && updated[k] == o;
        assert orders[k] in orders;
      }
      orders := updated;
      ok := true;
    }
  }

  /** The items of a freshly created order are exactly the rows inserted for
      it, because no earlier item can point at an id not yet handed out. */
  lemma NewOrderItems(before: seq<OrderItem>, added: seq<OrderItem>, orderId: int)
    requires forall i :: i in before ==> i.orderId < orderId
    requires forall i :: i in added ==> i.orderId == orderId
    ensures GetOrderItems(before + added, orderId) == added
  {
    var keep := (i: OrderItem) => i.orderId == orderId;
    FilterConcat(before, added, keep);
    FilterNone(before, keep);
    FilterAll(added, keep);
  }
}

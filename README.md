# Online florist storefront — a Dafny model

This project models the business core of a small online flower shop: an
Express server over SQLite (products, categories, users, orders and their
items), plus the browser code that keeps a shopping cart in `localStorage`
and posts orders.

The model covers:

* **Tables.** Each table is a class holding its rows in insertion order and
  the AUTOINCREMENT counter. Its `Valid()` invariant says that ids are
  positive, strictly increasing and below the counter, and that the columns
  the DDL declares UNIQUE really are unique.
* **Model queries.** `findById`, `getAll`, `search` and the rest are
  functions over rows:
  * `ORDER BY created_at DESC` is modelled as the reverse of insertion
    order. `created_at` defaults to `CURRENT_TIMESTAMP`, which has
    one-second resolution. SQLite fixes no order among rows of the same
    second; the model orders them by id;
  * `LIMIT` is a prefix, and a negative limit means no limit;
  * `LIKE '%k%'` is SQLite's pattern match (`Text.Like`): `%` and `_` in
    the keyword act as wildcards. For a keyword without them it is
    containment ignoring ASCII case (`Text.LikeContainsIff`);
  * `ORDER BY name` is an insertion sort under code-point order.
* **Model updates.** `create`, `update`, `delete`, `updateStock` and
  `updateStatus` are methods that keep the table invariant. Each is proved
  against a function of the old rows.
* **Controllers.** Each controller's validation chain is a function whose
  contract gives the order of the checks. Its handler method either answers
  with an error and changes nothing, or makes the one table change the chain
  allows.
* **Order placement.** This is the sequential heart of the system.
  * The item loop of `OrderController.create` is a `while` loop.
  * It is proved against `ScanItems`, a recursive function that checks each
    item against the product table as the earlier items left it. It then
    decrements that product's stock at once, and stops at the first missing
    product or short stock.
  * Lemmas about `ScanItems` give the no-rollback rule, the effect on every
    product's stock, the order total at the prices found on arrival, and
    stock non-negativity.
* **Browser cart.** The cart is a stored sequence of lines.
  * Adding merges by product id.
  * Setting a quantity below 1 removes the line, and removal is a splice.
  * Checkout trims the fields and projects the cart to `(productId,
    quantity)` pairs, and the cart is cleared only after a success.
  * The shop page filters with a case-insensitive substring test, which
    agrees with the server's search only for keywords without wildcards.

Representation choices:

* Prices and totals are integer cents.
* A request body's missing text field is the empty string, which JavaScript
  also treats as falsy.
* A missing numeric field is `None`, and `Truthy` is JavaScript truthiness
  for numbers. The product endpoints are modelled with a JSON body, whose
  numbers arrive as numbers (see "Left out" for the admin form's strings).
* Each request runs as one atomic step.

## Where the model follows the code rather than the specification

* **Unknown status.** `updateStatus` with a non-empty status outside the four
  throws inside `Order.updateStatus`. The handler's `catch` then answers 500,
  not 400: `InvalidOrderStatus` maps to 500.
* **Stock stays non-negative without the positive-quantity assumption.**
  `ScanKeepsStockNonNegative` proves this for every quantity, as long as ids
  are distinct, which AUTOINCREMENT guarantees. An item passes only when
  `stock >= quantity`, so the decrement cannot go below zero. A negative
  quantity always passes and raises the stock.
  `NegativeQuantityRaisesStock` shows this on a concrete table, and the
  order total goes negative with it.
* **Trimming.** The server never trims the delivery fields; only the
  checkout page does. A whitespace-only name is refused by the browser
  (`Checkout.Submit`) but would pass the server's `Precheck`.
* **No duplicate-name check on category update.** `CategoryController.update`
  does not look for a duplicate name. The UNIQUE constraint makes the
  statement fail, and the handler answers 500 (`UpdateFailed`).

## Model

| member | source | states |
|---|---|---|
| Auth.RequireLogin | src/middleware/auth.js:3-8 | rejects exactly when there is no session user, with 401; otherwise passes on |
| Auth.RequireAdmin | src/middleware/auth.js:10-15 | rejects exactly when there is no session user or the user is not an admin, with 403 |
| Auth.AdminPassesLogin | src/middleware/auth.js:3-15 | whatever the admin guard lets through also passes the login guard |
| Auth.CheckAuth | src/middleware/auth.js:17-23 | always passes on; `res.locals.user` becomes the session user if there is one and otherwise keeps its value |
| Auth.Admit | src/routes/orders.js:7-13 | an open route passes everything; a login route behaves as `requireLogin` and an admin route as `requireAdmin` |
| Auth.AdminOnlyProductRoutes | src/routes/products.js:20-22 | creating, updating and deleting a product admit exactly admins; a refusal is 403 |
| Auth.AdminOnlyCategoryRoutes | src/routes/categories.js:8-10 | creating, updating and deleting a category admit exactly admins; a refusal is 403 |
| Auth.AdminOnlyOrderRoutes | src/routes/orders.js:12-13 | the list of all orders and status updates admit exactly admins; a refusal is 403 |
| Auth.AdminOnlyDashboard | src/routes/admin.js:6 | the dashboard admits exactly admins; a refusal is 403 |
| Auth.LoginOnlyEndpoints | src/routes/orders.js:7-9 | placing, listing one's own and viewing orders admit exactly signed-in users; a refusal is 401 |
| Auth.OpenEndpoints | src/routes/categories.js:6-7 | listing, searching and showing products and categories need no session |
| Products.FindById | src/models/Product.js:13-24 | the row with that id if there is one; None exactly when no row has that id |
| Products.FindAfterUpdate | src/models/Product.js:61-71 | after an update the updated id shows the change and every other id the old row |
| Products.Updated | src/models/Product.js:61-71 | the updated row keeps its id, takes every submitted column, and takes the image only when the new path is non-empty |
| Products.UpdateKeepsWellFormed | src/models/Product.js:61-71 | an update that keeps ids keeps the table invariant |
| Products.StockReducedIsUpdate | src/models/Product.js:77-82 | the stock decrement is the update that lowers only the stock field |
| Products.FindAfterStockReduced | src/models/Product.js:77-82 | `updateStock(id, q)` leaves the product's existence, every other product and every other field unchanged, and sets the stock to old stock − q with no lower bound |
| Products.StockReducedKeepsAscending | src/models/Product.js:77-82 | a stock decrement keeps ids in ascending order |
| Products.FindByIdUnique | src/models/Product.js:13-19 | with distinct ids, looking up a row's id finds that very row |
| Products.CoveredReductionKeepsStock | src/models/Product.js:77-82 | with distinct ids and non-negative stock, a decrement the product's stock covers leaves every stock non-negative |
| Products.Without | src/models/Product.js:73-75 | `delete` keeps exactly the rows with a different id |
| Products.FindAfterDelete | src/models/Product.js:73-75 | after `delete(id)` that id is gone and every other lookup is unchanged |
| Products.GetAll | src/models/Product.js:26-39 | with a truthy category id exactly the products of that category, otherwise all products, newest first |
| Products.GetFeatured | src/models/Product.js:41-49 | at most `limit` products (all of them for a negative limit), the newest ones, newest first |
| Products.Search | src/models/Product.js:51-59 | each product whose name or description is LIKE `%keyword%` exactly once (as a multiset of the matching rows), sorted by name |
| Products.SearchLiteralKeyword | src/models/Product.js:51-59 | for a keyword without wildcards, the search keeps exactly the products whose name or description contains it, ignoring ASCII case |
| Products.ProductTable.Create | src/models/Product.js:4-11 | appends one row with exactly the given fields and the next id; `findById` of that id returns it and nothing else changes |
| Products.ProductTable.Update | src/models/Product.js:61-71 | overwrites name, description, price, stock and category of that id, and the image only for a non-empty path |
| Products.ProductTable.Delete | src/models/Product.js:73-75 | the rows become `Without(rows, id)` and the invariant holds |
| Products.ProductTable.UpdateStock | src/models/Product.js:77-82 | the rows become `StockReduced(rows, id, q)` and the invariant holds |
| Products.StockReduced | src/models/Product.js:77-82 | `UPDATE ... SET stock_quantity = stock_quantity - ? WHERE id = ?` keeps the number of rows |
| Products.StockReducedAt | src/models/Product.js:77-82 | row by row, only rows with that id lose `q` units of stock, and nothing else about any row changes |
| Products.FindAfterAppend | src/models/Product.js:4-11 | a row with a new id becomes findable and no other lookup changes |
| Categories.FindById | src/models/Category.js:12-14 | the row with that id; None exactly when no row has it |
| Categories.FindByName | src/models/Category.js:16-18 | a row only on exact name equality; None exactly when no row has that name |
| Categories.GetAll | src/models/Category.js:20-22 | all categories and only them (as a multiset), sorted by name |
| Categories.Overwritten | src/models/Category.js:24-29 | the update changes only the rows with that id, to the new name and description |
| Categories.OverwriteKeepsWellFormed | src/utils/database.js:46-54 | an update the UNIQUE constraint accepts keeps ids and unique names |
| Categories.OverwriteKeepsNamesUnique | src/utils/database.js:46-54 | with no conflict the renamed table still has unique names |
| Categories.Without | src/models/Category.js:31-33 | `delete` keeps exactly the rows with a different id, in order |
| Categories.WithoutKeepsUnique | src/models/Category.js:31-33 | deleting keeps names unique |
| Categories.CategoryTable.Create | src/models/Category.js:4-10 | a taken name inserts nothing; otherwise one row with the next id, name and description, which `findById` returns |
| Categories.CategoryTable.Update | src/models/Category.js:24-29 | succeeds exactly when no other row has the new name; then the rows are `Overwritten`, otherwise unchanged |
| Categories.CategoryTable.Delete | src/models/Category.js:31-33 | the rows become `Without(rows, id)` |
| Categories.AppendKeepsWellFormed | src/utils/database.js:46-54 | a new row with the next id and a new name keeps the invariant |
| Categories.FindAfterAppend | src/models/Category.js:4-14 | after an insert the new id finds the new row and every other id is unchanged |
| Categories.FindByIdAfterOverwrite | src/models/Category.js:24-29 | after an update the target id finds the new name and description and every other id is unchanged |
| Categories.FindByNameAfterOverwrite | src/models/Category.js:16-29 | after renaming an existing category, a lookup by the new name finds a row |
| Users.AppendKeepsUnique | src/utils/database.js:33-43 | a row with a new email and a new username keeps both UNIQUE columns unique |
| Users.AppendKeepsWellFormed | src/utils/database.js:33-43 | such a row with the next id keeps the table invariant |
| Users.FindById | src/models/User.js:14-20 | the session view of the row with that id; None exactly when no row has it |
| Users.FindByEmail | src/models/User.js:22-24 | a row with that email; None exactly when none has it |
| Users.FindByUsername | src/models/User.js:26-28 | a row with that username; None exactly when none has it |
| Users.VerifyPassword | src/models/User.js:30-43 | a user exactly when the email is registered and the password matches that row; the result is that row's session view |
| Users.FindByIdAfterAppend | src/models/User.js:5-20 | a freshly inserted user is found by its id |
| Users.UserTable.Create | src/models/User.js:5-12 | fails exactly when the email or the username is taken, changing nothing; otherwise appends the row with the next id |
| Orders.ParseStatus | src/models/Order.js:54-58 | accepts a status exactly when it is one of the four names, and returns the status of that name |
| Orders.ParseStatusName | src/models/Order.js:55 | each of the four statuses is accepted under its own name |
| Orders.ItemRows | src/models/Order.js:14-21 | one item row per line in input order, with consecutive ids, the order's id and the line's captured price |
| Orders.FindById | src/models/Order.js:26-28 | the order with that id; None exactly when none has it |
| Orders.GetByUserId | src/models/Order.js:30-35 | exactly the orders of that user, newest first |
| Orders.GetAll | src/models/Order.js:37-43 | every order exactly once, newest first |
| Orders.GetOrderItems | src/models/Order.js:45-52 | exactly the item rows of that order, in insertion order |
| Orders.GetRecentOrders | src/models/Order.js:71-78 | at most `limit` orders (all for a negative limit), the newest ones, newest first |
| Orders.TotalRevenue | src/models/Order.js:80-85 | is 0 when no order is Completed or Processing |
| Orders.RevenueIsSumOfCounted | src/models/Order.js:80-85 | revenue is the sum of `total_price` over the Completed and Processing orders |
| Orders.WithStatus | src/models/Order.js:60-63 | only the orders with that id get the new status; everything else is kept |
| Orders.RevenueAfterStatusChange | src/models/Order.js:60-63 | a status change moves revenue by exactly the changed order's old and new contribution |
| Orders.FindAfterStatusChange | src/models/Order.js:60-63 | after a status change the order shows the new status and every other id is unchanged |
| Orders.OrderTable.Create | src/models/Order.js:4-24 | one Pending order with the given total and a fresh id above all earlier ones; then one item row per line in input order; earlier rows are untouched; `getOrderItems` of the new id is exactly those rows |
| Orders.OrderTable.UpdateStatus | src/models/Order.js:54-64 | succeeds exactly for one of the four statuses; a success overwrites only that order's status, whatever it was, and a failure changes nothing |
| Orders.NewOrderItems | src/models/Order.js:14-23 | no earlier item belongs to a fresh order id, so its items are exactly the inserted rows |
| OrderController.Precheck | src/controllers/OrderController.js:7-20 | 401 without a user, checked before the items; then 400 for missing or empty items; then 400 for a missing delivery field; nothing else fails here |
| OrderController.ResumeResume | src/controllers/OrderController.js:26-47 | two resumptions of the item scan compose into one |
| OrderController.LoweredTwice | src/models/Product.js:77-82 | lowering stock by a and then b is lowering it by a + b |
| OrderController.StockReducedLowers | src/models/Product.js:77-82 | a decrement seen through a lookup lowers only that product's stock |
| OrderController.ReduceAllEffect | src/controllers/OrderController.js:26-47 | after a run of decrements each product's stock is its old stock less the total quantity asked of it, and nothing else changes |
| OrderController.LoweredNothing | src/models/Product.js:77-82 | lowering stock by 0 changes nothing |
| OrderController.ScanSuccess | src/controllers/OrderController.js:26-47 | when all items pass, every decrement is applied and the priced lines follow the request one for one, at each product's price on arrival |
| OrderController.LinesTotal | src/controllers/OrderController.js:22-37 | the lines' price × quantity sum is the request priced at the given table |
| OrderController.PlacedTotal | src/controllers/OrderController.js:22-56 | a placed order's total is the sum over items of the product's price on arrival × quantity |
| OrderController.ScanSucceedsIff | src/controllers/OrderController.js:26-34 | every item passes exactly when each passes against the table the earlier items left; a repeated product sees decremented stock |
| OrderController.ScanFailure | src/controllers/OrderController.js:26-34 | a failure is at some index; all earlier items passed with their decrements applied; a missing product gives Missing with its id and short stock gives Short with its name |
| OrderController.ScanStopsAtFailure | src/controllers/OrderController.js:27-34 | after a failing item no later item is examined or decremented |
| OrderController.StopsAfterPass | src/controllers/OrderController.js:27-46 | after a passing first item, the scan stops at the failing item of the rest |
| OrderController.PassThenSameScan | src/controllers/OrderController.js:36-46 | after a passing item, continuations that scan alike keep scanning alike, with the failure one place later |
| OrderController.FailedPlacementKeepsDecrements | src/controllers/OrderController.js:26-47 | no rollback: after a failure every product's stock is its old stock less what the earlier items asked of it |
| OrderController.PlacedStock | src/controllers/OrderController.js:26-47 | after a success every product's stock is its old stock less everything the request asked of it |
| OrderController.ScanKeepsStockNonNegative | src/controllers/OrderController.js:32-46 | with distinct ids and non-negative stock, no outcome drives any stock below zero, whatever the quantities |
| OrderController.RepeatedProductSeesDecrementedStock | src/controllers/OrderController.js:27-34 | stock 5 with two items of 3 fails on the second item, leaving stock 2 |
| OrderController.NegativeQuantityRaisesStock | src/controllers/OrderController.js:32-46 | a quantity of −2 passes, raises the stock to 7 and prices the line at −1000 |
| OrderController.Create | src/controllers/OrderController.js:5-69 | a failed precheck changes nothing; otherwise the item loop runs and the products become the scan's rows; Missing gives 404 and Short gives 400, with no order; success inserts the Pending order with the summed total and its item rows and answers 201 |
| OrderController.PlaceItems | src/controllers/OrderController.js:26-47 | the loop leaves the products table and an outcome exactly as `ScanItems` describes, and after a full pass its running total is the sum of price × quantity over the priced lines |
| OrderController.LoopStep | src/controllers/OrderController.js:26-47 | one passing item keeps the loop invariant |
| OrderController.ResumeNothing | src/controllers/OrderController.js:26-47 | resuming after no items changes nothing |
| OrderController.ScanItems | src/controllers/OrderController.js:26-47 | the reference definition of the item loop: a full pass prices every item, and a failure is at an index of the request |
| OrderController.ScanStepMissing | src/controllers/OrderController.js:27-30 | an item naming no product ends the scan with Missing and the table as it stands |
| OrderController.ScanStepShort | src/controllers/OrderController.js:32-34 | an item over stock ends the scan with Short and the table as it stands |
| OrderController.ScanStepPass | src/controllers/OrderController.js:36-46 | a passing item contributes its priced line and its decrement to the scan of the rest |
| OrderController.GetById | src/controllers/OrderController.js:71-91 | 404 exactly for an unknown order; 403 exactly when the caller is neither the owner nor an admin; otherwise the order with its items |
| OrderController.OwnerOrAdminMayView | src/controllers/OrderController.js:81-83 | the owner and any admin can always view an existing order |
| OrderController.WithItems | src/controllers/OrderController.js:100-105 | each order paired with exactly its item rows |
| OrderController.WithItemsOrders | src/controllers/OrderController.js:100-105 | the orders paired with items are exactly the given orders |
| OrderController.GetByUserId | src/controllers/OrderController.js:93-114 | 401 exactly without a user; otherwise exactly that user's orders, each once, strictly newest first, each with its items |
| OrderController.GetAll | src/controllers/OrderController.js:116-133 | every order, newest first, each with its items |
| OrderController.UpdateStatus | src/controllers/OrderController.js:135-157 | 400 for an empty status, then 404 for an unknown order, then 500 for an unknown status with nothing changed; otherwise only that order's status changes and the updated order is returned |
| ProductController.DataUrl | src/controllers/ProductController.js:90-93 | the stored image path of an upload is a `data:` URL |
| ProductController.GetAll | src/controllers/ProductController.js:5-25 | 404 exactly for a category name no category has; otherwise that category's products, or all of them, newest first |
| ProductController.GetById | src/controllers/ProductController.js:27-41 | 404 exactly when no product has that id |
| ProductController.GetFeatured | src/controllers/ProductController.js:43-51 | the six newest products, or all when there are fewer |
| ProductController.Search | src/controllers/ProductController.js:53-67 | 400 exactly for an empty query; otherwise each product matching the LIKE pattern exactly once, sorted by name |
| ProductController.CreateCheck | src/controllers/ProductController.js:75-87 | 400 when name, description or price is falsy, the stock is absent or the category id is falsy; then 400 for price ≤ 0; then 404 for an unknown category; otherwise passes |
| ProductController.NewImage | src/controllers/ProductController.js:90-93 | a new product has an image exactly when a file was uploaded, and then its data URL |
| ProductController.Create | src/controllers/ProductController.js:69-103 | a failed check inserts nothing; otherwise exactly one row with the submitted fields and answers 201 with it |
| ProductController.UpdateCheck | src/controllers/ProductController.js:110-122 | 404 for an unknown product comes before 400 for a missing field, which comes before 400 for price ≤ 0 |
| ProductController.UpdatedImage | src/controllers/ProductController.js:124-128 | without an upload the stored image is kept, including none; with one it is replaced |
| ProductController.Update | src/controllers/ProductController.js:105-138 | a failed check changes nothing; otherwise only that product changes, to the submitted fields with its image kept unless a file was uploaded |
| ProductController.Delete | src/controllers/ProductController.js:140-155 | 404 with nothing removed for an unknown id; otherwise exactly that product goes |
| CategoryController.GetById | src/controllers/CategoryController.js:15-29 | 404 exactly when no category has that id |
| CategoryController.CreateCheck | src/controllers/CategoryController.js:34-41 | 400 for an empty name; then 400 for a name some category has; otherwise passes |
| CategoryController.Create | src/controllers/CategoryController.js:31-52 | a failed check leaves the table unchanged; otherwise one new category with the name and the description (`''` when absent), answered with 201 |
| CategoryController.UpdateCheck | src/controllers/CategoryController.js:58-65 | 404 for an unknown category comes before 400 for an empty name |
| CategoryController.Update | src/controllers/CategoryController.js:54-76 | a failed check changes nothing; a name held by another category gives 500 with nothing changed; otherwise only the target gets the new name and description |
| CategoryController.Delete | src/controllers/CategoryController.js:78-94 | 404 with nothing removed for an unknown id; otherwise that category goes |
| CategoryController.RenameToSameNameSucceeds | src/controllers/CategoryController.js:67 | updating a category while keeping its own name never conflicts |
| AuthController.RegisterCheck | src/controllers/AuthController.js:9-30 | 400 for an empty field, then for different passwords, then for fewer than 6 UTF-16 units, then for a taken email, then for a taken username; otherwise passes |
| AuthController.EmailReportedBeforeUsername | src/controllers/AuthController.js:22-30 | when both email and username are taken, the taken email is reported |
| AuthController.Register | src/controllers/AuthController.js:5-41 | a failed check creates nobody and leaves the session; otherwise one new non-admin user, set as the session user, answered with 201 |
| AuthController.Login | src/controllers/AuthController.js:43-63 | 400 without both fields; 401 when verification fails, with the session untouched; otherwise the verified user becomes the session user |
| AuthController.Logout | src/controllers/AuthController.js:65-72 | the session no longer holds a user |
| AuthController.GetProfile | src/controllers/AuthController.js:74-86 | 401 exactly without a session user; otherwise that user's stored record |
| AuthController.ProfileAfterRegister | src/controllers/AuthController.js:33-39 | after a registration the profile endpoint shows the new user |
| Sessions.Session.SignIn | src/controllers/AuthController.js:36-37 | the session user becomes the given user |
| Sessions.Session.Destroy | src/controllers/AuthController.js:65-72 | the session holds no user |
| Cart.CartTotal | public/js/app.js:151-153 | 0 for an empty cart, and non-negative when prices and quantities are |
| Cart.CartTotalIsSum | public/js/app.js:151-153 | the total is the sum of price × quantity over the lines |
| Cart.FindLine | public/js/app.js:118 | the index of the first line for that product; None exactly when there is none |
| Cart.Merge | public/js/app.js:118-130 | an existing line for the product gets the quantity added and nothing else changes; otherwise the line is appended at the end |
| Cart.MergeKeepsUniqueIds | public/js/app.js:117-132 | unique product ids stay unique after adding |
| Cart.MergeTotal | public/js/app.js:118-130 | adding raises the total by the quantity times the existing line's stored price, or the new line's price |
| Cart.CartStorage.GetCart | public/js/app.js:141-143 | the empty cart when nothing is stored, otherwise the stored cart |
| Cart.CartStorage.Save | public/js/app.js:132 | the stored cart becomes the given one |
| Cart.CartStorage.ClearCart | public/js/app.js:146-148 | nothing is stored and the cart reads as empty |
| Cart.CartStorage.AddToCartQuick | public/js/app.js:113-138 | a failed request changes nothing; a product answer merges one unit of it into the stored cart; an error answer still adds one unit to an existing line for the product |
| Cart.CardStockConsistent | public/js/app.js:91-105 | "In Stock" is shown exactly when the add button is enabled, which is exactly when stock is positive |
| Cart.StockText | public/js/app.js:91-92 | the card reads "In Stock" exactly when stock is positive, and "Out of Stock" otherwise |
| Cart.AddButtonDisabled | public/js/app.js:105 | the card's add button is disabled exactly when its stock line says "Out of Stock" |
| CartPage.RemoveAt | public/js/cart.js:57-62 | line `index` is removed and the others close up in order; an index past the end removes nothing |
| CartPage.RemoveAtIsSubsequence | public/js/cart.js:57-62 | the remaining lines keep their relative order |
| CartPage.RemoveAtTotal | public/js/cart.js:57-62 | removing a line lowers the total by that line's total |
| CartPage.SetQuantity | public/js/cart.js:52-53 | line `index` becomes the same line with the new quantity, and every other line is kept |
| CartPage.SetQuantityKeepsUniqueIds | public/js/cart.js:52-53 | changing a quantity keeps product ids unique |
| CartPage.RemoveFromCart | public/js/cart.js:57-62 | the stored cart is the old one with line `index` removed |
| CartPage.UpdateQuantity | public/js/cart.js:43-55 | a quantity below 1 removes the line; otherwise only that line's quantity is set; an index past the end writes nothing |
| CartPage.ProceedToCheckout | public/js/cart.js:64-84 | an empty cart stays on the page; otherwise checkout after a successful profile request, and login after any other answer |
| ProductDetail.ProductIdFromPath | public/js/product-detail.js:11-14 | the suffix of the path after its last '/', with no '/' in it |
| ProductDetail.ProductIdAfterPrefix | public/js/product-detail.js:11-14 | for any path ending in '/' + id, the id |
| ProductDetail.ControlsDisabled | public/js/product-detail.js:41-45 | the page disables its quantity field and add button for exactly the products whose listing card has its add button disabled |
| ProductDetail.LineFor | public/js/product-detail.js:72-78 | the new line carries the product's id, name, price and image and the chosen quantity |
| ProductDetail.AddToCart | public/js/product-detail.js:56-86 | no loaded product or a quantity below 1 changes nothing; otherwise the cart is merged with the chosen quantity |
| ProductDetail.AddedQuantityRaisesTotal | public/js/product-detail.js:67-79 | adding a positive quantity at positive prices raises the total and keeps product ids unique |
| Checkout.Project | public/js/checkout.js:54-57 | the items are the cart lines as `(productId, quantity)` pairs, with the same length and order |
| Checkout.Submit | public/js/checkout.js:36-57 | an empty cart is refused first, then a field empty after trimming; otherwise the projected items and the trimmed fields are posted |
| Checkout.PostedRequestPassesPrecheck | public/js/checkout.js:36-57 | a request the form posts for a signed-in user passes every server check made before products are looked at |
| Checkout.CartTotalIsServerTotal | public/js/checkout.js:54-57 | when the stored prices are current, the cart total equals the server's total for the posted items |
| Checkout.HandleCheckout | public/js/checkout.js:36-85 | a refusal posts nothing and keeps the cart; otherwise the submitted request is posted and the cart is cleared exactly when the server accepts it |
| Shop.SearchFilter | public/js/shop.js:40-45 | an empty query keeps the list; otherwise exactly the products whose lower-cased name or description contains the lower-cased query, as a subsequence of the list |
| Shop.FilterAgreesWithServerSearch | public/js/shop.js:40-45 | for an ASCII query without `%` or `_`, the filter keeps exactly the products with ASCII texts that the server search returns |
| Shop.FilterDiffersFromServerSearchOnWildcards | src/models/Product.js:51-59 | for the query "r_za", the server search finds a product named "Roza" and the page filter does not |
| Shop.EmptyQueryMatchesAll | public/js/shop.js:40 | every product matches the empty query, so the early exit changes nothing |
| Text.TrimEmptyIff | public/js/checkout.js:45-49 | a field trims to empty exactly when it is all white space |
| Text.TrimStartSpaces | public/js/checkout.js:45-49 | exactly the leading white space is dropped: what remains does not start with white space |
| Text.TrimEndSpaces | public/js/checkout.js:45-49 | exactly the trailing white space is dropped: what remains does not end with white space |
| Text.TrimIsInfix | public/js/checkout.js:45-49 | trimming removes only white space around one contiguous block |
| Text.Trim | public/js/checkout.js:45-49 | the trimmed field is no longer than the input and neither starts nor ends with white space |
| Text.ContainsIff | public/js/shop.js:41-44 | `includes` holds exactly when the needle occurs at some position |
| Text.Lower | public/js/shop.js:41-44 | `toLowerCase` keeps the length and folds each character on its own |
| Text.LikeAnything | src/models/Product.js:55-57 | a lone `%` matches every text |
| Text.LikePrefix | src/models/Product.js:55-57 | without wildcards, `s LIKE 'k%'` holds exactly when `s` starts with `k`, ignoring ASCII case |
| Text.LikeContainsIff | src/models/Product.js:55-57 | without wildcards in the keyword, `s LIKE '%k%'` holds exactly when `s` contains `k`, ignoring ASCII case |
| Text.UnderscoreIsAWildcard | src/models/Product.js:55-57 | `'%r_za%'` matches "Roza", which does not contain "r_za" |
| Text.InsertBySorted | src/models/Category.js:20-22 | inserting into a name-sorted list keeps it sorted |
| Text.SortBy | src/models/Category.js:20-22 | the result is sorted by name and a permutation of the input |
| Text.Utf16Length | src/controllers/AuthController.js:17 | `password.length` counts between one and two UTF-16 units per character |
| Common.Reverse | src/models/Order.js:30-35 | `ORDER BY created_at DESC` puts the last inserted row first, for rows whose timestamps differ |
| Common.SumRemove | public/js/cart.js:57-62 | taking one element out of a sequence lowers its sum by that element's value |
| Common.Limit | src/models/Order.js:71-78 | `LIMIT n` keeps the first n rows, or all of them for a negative n |
| Common.Filter | src/models/Order.js:45-52 | `WHERE` keeps exactly the matching rows, in order |

## Left out

- Express routing, static files, sessions' cookie handling and `console.error`: only the guard on each route is modelled (`Auth.GuardOf`).
- The generic `catch` blocks that answer 500 on a database or driver error: database calls do not fail in the model, except for UNIQUE violations.
- Foreign keys are not enforced by the model, as SQLite does not enforce them by default: deleting a category leaves its products.
- The columns that joins add (`category_name`, `username`, `email`, product name and image of order items) and the `created_at`/`updated_at` timestamps.
- Products.GetAll, Products.GetFeatured, Orders.GetByUserId, Orders.GetAll and Orders.GetRecentOrders: `created_at` has one-second resolution, so rows inserted in the same second tie, and SQLite leaves their order unspecified, including which rows a `LIMIT` keeps. The model breaks such ties by id, which AUTOINCREMENT makes increasing in insertion order; the source fixes none.
- Orders.GetOrderItems: the query has no `ORDER BY`; insertion order is the model's choice, not a promise of the source.
- Cart.CartStorage.AddToCartQuick: after an error answer for a product that has no cart line yet, the source appends a line whose name and price are undefined, and the cart total then shows NaN. A cart line here always has a name and a numeric price, so the contract says nothing about the stored cart in that case.
- ProductController.CreateCheck: the body is modelled as JSON with numeric fields. The admin page posts FormData, so its fields reach the handler as strings, where truthiness means non-empty. Three outcomes differ from the model. A price of "0" gets "Price must be greater than 0" rather than "All fields are required". A category id of "0" reaches the lookup and gets 404 rather than 400. An empty stock field passes `stockQuantity === undefined` and is stored. SQLite's type affinity for such strings is not modelled.
- ProductController.UpdateCheck: modelled with a JSON body in the same way. With the admin page's strings, a price of "0" gets the price error, and an empty stock field passes the check and is stored.
- Users.VerifyPassword: bcrypt hashing and comparison are a caller-supplied predicate `matches`; the password hash column is not modelled.
- `parseInt`, `parseFloat`, `JSON.parse`/`stringify`, `formatPrice` (`Intl.NumberFormat`), `showAlert`, DOM rendering, redirects after checkout and `fetch`. A fetched result or server verdict is a parameter (`answer`, `profileOk`, `accepted`).
- ProductController.Create and Update: the base64 encoding of an upload is taken as given (`Upload.base64`); multer's size limit is not modelled.
- Prices are integer cents rather than SQLite REAL and JavaScript numbers, so rounding is not modelled.
- Text.Lower: lower-cases ASCII letters only, while JavaScript's `toLowerCase` also folds other scripts, so the page filter is exact only for ASCII text. SQLite's `LIKE` folds ASCII only, as `Text.Like` does. Shop.FilterAgreesWithServerSearch is stated for ASCII queries and texts for this reason.
- Text.Utf16Length counts characters above U+FFFF as two units, as `String.prototype.length` does.
- AuthController.Logout: a failing `session.destroy` callback (500) is not modelled.
- Concurrency: interleaved requests (two orders racing for the same stock) and async suspension; each request is one atomic step.
- AdminController, seed and setup scripts, the admin page and the order-history, confirmation, home, login and register pages: these are DOM code or plain composition of the modelled queries.
- `getCount` queries and `User.getAllAdmins`: they are used only by excluded code.
- CartPage.UpdateQuantity: the index is taken as a natural number; JavaScript would also accept a negative index from outside the page.
- CartPage.UpdateQuantity: the quantity is the already parsed integer. Clearing the page's number field makes `parseInt` return NaN. `NaN < 1` is false, so NaN is stored, and JSON turns it into `null`.
- Checkout.HandleCheckout: a cart holding such a line posts `quantity: null`, which the model's integer quantities cannot express.
- OrderController.Create: with `quantity: null`, `stock_quantity < null` is false, so the item passes, and `price * null` is 0. `updateStock(id, null)` then violates `stock_quantity INTEGER NOT NULL` (database.js:63), and the `catch` answers 500. The decrements of earlier items stay applied and no order is inserted. Database errors other than UNIQUE violations are not modelled, so the model does not reach this outcome.

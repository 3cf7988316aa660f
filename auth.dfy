/** The three middleware functions of the authentication layer. Each looks
    only at the session user and either answers the request or passes it on
    to the next handler. */
module Auth {
  import opened Common
  import opened Sessions

  /** What a middleware does with a request: call `next()`, or answer with
      an HTTP status and stop. */
  datatype Gate = Next | Reject(status: int)

  /** `requireLogin`. */
  function RequireLogin(user: Option<SessionUser>): (g: Gate)
    ensures g.Reject? <==> user.None?
    ensures g.Reject? ==> g.status == 401
  {
    if user.None? then Reject(401) else Next
  }

  /** `requireAdmin`. */
  function RequireAdmin(user: Option<SessionUser>): (g: Gate)
    ensures g.Reject? <==> user.None? || !user.value.isAdmin
    ensures g.Reject? ==> g.status == 403
  {
    if user.None? || !user.value.isAdmin then Reject(403) else Next
  }

  /** A request the admin guard lets through also passes the login guard. */
  lemma AdminPassesLogin(user: Option<SessionUser>)
    requires RequireAdmin(user).Next?
    ensures RequireLogin(user).Next? && user.Some? && user.value.isAdmin
  {
  }

  /** `checkAuth`: always passes the request on; `res.locals.user` becomes
      the session user when there is one and otherwise keeps its value. */
  function CheckAuth(user: Option<SessionUser>, localsUser: Option<SessionUser>): (r: (Gate, Option<SessionUser>))
    ensures r.0 == Next
    ensures user.Some? ==> r.1 == user
    ensures user.None? ==> r.1 == localsUser
  {
    (Next, if user.Some? then user else localsUser)
  }

  /** The guarded endpoints of the routers (the unguarded ones are listed as `Open`). */
  datatype Endpoint =
    | ListProducts | FeaturedProducts | SearchProducts | ShowProduct
    | CreateProduct | UpdateProduct | DeleteProduct
    | ListCategories | ShowCategory | CreateCategory | UpdateCategory | DeleteCategory
    | PlaceOrder | MyOrders | ShowOrder | ListOrders | UpdateOrderStatus
    | AdminDashboard

  datatype Guard = Open | LoginRequired | AdminRequired

  /** The middleware each route mounts before its handler. */
  function GuardOf(e: Endpoint): Guard
  {
    match e
    case CreateProduct | UpdateProduct | DeleteProduct => AdminRequired
    case CreateCategory | UpdateCategory | DeleteCategory => AdminRequired
    case ListOrders | UpdateOrderStatus | AdminDashboard => AdminRequired
    case PlaceOrder | MyOrders | ShowOrder => LoginRequired
    case _ => Open
  }

  /** What the route's middleware does before the handler runs. */
  function Admit(e: Endpoint, user: Option<SessionUser>): (g: Gate)
    ensures GuardOf(e) == Open ==> g == Next
    ensures GuardOf(e) == LoginRequired ==> g == RequireLogin(user)
    ensures GuardOf(e) == AdminRequired ==> g == RequireAdmin(user)
  {
    match GuardOf(e)
    case Open => Next
    case LoginRequired => RequireLogin(user)
    case AdminRequired => RequireAdmin(user)
  }

  /** Creating, updating and deleting a product reach their handler only
      for an admin. */
  lemma AdminOnlyProductRoutes(e: Endpoint, user: Option<SessionUser>)
    requires e in {CreateProduct, UpdateProduct, DeleteProduct}
    ensures Admit(e, user).Next? <==> user.Some? && user.value.isAdmin
    ensures Admit(e, user).Reject? ==> Admit(e, user).status == 403
  {
  }

  /** Creating, updating and deleting a category reach their handler only
      for an admin. */
  lemma AdminOnlyCategoryRoutes(e: Endpoint, user: Option<SessionUser>)
    requires e in {CreateCategory, UpdateCategory, DeleteCategory}
    ensures Admit(e, user).Next? <==> user.Some? && user.value.isAdmin
    ensures Admit(e, user).Reject? ==> Admit(e, user).status == 403
  {
  }

  /** The list of all orders and status updates reach their handler only
      for an admin. */
  lemma AdminOnlyOrderRoutes(e: Endpoint, user: Option<SessionUser>)
    requires e in {ListOrders, UpdateOrderStatus}
    ensures Admit(e, user).Next? <==> user.Some? && user.value.isAdmin
    ensures Admit(e, user).Reject? ==> Admit(e, user).status == 403
  {
  }

  /** The dashboard reaches its handler only for an admin. */
  lemma AdminOnlyDashboard(user: Option<SessionUser>)
    ensures Admit(AdminDashboard, user).Next? <==> user.Some? && user.value.isAdmin
    ensures Admit(AdminDashboard, user).Reject? ==> Admit(AdminDashboard, user).status == 403
  {
  }

  /** Placing and viewing orders needs a signed-in user, admin or not. */
  lemma LoginOnlyEndpoints(e: Endpoint, user: Option<SessionUser>)
    requires e in {PlaceOrder, MyOrders, ShowOrder}
    ensures Admit(e, user).Next? <==> user.Some?
    ensures Admit(e, user).Reject? ==> Admit(e, user).status == 401
  {
  }

  /** The catalogue can be browsed without signing in. */
  lemma OpenEndpoints(e: Endpoint, user: Option<SessionUser>)
    requires e in {ListProducts, FeaturedProducts, SearchProducts, ShowProduct, ListCategories, ShowCategory}
    ensures Admit(e, user) == Next
  {
  }
}

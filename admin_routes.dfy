/** The admin router: `authenticate` runs before each of the five inventory
    handlers. Also the end-to-end session: register, log in, and present the
    token to the gate. */
module AdminRoutes {
  import opened JsValues
  import opened GroceryItemModel
  import opened UserModel
  import opened Crypto
  import opened AdminController
  import opened AuthController
  import opened AuthMiddleware

  /** The five admin routes with their parsed parameters and bodies. */
  datatype AdminRoute =
    | AddItem(body: ItemCreation)
    | ViewItems
    | UpdateItem(id: int, patch: ItemPatch)
    | DeleteItem(id: int)
    | UpdateQuantity(id: int, quantity: Option<int>)

  /** The status a route's handler sends on a table. */
  function RouteStatus(items: map<int, GroceryItem>, route: AdminRoute): int {
    match route
    case AddItem(_) => 201
    case ViewItems => 200
    case UpdateItem(id, _) => LookupStatus(items, id)
    case DeleteItem(id) => LookupStatus(items, id)
    case UpdateQuantity(id, _) => LookupStatus(items, id)
  }

  /** The table after a route's handler. */
  function RouteEffect(items: map<int, GroceryItem>, route: AdminRoute): map<int, GroceryItem> {
    match route
    case AddItem(_) => items
    case ViewItems => items
    case UpdateItem(id, patch) => UpdatedItems(items, id, patch)
    case DeleteItem(id) => DeletedItems(items, id)
    case UpdateQuantity(id, quantity) => RestockedItems(items, id, quantity)
  }

  /** Every admin route answers 404 on a missing key or one of its fixed success
      statuses, and a route that does not succeed changes nothing. */
  lemma RouteOutcomes(items: map<int, GroceryItem>, route: AdminRoute)
    ensures RouteStatus(items, route) in {200, 201, 404}
    ensures RouteStatus(items, route) == 404 ==> RouteEffect(items, route) == items
  {
  }

  /** `router.use(authenticate)` followed by the route's handler. */
  method Dispatch(table: GroceryTable, req: Request, route: AdminRoute, verify: string -> Option<Claims>)
    returns (status: int)
    requires table.Valid()
    modifies table, req
    ensures table.Valid() && table.nextId == old(table.nextId)
    ensures Gate(req.authorization, verify).Reject? ==>
      && status == Gate(req.authorization, verify).status
      && table.items == old(table.items)
      && req.user == old(req.user)
    ensures Gate(req.authorization, verify).Proceed? ==>
      && req.user == Some(Gate(req.authorization, verify).claims)
      && status == RouteStatus(old(table.items), route)
      && table.items == RouteEffect(old(table.items), route)
  {
    var gate := Authenticate(req, verify);
    if gate.Reject? {
      return gate.status;
    }
    match route
    case AddItem(body) =>
      status := table.AddGroceryItem(body);
    case ViewItems =>
      status := table.ViewGroceryItems();
    case UpdateItem(id, patch) =>
      var updated;
      status, updated := table.UpdateGroceryItem(id, patch);
    case DeleteItem(id) =>
      status := table.DeleteGroceryItem(id);
    case UpdateQuantity(id, quantity) =>
      var updated;
      status, updated := table.UpdateInventory(id, quantity);
  }

  /** A newly registered user who logs in with the same password gets a token
      that, sent as `Bearer <token>`, passes the gate with the claims of the new
      row: its key and role 'user'. */
  lemma SessionAfterRegistration(rows: seq<User>, nextId: int, body: Credentials, c: Oracles)
    requires UsersValid(rows, nextId)
    requires HashSound(c) && TokensSound(c)
    requires RegisterStatus(rows, body.email) == 201
    ensures Login(RegisteredRows(rows, nextId, body, c), body, c).status == 200
    ensures Gate(Some("Bearer " + Login(RegisteredRows(rows, nextId, body, c), body, c).token.value), c.verify)
            == Proceed(Claims(nextId, UserRole))
  {
    RegisterThenLogin(rows, nextId, body, body, c);
    var token := c.sign(Claims(nextId, UserRole));
    assert "Bearer " == "Bearer" + " ";
    assert ' ' !in "Bearer";
    WordTokenDecision("Bearer", token, c.verify);
  }
}

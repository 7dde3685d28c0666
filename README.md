# Grocery backend: a Dafny model of its request handlers

This project models the request-handling core of a small Express/Sequelize
grocery backend. The core has three parts:

- **Inventory handlers.** `addGroceryItem`, `viewGroceryItems`, `updateGroceryItem`,
  `deleteGroceryItem` and `updateInventory` are methods of a `GroceryTable` object.
  Its `items` map plays the role of the GroceryItem table, keyed by primary key.
- **Auth handlers.** `register` is a method of a `UserTable` object whose `rows`
  are the User table. `login` is a read-only function of those rows.
- **Token gate.** The `authenticate` middleware is a pure decision `Gate` over the
  Authorization header, plus a method that writes `req.user`. `Dispatch` runs the
  gate before every admin handler, as the admin router does.

Each handler returns the HTTP status it sends. Its new table state is tied to a
specification function of the old state: `UpdatedItems`, `DeletedItems`,
`RestockedItems` and `RegisteredRows`. The lemmas state the source's promises
about those functions: frames, the falsy `||` partial update, idempotence,
invariant preservation and the register→login round trip.

bcrypt and jsonwebtoken are foreign code. They are function values in the datatype
`Crypto.Oracles` (`hash`, `compare`, `sign`, `verify`), passed to every handler
that uses them. Only two facts are ever assumed about them, and only as the
`requires` of the lemmas that need them:
- `HashSound`: a password matches its own hash.
- `TokensSound`: a signed token verifies to its claims and is a non-empty
  string with no spaces.

Modules, one per source file: `GroceryItemModel`, `UserModel`,
`AdminController`, `AuthController`, `AuthMiddleware`, `AdminRoutes`. Two more
have no source file of their own: `JsValues` (absent/null fields and JavaScript
truthiness) and `Crypto` (the bcrypt/jsonwebtoken oracles).

`AdminController.GroceryTable.Create` models the table's own insert: the
auto-increment key and the `quantity` default of the schema. No handler reaches
it, because `addGroceryItem` is a stub that never inserts a row.

The model follows the code as written, including two behaviours its doc
comments do not lead one to expect:
- `addGroceryItem` and `viewGroceryItems` are stubs. They answer 201/200 and
  touch no data, and that is what the model does.
- The partial update treats `""` and `0` like an absent field, because it uses
  JavaScript's `||`.

## Model

| member | source | states |
|---|---|---|
| GroceryItemModel.NewItem | src/models/GroceryItem.ts:4-38 | a created row keeps name and price, takes the assigned key, and has quantity 0 when none was supplied |
| GroceryItemModel.DistinctIds | src/models/GroceryItem.ts:21-25 | two different keys of a valid table hold rows with different ids |
| GroceryItemModel.InsertPreservesValid | src/models/GroceryItem.ts:21-25 | the next auto-increment key is unused, and inserting under it keeps the table invariant |
| UserModel.ParseRole | src/models/user.ts:43-47 | only "user" and "admin" are accepted as roles, each mapping back to its own name |
| UserModel.RoleNameRoundTrip | src/models/user.ts:9 | every role survives being stored as its name and read back |
| UserModel.NewUser | src/models/user.ts:27-48 | a created user keeps email and password, takes the assigned key, and gets role 'user' when none is given |
| UserModel.FindByEmail | src/controllers/authController.ts:27 | the lookup fails exactly when no row has the email; a found row is in the table and has that email |
| UserModel.FindByEmailUnique | src/models/user.ts:34-38 | with unique emails, the lookup returns exactly the row holding the email |
| AdminController.GroceryTable.Create | src/models/GroceryItem.ts:20-41 | a new row goes under the next key, which was unused; the counter advances and the invariant holds |
| AdminController.GroceryTable.AddGroceryItem | src/controllers/adminController.ts:17-24 | always 201; no modifies clause, so the table cannot change |
| AdminController.GroceryTable.ViewGroceryItems | src/controllers/adminController.ts:35-42 | always 200; no modifies clause, so the table cannot change |
| AdminController.GroceryTable.UpdateGroceryItem | src/controllers/adminController.ts:60-81 | 404 and no change for a missing key; otherwise 200, the patched row is saved and returned, and the invariant holds |
| AdminController.GroceryTable.DeleteGroceryItem | src/controllers/adminController.ts:98-114 | 404 and no change for a missing key; otherwise 200 and the row is removed |
| AdminController.GroceryTable.UpdateInventory | src/controllers/adminController.ts:131-150 | 404 and no change for a missing key; otherwise 200 and quantity becomes exactly the request's value |
| AdminController.MissingItemUntouched | src/controllers/adminController.ts:65-140 | for a key not in the table, update, delete and inventory update all answer 404 and leave the table equal to before |
| AdminController.PatchFields | src/controllers/adminController.ts:72-74 | a truthy field value replaces the field; an absent, "" or 0 value keeps the old one; the key never changes |
| AdminController.PatchIdempotent | src/controllers/adminController.ts:72-75 | applying the same partial update twice equals applying it once |
| AdminController.UpdateFrame | src/controllers/adminController.ts:71-77 | updating an existing row keeps the key set, the row's id and every other row |
| AdminController.DeleteFrame | src/controllers/adminController.ts:108-110 | deleting an existing row removes exactly that key, shrinks the table by one and keeps every other row |
| AdminController.RestockFrame | src/controllers/adminController.ts:142-146 | the inventory update sets quantity to any supplied value, including 0 or negative, and keeps id, name, price and other rows |
| AdminController.ZeroQuantityContrast | src/controllers/adminController.ts:74-143 | quantity 0 is stored by the inventory update but ignored by the general update |
| AdminController.RestockIdempotent | src/controllers/adminController.ts:143-144 | applying the same inventory update twice gives the same table as once |
| AdminController.WritesPreserveValid | src/controllers/adminController.ts:72-144 | update, delete and inventory update all keep the table invariant |
| AuthController.Login | src/controllers/authController.ts:24-40 | the status is 200, 401 or 404; a token comes back exactly on 200; 404 exactly when no row has the email; never writes the table |
| AuthController.UserTable.Create | src/models/user.ts:34-38 | the unique constraint refuses a taken email with no change; otherwise one row is appended under the next key |
| AuthController.UserTable.Register | src/controllers/authController.ts:58-81 | 400 and no change for a taken email; otherwise 201 and exactly one new row is returned, with unique emails and keys kept |
| AuthController.LoginAgainstRow | src/controllers/authController.ts:27-36 | for the row with the email, 401 exactly when the password does not match its hash; otherwise the token is sign({id, role}) of that row |
| AuthController.RegisterAddsOne | src/controllers/authController.ts:59-75 | a free email appends one row with the hashed password and role 'user', whatever role the body names; a taken one changes nothing |
| AuthController.RegisterPreservesValid | src/controllers/authController.ts:63-75 | registration keeps emails and keys unique, and keys below the counter |
| AuthController.RegisterTwiceConflicts | src/controllers/authController.ts:63-66 | registering an email a second time answers 400 and leaves the table unchanged |
| AuthController.RegisterThenLogin | src/controllers/authController.ts:27-75 | if a password matches its own hash, register then log in with it gives 200 and a token signed over the new row's key and role 'user' |
| AuthMiddleware.Split | src/middleware/authMiddleware.ts:32 | the pieces contain no space and join back to the header; there is one piece exactly when the header has no space |
| AuthMiddleware.SplitAfterWord | src/middleware/authMiddleware.ts:32 | a space-free word followed by a space splits off as the first piece |
| AuthMiddleware.SplitJoin | src/middleware/authMiddleware.ts:32 | joining space-free pieces with spaces and splitting again gives the same pieces back |
| AuthMiddleware.BearerToken | src/middleware/authMiddleware.ts:32 | a token exists exactly when the header is present and contains a space, and it never contains a space |
| AuthMiddleware.TokenIsSecondWord | src/middleware/authMiddleware.ts:32 | the token is the word after the first space, whatever the first word is; anything after a later space is ignored |
| AuthMiddleware.BearerTokenExamples | src/middleware/authMiddleware.ts:32 | "Bearer abc" gives "abc", "Bearer a b" gives "a", and "Bearer  x" gives "" |
| AuthMiddleware.NoSpaceNoToken | src/middleware/authMiddleware.ts:32 | "Bearer" alone, or no header, gives no token |
| AuthMiddleware.Gate | src/middleware/authMiddleware.ts:31-46 | exactly one of 401 (no or empty token), 403 (verify fails) or proceed with the verified claims |
| AuthMiddleware.NoTokenUnauthorized | src/middleware/authMiddleware.ts:32-37 | a missing header, or a header with no space, is refused with 401 |
| AuthMiddleware.EmptyTokenUnauthorized | src/middleware/authMiddleware.ts:32-37 | two spaces after the first word give an empty token and 401 |
| AuthMiddleware.WordTokenDecision | src/middleware/authMiddleware.ts:39-45 | a non-empty token that fails verification gets 403; one that verifies proceeds with its decoded claims |
| AuthMiddleware.Authenticate | src/middleware/authMiddleware.ts:31-46 | the outcome is Gate's; only on proceed is req.user set to the claims, and otherwise it is unchanged |
| AdminRoutes.RouteOutcomes | src/routes/adminRoutes.ts:17-21 | every admin route answers 200, 201 or 404, and a 404 changes nothing |
| AdminRoutes.Dispatch | src/routes/adminRoutes.ts:14-21 | a rejected request gets the gate's 401/403 and changes nothing; an admitted one runs its handler once, with the handler's status and table effect |
| AdminRoutes.SessionAfterRegistration | src/middleware/authMiddleware.ts:32-42 | with sound crypto, the login token of a new user passes the gate as "Bearer <token>" with claims {new key, 'user'} |

## Left out

- Express wiring is not modelled: the route tables, the 404 catch-all and the error middleware. The admin router's gate-then-handler composition is `Dispatch`.
- Database connection, environment loading and the async error plumbing (`asyncHandler`) are I/O and control flow, so they are not modelled.
- The 500 `catch` branches are not modelled. Store, hashing and signing failures are external to the core.
- bcrypt salting and cost, JWT signature checking, the signing secret and the 1-hour expiry are not modelled. `hash`, `compare`, `sign` and `verify` are function values with only `HashSound`/`TokensSound` assumed. An expired token is just one for which `verify` gives `None`.
- The `iat`/`exp` fields of the token payload are not modelled. The claims are `{ id, role }`.
- `price` is an integer in minor units rather than a DECIMAL. Only its truthiness matters to the update rule.
- Request bodies are typed: `name` is a string, `price` and `quantity` are integers, and `None` means absent, `undefined` or `null` alike. A body field of another JSON type, and NaN, are not modelled.
- Parsing `req.params.id` from a string to an integer is not modelled. Handlers receive an integer key.
- Integer keys, quantities and the auto-increment counter are unbounded. The 32-bit INTEGER column range is not modelled.
- Response bodies are modelled only in part. The two update handlers return the saved row, login returns its token, and registration returns the stored row, hash included, as the code does. The rest of the JSON bodies is not modelled.
- GroceryItemModel.NewItem: a `quantity` passed as an explicit `null` at creation (stored as null) is not distinguished from an omitted one (defaulted to 0).
- AdminController.GroceryTable.UpdateInventory: an absent quantity is modelled as writing null into the nullable column. This is how the ORM is expected to save an `undefined` attribute; the ORM's own code is not part of this model.
- AuthMiddleware.Authenticate: "calls `next` exactly once" is stated as the `Proceed` outcome. `Dispatch` then runs the handler once; invocations of a callback are not counted.
- Concurrency between requests is not modelled. Each handler runs to completion on the table.
- The repository's test file is not used. Its expectations (200 from registration, a created item from the add stub) contradict the handlers.

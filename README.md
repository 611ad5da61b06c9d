# Users, inventory and orders over gRPC — a Dafny model

This project models three small gRPC services. Each keeps an in-memory map and answers
create and lookup requests against it.

- The **user service** stores users `{id, name, email}`. `CreateUser` refuses an empty
  name or email. `GetUser` refuses an empty id and reports an unknown id as not found.
- The **inventory service** stores items `{id, name, quantity}`. `CreateItem` refuses an
  empty name, then a negative quantity. `GetItem` behaves like `GetUser`.
- The **order service** is the coordinator. `CreateOrder` asks the user service for the
  user, then the inventory service for the item, then compares the item's quantity with
  the requested one. Any failed check is reported as `FailedPrecondition` and nothing is
  stored. On success the order is stored under the decimal numeral of the table's size
  plus one. `GetOrder` looks an order up.

Each service is a class whose map field the handlers update in place
(`UserService.UserServer`, `InventoryService.InventoryServer`,
`OrderService.OrderServer`). Each handler is proved against a pure function of the
tables (`NewUser`, `NewItem`, `Lookup`, `Place`, `Find`). The lemmas beside those
functions state the table invariants, the create-then-get round trips, and the
order-id scheme.

- The order server holds its two clients as references to the user and inventory
  server objects. They are fixed at construction. A client call fails exactly when the
  target's `Get*` handler returns an error.
- The id generator of the user and inventory services is a parameter `newId`. The
  caller supplies it, non-empty and not yet in the table.
- Status errors are the datatype `Rpc.Error`. A failed `CreateOrder` check carries the
  dependency's own status (`UserNotFound(cause)`, `ItemNotFound(cause)`) or
  `NotEnoughStock`.

Order ids are the invariant worth proving. `OrderService.NumberedKeys` says the keys
are exactly `"1" .. "n"` for a table of `n` orders. `Decimal` is proved injective
through the parser `ParseDecimal`. Together they show that the generated id
`Decimal(n + 1)` is never a key already in use. For calls made one at a time, an order
is therefore never overwritten. Concurrent calls are not covered: see the locking line
under "## Left out".

`CreateOrder` does not reserve stock atomically. Its own comment at
services/order/main.go:57 says a real application should. It does not check that the
order quantity is positive, and it has no timeout or `Unavailable` outcome. Its stock
"decrement" changes only the copy of the item carried in the inventory client's reply. The inventory table is never changed by an order, and a zero
or negative order quantity is accepted. The model keeps all of this.
`OrderService.StockIsNotReserved` shows two orders of 3 both accepted against a stock
of 5. `OrderService.TwoOrdersAgainstOneItem` runs the same scenario on the three server
objects and reads the item back with its stock still at 5.

## Model

| member | source | states |
|---|---|---|
| `UserService.NewUser` | services/user/main.go:30-46 | the create reply is an error exactly when the name or the email is empty, and that error is InvalidArgument; otherwise it is the user with the new id and the request's name and email |
| `UserService.Lookup` | services/user/main.go:49-63 | the get reply succeeds exactly for a non-empty id present in the table, and returns the stored user; an empty id gives InvalidArgument, an absent one NotFound |
| `UserService.LookupWellFormed` | services/user/main.go:54-62 | from a well-formed table, a found user is filed under the id asked for and has a name and an email |
| `UserService.CreateKeepsWellFormed` | services/user/main.go:31-45 | a successful create keeps every stored user non-empty in name and email and keyed by its id, and adds exactly the one fresh key |
| `UserService.CreateThenLookup` | services/user/main.go:35-62 | round trip: a lookup of the created id returns the created user with the request's name and email; every other id gives the same reply as before |
| `UserService.UserServer.constructor` | services/user/main.go:24-28 | a new server starts with an empty, well-formed table |
| `UserService.UserServer.CreateUser` | services/user/main.go:30-47 | an invalid request leaves the table unchanged; a valid one adds exactly the new id mapped to the new user, keeps the table well formed, and a lookup of that id then finds it |
| `UserService.UserServer.GetUser` | services/user/main.go:49-63 | the handler returns exactly the reply `Lookup` specifies and changes nothing |
| `InventoryService.NewItem` | services/inventory/main.go:29-49 | the create reply is an error exactly when the name is empty or the quantity negative; the name is checked first; a quantity of zero is accepted; success yields the item with the new id and the request's fields |
| `InventoryService.Lookup` | services/inventory/main.go:51-65 | the get reply succeeds exactly for a non-empty id present in the table, and returns the stored item; an empty id gives InvalidArgument before any lookup, an absent one NotFound |
| `InventoryService.LookupWellFormed` | services/inventory/main.go:56-64 | from a well-formed table, a found item is filed under the id asked for, has a name and a quantity of at least zero |
| `InventoryService.CreateKeepsWellFormed` | services/inventory/main.go:30-46 | a successful create keeps every stored item named, non-negative and keyed by its id, and adds exactly the one fresh key |
| `InventoryService.CreateThenLookup` | services/inventory/main.go:37-64 | round trip: a lookup of the created id returns the created item with the request's name and quantity; every other id gives the same reply as before |
| `InventoryService.InventoryServer.constructor` | services/inventory/main.go:23-27 | a new server starts with an empty, well-formed table |
| `InventoryService.InventoryServer.CreateItem` | services/inventory/main.go:29-49 | an invalid request leaves the table unchanged; a valid one adds exactly the new id mapped to the new item, keeps the table well formed, and a lookup of that id then finds it |
| `InventoryService.InventoryServer.GetItem` | services/inventory/main.go:51-65 | the handler returns exactly the reply `Lookup` specifies and changes nothing |
| `OrderService.Decimal` | services/order/main.go:61 | the "%d" rendering of a number is a non-empty string of digits with a leading zero only for zero |
| `OrderService.ParseDecimalInverts` | services/order/main.go:61 | reading a rendered numeral back gives the number it came from |
| `OrderService.DecimalInjective` | services/order/main.go:61 | two numbers render to the same id exactly when they are equal |
| `OrderService.IdsUpToMembers` | services/order/main.go:61 | the set of ids "1" .. n holds exactly the numerals of 1 to n |
| `OrderService.IdsUpToExcludesLater` | services/order/main.go:61 | the numeral of a number above n is not among "1" .. n |
| `OrderService.NextIdFresh` | services/order/main.go:61-68 | when the keys are "1" .. n, the generated id for n + 1 is not a key already in use |
| `OrderService.EmptyIdNeverStored` | services/order/main.go:73-76 | when the keys are "1" .. n, the empty id is never a key, so GetOrder("") is NotFound although it has no empty-id check |
| `OrderService.Place` | services/order/main.go:40-71 | the create reply succeeds exactly when the user is found, the item is found and its quantity is at least the requested one (no positivity check); success yields the order with id Decimal(n + 1) and the request's fields; every failure is FailedPrecondition; an empty or unknown user id is reported as a user failure whatever the item; then an unknown item; then not enough stock |
| `OrderService.Commit` | services/order/main.go:68 | the order table after a reply: a failed reply leaves it unchanged; a successful one adds exactly the order's own id, mapped to that order, and keeps every other entry |
| `OrderService.PlaceKeepsNumbered` | services/order/main.go:61-68 | if the keys are "1" .. n before, they are "1" .. n + 1 after a success, where the new id was not in use, and unchanged after a failure |
| `OrderService.PlaceKeepsEarlierOrders` | services/order/main.go:61-68 | every order stored before a create is still stored, unchanged, after it |
| `OrderService.AcceptanceIgnoresEarlierOrders` | services/order/main.go:53-58 | whether an order is accepted does not depend on the orders placed before: no order reserves stock |
| `OrderService.NonPositiveQuantityAccepted` | services/order/main.go:42-55 | with the user present and a well-formed item present, a zero or negative requested quantity is accepted |
| `OrderService.StockIsNotReserved` | services/order/main.go:53-68 | two orders of 3 against an item with 5 in stock are both accepted, with ids "1" and "2" |
| `OrderService.TwoOrdersAgainstOneItem` | services/order/main.go:40-71 | with the three servers wired together, after a user and an item with 5 in stock are created, two orders of 3 are both accepted with ids "1" and "2", and GetItem still reports 5 in stock |
| `OrderService.Find` | services/order/main.go:73-80 | the get reply succeeds exactly for a stored id and returns the stored order; otherwise it is NotFound |
| `OrderService.PlaceThenFind` | services/order/main.go:61-80 | round trip: a lookup of the id of a just-stored order returns that order with the request's user, item and quantity |
| `OrderService.OrderServer.constructor` | services/order/main.go:32-38 | a new server has an empty order table with numbered keys and holds the two clients given |
| `OrderService.OrderServer.CreateOrder` | services/order/main.go:40-71 | the handler returns the reply `Place` specifies, against the tables behind its two clients; the new order table is `Commit` of the old one and that reply, so the lemmas about `Place` and `Commit` apply to the handler; a failure leaves the orders unchanged; a success adds exactly the one new, previously unused key, and GetOrder on that id then returns the new order; the keys stay "1" .. n; the user and inventory tables are unchanged |
| `OrderService.OrderServer.GetOrder` | services/order/main.go:73-80 | the handler returns exactly the reply `Find` specifies and changes nothing |

## Left out

- `main()` of each service: TCP listeners, `grpc.Dial`, server registration,
  reflection and logging are I/O.
- Locking with `sync.RWMutex` and concurrency: every call is modelled as one sequential
  step. The order server declares a mutex but never locks it. `CreateOrder` reads
  `len(s.orders)` and writes `s.orders` (services/order/main.go:61,68) without a lock,
  and gRPC serves calls concurrently. Two concurrent calls can therefore take the same
  id n + 1, and the later write overwrites the earlier order. The fresh-id results
  (`NextIdFresh`, `PlaceKeepsNumbered`) hold only for calls made one at a time.
- `uuid.NewString()`: the id generator is a foreign call. It is the parameter `newId`,
  which the caller supplies non-empty and unused.
- Transport failures of the two clients: a client call is modelled as a direct call on
  the server object, so it fails only when that server's handler returns an error.
- Status message text: each status is its code plus the datum its message carries.
- Protobuf message types and int32 width: quantities are unbounded integers. The only
  arithmetic on them is the discarded decrement at services/order/main.go:58.
- Stock reservation, per-item locking, timeouts and compensation: the code has none of
  these.

/** The order service: an in-memory table of orders and the create
    handler that coordinates with the user and inventory services before
    storing an order. Order ids are the decimal numerals "1", "2", ...
    in creation order. */
module OrderService {
  import opened Rpc
  import UserService
  import InventoryService

  datatype Order = Order(id: string, userId: string, itemId: string, quantity: int)

  datatype CreateOrderRequest = CreateOrderRequest(userId: string, itemId: string, quantity: int)

  // ---------------------------------------------------------------------
  // Order ids: the "%d" rendering of a natural number.

  predicate IsDigits(s: string)
  {
    forall i :: 0 <= i < |s| ==> '0' <= s[i] <= '9'
  }

  function DigitChar(d: nat): (c: char)
    requires d < 10
    ensures '0' <= c <= '9'
  {
    (d + '0' as int) as char
  }

  function DigitValue(c: char): nat
    requires '0' <= c <= '9'
  {
    c as int - '0' as int
  }

  /** The decimal numeral of `n`, as fmt.Sprintf("%d", n) renders it:
      at least one digit, and no leading zero unless `n` is zero. */
  function Decimal(n: nat): (s: string)
    ensures |s| >= 1 && IsDigits(s)
    ensures s[0] == '0' <==> n == 0
  {
    if n < 10 then [DigitChar(n)] else Decimal(n / 10) + [DigitChar(n % 10)]
  }

  /** Reads a string of digits back as a number (most significant first). */
  function ParseDecimal(s: string): nat
    requires IsDigits(s)
  {
    if s == [] then 0
    else 10 * ParseDecimal(s[..|s| - 1]) + DigitValue(s[|s| - 1])
  }

  /** Reading a numeral back gives the number it was made from. */
  lemma {:induction false} ParseDecimalInverts(n: nat)
    ensures ParseDecimal(Decimal(n)) == n
  {
    if n >= 10 {
      var prefix := Decimal(n / 10);
      var s := prefix + [DigitChar(n % 10)];
      assert s[..|s| - 1] == prefix;
      ParseDecimalInverts(n / 10);
    }
  }

  /** Distinct numbers render as distinct ids. */
  lemma DecimalInjective(m: nat, n: nat)
    ensures Decimal(m) == Decimal(n) <==> m == n
  {
    ParseDecimalInverts(m);
    ParseDecimalInverts(n);
  }

  /** The ids "1" .. Decimal(n). */
  ghost function IdsUpTo(n: nat): set<string>
  {
    if n == 0 then {} else IdsUpTo(n - 1) + {Decimal(n)}
  }

  /** IdsUpTo(n) holds exactly the numerals of 1 .. n. */
  lemma {:induction false} IdsUpToMembers(n: nat, k: string)
    ensures k in IdsUpTo(n) <==> exists i: nat :: 1 <= i <= n && Decimal(i) == k
  {
    if n > 0 {
      IdsUpToMembers(n - 1, k);
      if k in IdsUpTo(n - 1) {
        var i: nat :| 1 <= i <= n - 1 && Decimal(i) == k;
        assert 1 <= i <= n && Decimal(i) == k;
      } else if k == Decimal(n) {
        assert 1 <= n <= n && Decimal(n) == k;
      }
    }
  }

  /** A numeral beyond n is not among "1" .. Decimal(n). */
  lemma IdsUpToExcludesLater(n: nat, m: nat)
    requires m > n
    ensures Decimal(m) !in IdsUpTo(n)
  {
    IdsUpToMembers(n, Decimal(m));
    if Decimal(m) in IdsUpTo(n) {
      var i: nat :| 1 <= i <= n && Decimal(i) == Decimal(m);
      DecimalInjective(i, m);
    }
  }

  /** The table invariant of the order server: the keys are exactly
      "1" .. |orders| and each order is filed under its own id. */
  ghost predicate NumberedKeys(orders: map<string, Order>)
  {
    && orders.Keys == IdsUpTo(|orders|)
    && forall k :: k in orders ==> orders[k].id == k
  }

  /** The id CreateOrder generates next is never a key already in use,
      so the store at services/order/main.go:68 never overwrites. */
  lemma NextIdFresh(orders: map<string, Order>)
    requires NumberedKeys(orders)
    ensures Decimal(|orders| + 1) !in orders
  {
    IdsUpToExcludesLater(|orders|, |orders| + 1);
  }

  /** GetOrder has no empty-id check, but "" is never a generated id. */
  lemma EmptyIdNeverStored(orders: map<string, Order>)
    requires NumberedKeys(orders)
    ensures "" !in orders
  {
    IdsUpToMembers(|orders|, "");
  }

  // ---------------------------------------------------------------------
  // The create handler as a function of the three tables.

  /** The reply CreateOrder gives for `req`, given the order table and the
      tables behind the user and inventory clients. The user is checked
      first, then the item, then the stock; the requested quantity is not
      checked for positivity. */
  function Place(orders: map<string, Order>, users: map<string, UserService.User>,
                 items: map<string, InventoryService.Item>, req: CreateOrderRequest): (r: Result<Order>)
    ensures r.Ok? <==>
      && req.userId != "" && req.userId in users
      && req.itemId != "" && req.itemId in items
      && req.quantity <= items[req.itemId].quantity
    ensures r.Ok? ==> r.value == Order(Decimal(|orders| + 1), req.userId, req.itemId, req.quantity)
    ensures r.Err? ==> r.error.FailedPrecondition?
    ensures req.userId == "" ==> r == Err(FailedPrecondition(UserNotFound(InvalidArgument(IdRequired))))
    ensures req.userId != "" && req.userId !in users ==>
      r == Err(FailedPrecondition(UserNotFound(NotFound(UserEntity, req.userId))))
    ensures UserService.Lookup(users, req.userId).Ok? && req.itemId == "" ==>
      r == Err(FailedPrecondition(ItemNotFound(InvalidArgument(IdRequired))))
    ensures UserService.Lookup(users, req.userId).Ok? && req.itemId != "" && req.itemId !in items ==>
      r == Err(FailedPrecondition(ItemNotFound(NotFound(ItemEntity, req.itemId))))
    ensures (&& UserService.Lookup(users, req.userId).Ok?
             && InventoryService.Lookup(items, req.itemId).Ok?
             && items[req.itemId].quantity < req.quantity) ==>
      r == Err(FailedPrecondition(NotEnoughStock))
  {
    match UserService.Lookup(users, req.userId)
    case Err(e) => Err(FailedPrecondition(UserNotFound(e)))
    case Ok(_) =>
      match InventoryService.Lookup(items, req.itemId)
      case Err(e) => Err(FailedPrecondition(ItemNotFound(e)))
      case Ok(item) =>
        if item.quantity < req.quantity then Err(FailedPrecondition(NotEnoughStock))
        else Ok(Order(Decimal(|orders| + 1), req.userId, req.itemId, req.quantity))
  }

  /** The order table after CreateOrder replied `r`: a successful reply is
      stored under its own id, every other entry is kept, and a failed
      reply stores nothing. */
  function Commit(orders: map<string, Order>, r: Result<Order>): (c: map<string, Order>)
    ensures r.Err? ==> c == orders
    ensures r.Ok? ==> c.Keys == orders.Keys + {r.value.id} && c[r.value.id] == r.value
    ensures forall k :: k in orders && (r.Ok? ==> k != r.value.id) ==> k in c && c[k] == orders[k]
  {
    if r.Ok? then orders[r.value.id := r.value] else orders
  }

  /** CreateOrder keeps the keys numbered: after a success they are
      "1" .. n+1 and the new key was not in use, after a failure the table
      is the same. */
  lemma PlaceKeepsNumbered(orders: map<string, Order>, users: map<string, UserService.User>,
                           items: map<string, InventoryService.Item>, req: CreateOrderRequest)
    requires NumberedKeys(orders)
    ensures var r := Place(orders, users, items, req);
      && NumberedKeys(Commit(orders, r))
      && (r.Ok? ==> r.value.id !in orders && |Commit(orders, r)| == |orders| + 1)
      && (r.Err? ==> Commit(orders, r) == orders)
  {
    var r := Place(orders, users, items, req);
    if r.Ok? {
      NextIdFresh(orders);
      var orders' := orders[r.value.id := r.value];
      assert orders'.Keys == IdsUpTo(|orders|) + {Decimal(|orders| + 1)};
    }
  }

  /** Orders are never rewritten: every order stored before a CreateOrder
      is stored unchanged after it. */
  lemma PlaceKeepsEarlierOrders(orders: map<string, Order>, users: map<string, UserService.User>,
                                items: map<string, InventoryService.Item>, req: CreateOrderRequest, k: string)
    requires NumberedKeys(orders)
    requires k in orders
    ensures var orders' := Commit(orders, Place(orders, users, items, req));
      k in orders' && orders'[k] == orders[k]
  {
    NextIdFresh(orders);
  }

  /** Whether an order is accepted does not depend on the orders already
      placed: no order lowers the stock a later order is checked against. */
  lemma AcceptanceIgnoresEarlierOrders(orders1: map<string, Order>, orders2: map<string, Order>,
                                       users: map<string, UserService.User>,
                                       items: map<string, InventoryService.Item>, req: CreateOrderRequest)
    ensures Place(orders1, users, items, req).Ok? <==> Place(orders2, users, items, req).Ok?
  {
  }

  /** With the user and a well-formed item present, a request for zero or
      a negative quantity is accepted. */
  lemma NonPositiveQuantityAccepted(orders: map<string, Order>, users: map<string, UserService.User>,
                                    items: map<string, InventoryService.Item>, req: CreateOrderRequest)
    requires InventoryService.WellFormed(items)
    requires req.userId != "" && req.userId in users
    requires req.itemId != "" && req.itemId in items
    requires req.quantity <= 0
    ensures Place(orders, users, items, req).Ok?
  {
  }

  /** Two orders of 3 against an item with 5 in stock are both accepted,
      since stock is never reserved. */
  lemma StockIsNotReserved()
    ensures var users := map["u" := UserService.User("u", "Ann", "a@x.com")];
      var items := map["w" := InventoryService.Item("w", "Widget", 5)];
      var req := CreateOrderRequest("u", "w", 3);
      var first := Place(map[], users, items, req);
      var second := Place(Commit(map[], first), users, items, req);
      first == Ok(Order("1", "u", "w", 3)) && second == Ok(Order("2", "u", "w", 3))
  {
  }

  /** The three servers wired together: a user and an item with 5 in
      stock are created, then two orders of 3 are placed. Both are
      accepted, and the item read back afterwards still has 5. */
  method TwoOrdersAgainstOneItem() returns (first: Result<Order>, second: Result<Order>,
                                            after: Result<InventoryService.Item>)
    ensures first == Ok(Order("1", "u", "w", 3)) && second == Ok(Order("2", "u", "w", 3))
    ensures after == Ok(InventoryService.Item("w", "Widget", 5))
  {
    var users := new UserService.UserServer();
    var inventory := new InventoryService.InventoryServer();
    var _ := users.CreateUser(UserService.CreateUserRequest("Ann", "a@x.com"), "u");
    var _ := inventory.CreateItem(InventoryService.CreateItemRequest("Widget", 5), "w");
    ghost var stock := inventory.items;
    assert "u" in users.users && stock["w"].quantity == 5;
    var server := new OrderServer(users, inventory);
    first := server.CreateOrder(CreateOrderRequest("u", "w", 3));
    assert Decimal(1) == "1" && first.Ok?;
    second := server.CreateOrder(CreateOrderRequest("u", "w", 3));
    assert |server.orders| == 2 && Decimal(2) == "2";
    after := inventory.GetItem("w");
    assert inventory.items == stock;
  }

  /** The reply GetOrder gives for `id`; there is no empty-id check. */
  function Find(orders: map<string, Order>, id: string): (r: Result<Order>)
    ensures r.Ok? <==> id in orders
    ensures r.Ok? ==> r.value == orders[id]
    ensures r.Err? ==> r.error == NotFound(OrderEntity, id)
  {
    if id in orders then Ok(orders[id]) else Err(NotFound(OrderEntity, id))
  }

  /** Round trip: GetOrder on the id of an order CreateOrder just stored
      returns that order. */
  lemma PlaceThenFind(orders: map<string, Order>, users: map<string, UserService.User>,
                      items: map<string, InventoryService.Item>, req: CreateOrderRequest)
    requires NumberedKeys(orders)
    requires Place(orders, users, items, req).Ok?
    ensures var r := Place(orders, users, items, req);
      Find(Commit(orders, r), r.value.id) == Ok(Order(r.value.id, req.userId, req.itemId, req.quantity))
  {
  }

  /** The server object. `orders` is the map the Go handlers update in
      place; the two clients are fixed when the server is built. */
  class OrderServer {
    var orders: map<string, Order>
    const userClient: UserService.UserServer
    const invClient: InventoryService.InventoryServer

    ghost predicate Valid()
      reads this
    {
      NumberedKeys(orders)
    }

    constructor (userClient: UserService.UserServer, invClient: InventoryService.InventoryServer)
      ensures Valid() && orders == map[]
      ensures this.userClient == userClient && this.invClient == invClient
    {
      this.userClient := userClient;
      this.invClient := invClient;
      orders := map[];
    }

    /** Checks the user, then the item, then the stock, through the
        clients; on success stores the order under the next numeral. */
    method CreateOrder(req: CreateOrderRequest) returns (r: Result<Order>)
      requires Valid()
      modifies this
      ensures Valid()
      ensures r == Place(old(orders), userClient.users, invClient.items, req)
      ensures r.Err? ==> orders == old(orders)
      ensures orders == Commit(old(orders), r)
      ensures r.Ok? ==> r.value.id !in old(orders) && orders == old(orders)[r.value.id := r.value]
      ensures r.Ok? ==> Find(orders, r.value.id) == r
      ensures |orders| == |old(orders)| + (if r.Ok? then 1 else 0)
      ensures userClient.users == old(userClient.users) && invClient.items == old(invClient.items)
    {
      var userResp := userClient.GetUser(req.userId);
      if userResp.Err? {
        return Err(FailedPrecondition(UserNotFound(userResp.error)));
      }
      var itemResp := invClient.GetItem(req.itemId);
      if itemResp.Err? {
        return Err(FailedPrecondition(ItemNotFound(itemResp.error)));
      }
      if itemResp.value.quantity < req.quantity {
        return Err(FailedPrecondition(NotEnoughStock));
      }
      // The decrement lands on the reply's copy of the item, not on the
      // inventory service's table.
      var item := itemResp.value.(quantity := itemResp.value.quantity - req.quantity);
      var id := Decimal(|orders| + 1);
      var ord := Order(id, req.userId, req.itemId, req.quantity);
      PlaceKeepsNumbered(orders, userClient.users, invClient.items, req);
      orders := orders[id := ord];
      r := Ok(ord);
    }

    /** Looks the id up; changes nothing. */
    method GetOrder(id: string) returns (r: Result<Order>)
      ensures r == Find(orders, id)
    {
      if id !in orders {
        return Err(NotFound(OrderEntity, id));
      }
      r := Ok(orders[id]);
    }
  }
}

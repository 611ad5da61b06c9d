/** The inventory service: an in-memory table of items keyed by id, with
    a create handler and a lookup handler. Nothing in the service lowers
    an item's quantity after it is created. */
module InventoryService {
  import opened Rpc

  datatype Item = Item(id: string, name: string, quantity: int)

  datatype CreateItemRequest = CreateItemRequest(name: string, quantity: int)

  /** The table invariant CreateItem keeps: each item is filed under its
      own id, has a name, and has a quantity of at least zero. */
  ghost predicate WellFormed(items: map<string, Item>)
  {
    forall id :: id in items ==>
      items[id].id == id && items[id].name != "" && items[id].quantity >= 0
  }

  /** The reply CreateItem gives for `req` when the id generator yields
      `newId`: the name is checked before the quantity, and a quantity of
      zero is accepted. */
  function NewItem(req: CreateItemRequest, newId: string): (r: Result<Item>)
    ensures r.Ok? <==> req.name != "" && req.quantity >= 0
    ensures req.name == "" ==> r == Err(InvalidArgument(NameRequired))
    ensures req.name != "" && req.quantity < 0 ==> r == Err(InvalidArgument(QuantityNegative))
    ensures r.Ok? ==> r.value == Item(newId, req.name, req.quantity)
  {
    if req.name == "" then Err(InvalidArgument(NameRequired))
    else if req.quantity < 0 then Err(InvalidArgument(QuantityNegative))
    else Ok(Item(newId, req.name, req.quantity))
  }

  /** The reply GetItem gives for `id` against the table `items`. */
  function Lookup(items: map<string, Item>, id: string): (r: Result<Item>)
    ensures r.Ok? <==> id != "" && id in items
    ensures r.Ok? ==> r.value == items[id]
    ensures id == "" ==> r == Err(InvalidArgument(IdRequired))
    ensures id != "" && id !in items ==> r == Err(NotFound(ItemEntity, id))
  {
    if id == "" then Err(InvalidArgument(IdRequired))
    else if id !in items then Err(NotFound(ItemEntity, id))
    else Ok(items[id])
  }

  /** What GetItem returns from a well-formed table is an item with a
      name and a non-negative quantity, filed under the id asked for. */
  lemma LookupWellFormed(items: map<string, Item>, id: string)
    requires WellFormed(items)
    ensures var r := Lookup(items, id);
      r.Ok? ==> r.value.id == id && r.value.name != "" && r.value.quantity >= 0
  {
  }

  /** A successful CreateItem keeps the table well formed, and adds
      exactly one entry when the new id is fresh. */
  lemma CreateKeepsWellFormed(items: map<string, Item>, req: CreateItemRequest, newId: string)
    requires WellFormed(items)
    requires newId != "" && newId !in items
    requires NewItem(req, newId).Ok?
    ensures var items' := items[newId := NewItem(req, newId).value];
      WellFormed(items') && items'.Keys == items.Keys + {newId} && |items'| == |items| + 1
  {
  }

  /** Round trip: GetItem on the id a successful CreateItem returned
      yields the item with the request's name and quantity, and every
      other id gives the reply it gave before. */
  lemma CreateThenLookup(items: map<string, Item>, req: CreateItemRequest, newId: string, other: string)
    requires newId != ""
    requires NewItem(req, newId).Ok?
    ensures var items' := items[newId := NewItem(req, newId).value];
      && Lookup(items', newId) == Ok(Item(newId, req.name, req.quantity))
      && (other != newId ==> Lookup(items', other) == Lookup(items, other))
  {
  }

  /** The server object; `items` is the map the Go handlers update in place. */
  class InventoryServer {
    var items: map<string, Item>

    ghost predicate Valid()
      reads this
    {
      WellFormed(items)
    }

    constructor ()
      ensures Valid() && items == map[]
    {
      items := map[];
    }

    /** Validates the request, then stores the new item under `newId`,
        the id the generator produced. */
    method CreateItem(req: CreateItemRequest, newId: string) returns (r: Result<Item>)
      requires Valid()
      requires newId != "" && newId !in items
      modifies this
      ensures Valid()
      ensures r == NewItem(req, newId)
      ensures r.Err? ==> items == old(items)
      ensures r.Ok? ==> items == old(items)[newId := r.value] && |items| == |old(items)| + 1
      ensures r.Ok? ==> Lookup(items, newId) == r
    {
      if req.name == "" {
        return Err(InvalidArgument(NameRequired));
      }
      if req.quantity < 0 {
        return Err(InvalidArgument(QuantityNegative));
      }
      var item := Item(newId, req.name, req.quantity);
      items := items[newId := item];
      r := Ok(item);
    }

    /** Refuses an empty id before looking it up; changes nothing. */
    method GetItem(id: string) returns (r: Result<Item>)
      ensures r == Lookup(items, id)
    {
      if id == "" {
        return Err(InvalidArgument(IdRequired));
      }
      if id !in items {
        return Err(NotFound(ItemEntity, id));
      }
      r := Ok(items[id]);
    }
  }
}

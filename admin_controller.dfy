/** The inventory handlers. The GroceryItem table is an object whose `items`
    map the handlers look rows up in (`findByPk`) and write back to (`save`,
    `destroy`). Each handler returns the HTTP status it sends. */
module AdminController {
  import opened JsValues
  import opened GroceryItemModel

  /** The body of PUT /admin/grocery/:id: every field is optional. */
  datatype ItemPatch = ItemPatch(name: Option<string>, price: Option<int>, quantity: Option<int>)

  /** The row after `field = body.field || row.field` for each of the three fields. */
  function Patch(item: GroceryItem, body: ItemPatch): GroceryItem {
    item.(
      name := if TruthyString(body.name) then body.name.value else item.name,
      price := if TruthyNumber(body.price) then body.price.value else item.price,
      quantity := if TruthyNumber(body.quantity) then body.quantity else item.quantity)
  }

  /** The table after `updateGroceryItem(id, body)`. */
  function UpdatedItems(items: map<int, GroceryItem>, id: int, body: ItemPatch): map<int, GroceryItem> {
    if id in items then items[id := Patch(items[id], body)] else items
  }

  /** The table after `deleteGroceryItem(id)`. */
  function DeletedItems(items: map<int, GroceryItem>, id: int): map<int, GroceryItem> {
    items - {id}
  }

  /** The table after `updateInventory(id, quantity)`. */
  function RestockedItems(items: map<int, GroceryItem>, id: int, quantity: Option<int>): map<int, GroceryItem> {
    if id in items then items[id := items[id].(quantity := quantity)] else items
  }

  /** The status of a handler that first looks the row up by primary key. */
  function LookupStatus(items: map<int, GroceryItem>, id: int): int {
    if id in items then 200 else 404
  }

  class GroceryTable {
    var items: map<int, GroceryItem>
    var nextId: int

    ghost predicate Valid()
      reads this
    {
      ItemsValid(items, nextId)
    }

    constructor ()
      ensures Valid() && items == map[] && nextId == 1
    {
      items := map[];
      nextId := 1;
    }

    /** `GroceryItem.create(attrs)`: a new row under the next auto-increment key. */
    method Create(attrs: ItemCreation) returns (item: GroceryItem)
      requires Valid()
      modifies this
      ensures Valid()
      ensures item == NewItem(old(nextId), attrs) && item.id !in old(items)
      ensures items == old(items)[item.id := item] && nextId == old(nextId) + 1
    {
      InsertPreservesValid(items, nextId, attrs);
      item := NewItem(nextId, attrs);
      items := items[nextId := item];
      nextId := nextId + 1;
    }

    /** POST /admin/grocery: answers 201 without reading the body or touching the table. */
    method AddGroceryItem(body: ItemCreation) returns (status: int)
      ensures status == 201
    {
      status := 201;
    }

    /** GET /admin/grocery: answers 200 without reading the table. */
    method ViewGroceryItems() returns (status: int)
      ensures status == 200
    {
      status := 200;
    }

    /** PUT /admin/grocery/:id: a missing row gives 404; otherwise each field
        is overwritten only by a truthy value, the row is saved and returned. */
    method UpdateGroceryItem(id: int, body: ItemPatch) returns (status: int, updated: Option<GroceryItem>)
      requires Valid()
      modifies this
      ensures Valid() && nextId == old(nextId)
      ensures status == LookupStatus(old(items), id)
      ensures items == UpdatedItems(old(items), id, body)
      ensures updated == if id in old(items) then Some(items[id]) else None
    {
      if id !in items {
        return 404, None;
      }
      var item := items[id];
      item := item.(name := if TruthyString(body.name) then body.name.value else item.name);
      item := item.(price := if TruthyNumber(body.price) then body.price.value else item.price);
      item := item.(quantity := if TruthyNumber(body.quantity) then body.quantity else item.quantity);
      items := items[id := item];
      status, updated := 200, Some(item);
    }

    /** DELETE /admin/grocery/:id: a missing row gives 404; otherwise the row is destroyed. */
    method DeleteGroceryItem(id: int) returns (status: int)
      requires Valid()
      modifies this
      ensures Valid() && nextId == old(nextId)
      ensures status == LookupStatus(old(items), id)
      ensures items == DeletedItems(old(items), id)
    {
      if id !in items {
        return 404;
      }
      items := items - {id};
      status := 200;
    }

    /** PATCH /admin/grocery/:id/inventory: a missing row gives 404; otherwise
        `quantity` is overwritten with the request's value, whatever it is. */
    method UpdateInventory(id: int, quantity: Option<int>) returns (status: int, updated: Option<GroceryItem>)
      requires Valid()
      modifies this
      ensures Valid() && nextId == old(nextId)
      ensures status == LookupStatus(old(items), id)
      ensures items == RestockedItems(old(items), id, quantity)
      ensures updated == if id in old(items) then Some(items[id]) else None
    {
      if id !in items {
        return 404, None;
      }
      var item := items[id];
      item := item.(quantity := quantity);
      items := items[id := item];
      status, updated := 200, Some(item);
    }
  }

  /** On a key that is not in the table all three lookups answer 404 and change nothing. */
  lemma MissingItemUntouched(items: map<int, GroceryItem>, id: int, body: ItemPatch, quantity: Option<int>)
    requires id !in items
    ensures LookupStatus(items, id) == 404
    ensures UpdatedItems(items, id, body) == items
    ensures DeletedItems(items, id) == items
    ensures RestockedItems(items, id, quantity) == items
  {
  }

  /** The `||` rule field by field: a truthy value replaces the field; an absent,
      empty or zero value leaves the old one. The key never changes. */
  lemma PatchFields(item: GroceryItem, body: ItemPatch)
    ensures Patch(item, body).id == item.id
    ensures body.name.Some? && body.name.value != "" ==> Patch(item, body).name == body.name.value
    ensures body.name == None || body.name == Some("") ==> Patch(item, body).name == item.name
    ensures body.price.Some? && body.price.value != 0 ==> Patch(item, body).price == body.price.value
    ensures body.price == None || body.price == Some(0) ==> Patch(item, body).price == item.price
    ensures body.quantity.Some? && body.quantity.value != 0 ==> Patch(item, body).quantity == body.quantity
    ensures body.quantity == None || body.quantity == Some(0) ==> Patch(item, body).quantity == item.quantity
  {
  }

  /** Applying the same partial update twice is the same as applying it once. */
  lemma PatchIdempotent(item: GroceryItem, body: ItemPatch)
    ensures Patch(Patch(item, body), body) == Patch(item, body)
  {
  }

  /** Updating an existing row changes only that row, and keeps its key. */
  lemma UpdateFrame(items: map<int, GroceryItem>, id: int, body: ItemPatch)
    requires id in items
    ensures UpdatedItems(items, id, body).Keys == items.Keys
    ensures UpdatedItems(items, id, body)[id] == Patch(items[id], body)
    ensures UpdatedItems(items, id, body)[id].id == items[id].id
    ensures forall k :: k in items && k != id ==> UpdatedItems(items, id, body)[k] == items[k]
  {
  }

  /** Deleting an existing row removes exactly that key and leaves every other row. */
  lemma DeleteFrame(items: map<int, GroceryItem>, id: int)
    requires id in items
    ensures id !in DeletedItems(items, id)
    ensures DeletedItems(items, id).Keys == items.Keys - {id}
    ensures |DeletedItems(items, id)| == |items| - 1
    ensures forall k :: k in items && k != id ==> DeletedItems(items, id)[k] == items[k]
  {
  }

  /** The inventory update overwrites `quantity`, zero and negative values
      included, and leaves the key, `name`, `price` and every other row alone. */
  lemma RestockFrame(items: map<int, GroceryItem>, id: int, quantity: Option<int>)
    requires id in items
    ensures RestockedItems(items, id, quantity).Keys == items.Keys
    ensures RestockedItems(items, id, quantity)[id].quantity == quantity
    ensures RestockedItems(items, id, quantity)[id].id == items[id].id
    ensures RestockedItems(items, id, quantity)[id].name == items[id].name
    ensures RestockedItems(items, id, quantity)[id].price == items[id].price
    ensures forall k :: k in items && k != id ==> RestockedItems(items, id, quantity)[k] == items[k]
  {
  }

  /** The two handlers disagree on a zero quantity: the inventory update stores
      it, the general update keeps the old value. */
  lemma ZeroQuantityContrast(items: map<int, GroceryItem>, id: int)
    requires id in items
    ensures RestockedItems(items, id, Some(0))[id].quantity == Some(0)
    ensures UpdatedItems(items, id, ItemPatch(None, None, Some(0)))[id] == items[id]
  {
  }

  /** The inventory update is idempotent. */
  lemma RestockIdempotent(items: map<int, GroceryItem>, id: int, quantity: Option<int>)
    ensures RestockedItems(RestockedItems(items, id, quantity), id, quantity) == RestockedItems(items, id, quantity)
  {
  }

  /** All three writes keep the table invariant with the same key counter. */
  lemma WritesPreserveValid(items: map<int, GroceryItem>, nextId: int, id: int, body: ItemPatch, quantity: Option<int>)
    requires ItemsValid(items, nextId)
    ensures ItemsValid(UpdatedItems(items, id, body), nextId)
    ensures ItemsValid(DeletedItems(items, id), nextId)
    ensures ItemsValid(RestockedItems(items, id, quantity), nextId)
  {
  }
}

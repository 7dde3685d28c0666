/** The GroceryItem table schema: its record type, creation defaults and the
    invariant every stored table keeps. */
module GroceryItemModel {
  import opened JsValues

  /** A stored row. `name` and `price` are NOT NULL columns, so they are plain
      values; `quantity` is a nullable INTEGER column. `price` is a DECIMAL in
      the store and is kept here in minor currency units. */
  datatype GroceryItem = GroceryItem(id: int, name: string, price: int, quantity: Option<int>)

  /** Creation attributes: the key is assigned by the table, `quantity` may be omitted. */
  datatype ItemCreation = ItemCreation(name: string, price: int, quantity: Option<int>)

  /** The row the table stores for `attrs` under the auto-increment key `id`. */
  function NewItem(id: int, attrs: ItemCreation): (item: GroceryItem)
    ensures item.id == id && item.name == attrs.name && item.price == attrs.price
    ensures item.quantity.Some?
    ensures attrs.quantity.None? ==> item.quantity == Some(0)
    ensures attrs.quantity.Some? ==> item.quantity == attrs.quantity
  {
    var quantity := match attrs.quantity
      case None => 0
      case Some(q) => q;
    GroceryItem(id, attrs.name, attrs.price, Some(quantity))
  }

  /** Table invariant: every row is stored under its own primary key, and every
      key is an auto-increment value already handed out (below `nextId`). */
  ghost predicate ItemsValid(items: map<int, GroceryItem>, nextId: int) {
    && 1 <= nextId
    && forall k :: k in items ==> items[k].id == k && 1 <= k < nextId
  }

  /** Primary keys are distinct across the table. */
  lemma DistinctIds(items: map<int, GroceryItem>, nextId: int, a: int, b: int)
    requires ItemsValid(items, nextId)
    requires a in items && b in items && a != b
    ensures items[a].id != items[b].id
  {
  }

  /** Inserting a fresh row under the next key keeps the invariant with the
      counter advanced. */
  lemma InsertPreservesValid(items: map<int, GroceryItem>, nextId: int, attrs: ItemCreation)
    requires ItemsValid(items, nextId)
    ensures nextId !in items
    ensures ItemsValid(items[nextId := NewItem(nextId, attrs)], nextId + 1)
  {
  }
}

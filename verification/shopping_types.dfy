/** The data model of the shopping slice: items, lists and the store state,
    plus the predicates the reducers' contracts are phrased in. */
module ShoppingTypes {
  import opened Wrappers

  /** Item ids come from `Date.now().toString()`; they are opaque strings here. */
  type Id = string

  /** ISO-8601 timestamps produced by `new Date().toISOString()`, kept opaque. */
  type Timestamp = string

  /** A purchasable entry. `quantity` and `price` are never computed with by
      the slice, so they are carried as opaque integers. */
  datatype Item = Item(id: Id, name: string, quantity: int, price: int, purchased: bool)

  /** The payload of `addItem`: an item without its `id` and `purchased` fields. */
  datatype NewItem = NewItem(name: string, quantity: int, price: int)

  datatype ShoppingList = ShoppingList(
    name: string,
    items: seq<Item>,
    createdAt: Timestamp,
    completedAt: Option<Timestamp>)

  /** `currentListIndex` is a plain number in the source: nothing keeps it
      within the bounds of `recentLists`. */
  datatype ShoppingState = ShoppingState(
    recentLists: seq<ShoppingList>,
    currentListIndex: Option<int>)

  /** The item with its purchase flag inverted and every other field kept. */
  function Flip(x: Item): (r: Item)
    ensures r.id == x.id && r.name == x.name
    ensures r.quantity == x.quantity && r.price == x.price
    ensures r.purchased != x.purchased
  {
    x.(purchased := !x.purchased)
  }

  /** The completion condition: at least one item, and every item purchased. */
  predicate AllPurchased(items: seq<Item>) {
    |items| > 0 && forall j :: 0 <= j < |items| ==> items[j].purchased
  }

  /** `completedAt` is present exactly when the list is complete. */
  predicate CompletionConsistent(l: ShoppingList) {
    l.completedAt.Some? <==> AllPurchased(l.items)
  }

  predicate AllConsistent(lists: seq<ShoppingList>) {
    forall j :: 0 <= j < |lists| ==> CompletionConsistent(lists[j])
  }

  /** Some item of `items` carries the id `id`. */
  predicate HasId(items: seq<Item>, id: Id) {
    exists j :: 0 <= j < |items| && items[j].id == id
  }

  /** The selection is absent or names an existing list: the condition under
      which the item reducers do not throw on `state.recentLists[index]`. */
  predicate SelectionInRange(s: ShoppingState) {
    s.currentListIndex.None? || 0 <= s.currentListIndex.value < |s.recentLists|
  }

  /** `r` differs from `s` at most in the list at position `i`. */
  predicate UpdatedAt(s: ShoppingState, r: ShoppingState, i: int) {
    && |r.recentLists| == |s.recentLists|
    && r.currentListIndex == s.currentListIndex
    && forall j :: 0 <= j < |s.recentLists| && j != i ==> r.recentLists[j] == s.recentLists[j]
  }

  /** Name and creation time are never touched by an item operation. */
  predicate SameHeader(before: ShoppingList, after: ShoppingList) {
    after.name == before.name && after.createdAt == before.createdAt
  }
}

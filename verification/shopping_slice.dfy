/** The eight reducers of `shoppingSlice`, each a pure function of the
    previous state and the action payload. The clock reading (`now`) and
    the generated item id (`freshId`) are parameters, since the source
    reads them from `new Date()` and `Date.now()`. */
module ShoppingSlice {
  import opened Wrappers
  import opened ShoppingTypes
  import Sequences
  import Items

  /** No lists and nothing selected. */
  const InitialState := ShoppingState([], None)

  /** The start state satisfies both invariants the run lemmas assume:
      every list's completion agrees with its items, and the selection is
      in range. */
  lemma InitialStateWellFormed()
    ensures AllConsistent(InitialState.recentLists)
    ensures SelectionInRange(InitialState)
    ensures InitialState.currentListIndex.None?
  {
  }

  /** `completedAt` recomputed as the three item-editing reducers do:
      the current time when the list is complete, absent otherwise. */
  function RecomputeCompletion(l: ShoppingList, now: Timestamp): (r: ShoppingList)
    ensures r.items == l.items && SameHeader(l, r)
    ensures CompletionConsistent(r)
    ensures r.completedAt.Some? ==> r.completedAt.value == now
  {
    l.(completedAt := if AllPurchased(l.items) then Some(now) else None)
  }

  /** Replaces the lists wholesale (hydration from storage). The selection
      is left as it was, even when it no longer fits the new lists. */
  function LoadLists(s: ShoppingState, lists: seq<ShoppingList>): (r: ShoppingState)
    ensures r.recentLists == lists
    ensures r.currentListIndex == s.currentListIndex
  {
    s.(recentLists := lists)
  }

  /** Sets the selection to the payload without any range check. */
  function SetCurrentList(s: ShoppingState, index: Option<int>): (r: ShoppingState)
    ensures r.recentLists == s.recentLists
    ensures r.currentListIndex == index
  {
    s.(currentListIndex := index)
  }

  /** Puts a new empty list at the front and selects it. */
  function CreateList(s: ShoppingState, name: string, now: Timestamp): (r: ShoppingState)
    ensures |r.recentLists| == |s.recentLists| + 1
    ensures r.recentLists[0] == ShoppingList(name, [], now, None)
    ensures forall j :: 0 <= j < |s.recentLists| ==> r.recentLists[j + 1] == s.recentLists[j]
    ensures r.currentListIndex == Some(0)
    ensures SelectionInRange(r)
  {
    var newList := ShoppingList(name, [], now, None);
    ShoppingState([newList] + s.recentLists, Some(0))
  }

  /** Drops the list at position `index` (nothing, when `index` is not a
      position) and clears the selection only if it was that very index.
      A selection above `index` is NOT shifted down. */
  function DeleteList(s: ShoppingState, index: int): (r: ShoppingState)
    ensures 0 <= index < |s.recentLists| ==>
      r.recentLists == s.recentLists[..index] + s.recentLists[index + 1..]
    ensures !(0 <= index < |s.recentLists|) ==> r.recentLists == s.recentLists
    ensures s.currentListIndex == Some(index) ==> r.currentListIndex == None
    ensures s.currentListIndex != Some(index) ==> r.currentListIndex == s.currentListIndex
  {
    var lists := Sequences.RemoveIndex(s.recentLists, index);
    ShoppingState(lists, if s.currentListIndex == Some(index) then None else s.currentListIndex)
  }

  /** Appends a fresh, unpurchased item to the selected list and clears its
      completion time; a no-op when nothing is selected. */
  function AddItem(s: ShoppingState, payload: NewItem, freshId: Id): (r: ShoppingState)
    requires SelectionInRange(s)
    ensures s.currentListIndex.None? ==> r == s
    ensures s.currentListIndex.Some? ==> UpdatedAt(s, r, s.currentListIndex.value)
    ensures s.currentListIndex.Some? ==>
      var before := s.recentLists[s.currentListIndex.value];
      var after := r.recentLists[s.currentListIndex.value];
      && SameHeader(before, after)
      && |after.items| == |before.items| + 1
      && after.items[..|before.items|] == before.items
      && after.items[|before.items|] == Item(freshId, payload.name, payload.quantity, payload.price, false)
      && after.completedAt == None
      && CompletionConsistent(after)
  {
    match s.currentListIndex
    case None => s
    case Some(i) =>
      var list := s.recentLists[i];
      var newItem := Item(freshId, payload.name, payload.quantity, payload.price, false);
      var items := list.items + [newItem];
      assert !AllPurchased(items) by { assert !items[|items| - 1].purchased; }
      s.(recentLists := s.recentLists[i := list.(items := items, completedAt := None)])
  }

  /** Flips `purchased` on every item of the selected list whose id is `id`
      and recomputes completion; a no-op when nothing is selected. */
  function TogglePurchased(s: ShoppingState, id: Id, now: Timestamp): (r: ShoppingState)
    requires SelectionInRange(s)
    ensures s.currentListIndex.None? ==> r == s
    ensures s.currentListIndex.Some? ==> UpdatedAt(s, r, s.currentListIndex.value)
    ensures s.currentListIndex.Some? ==>
      var before := s.recentLists[s.currentListIndex.value];
      var after := r.recentLists[s.currentListIndex.value];
      && SameHeader(before, after)
      && |after.items| == |before.items|
      && (forall j :: 0 <= j < |before.items| ==>
            after.items[j] == (if before.items[j].id == id then Flip(before.items[j]) else before.items[j]))
      && CompletionConsistent(after)
      && (after.completedAt.Some? ==> after.completedAt.value == now)
  {
    match s.currentListIndex
    case None => s
    case Some(i) =>
      var list := s.recentLists[i];
      var updated := list.(items := Items.ToggleMatching(list.items, id));
      s.(recentLists := s.recentLists[i := RecomputeCompletion(updated, now)])
  }

  /** Replaces every item of the selected list whose id is `payload.id` by
      `payload` and recomputes completion; a no-op when nothing is selected. */
  function EditItem(s: ShoppingState, payload: Item, now: Timestamp): (r: ShoppingState)
    requires SelectionInRange(s)
    ensures s.currentListIndex.None? ==> r == s
    ensures s.currentListIndex.Some? ==> UpdatedAt(s, r, s.currentListIndex.value)
    ensures s.currentListIndex.Some? ==>
      var before := s.recentLists[s.currentListIndex.value];
      var after := r.recentLists[s.currentListIndex.value];
      && SameHeader(before, after)
      && |after.items| == |before.items|
      && (forall j :: 0 <= j < |before.items| ==>
            after.items[j] == (if before.items[j].id == payload.id then payload else before.items[j]))
      && CompletionConsistent(after)
      && (after.completedAt.Some? ==> after.completedAt.value == now)
  {
    match s.currentListIndex
    case None => s
    case Some(i) =>
      var list := s.recentLists[i];
      var updated := list.(items := Items.ReplaceMatching(list.items, payload));
      s.(recentLists := s.recentLists[i := RecomputeCompletion(updated, now)])
  }

  /** Removes every item of the selected list whose id is `id` and
      recomputes completion; a no-op when nothing is selected. */
  function DeleteItem(s: ShoppingState, id: Id, now: Timestamp): (r: ShoppingState)
    requires SelectionInRange(s)
    ensures s.currentListIndex.None? ==> r == s
    ensures s.currentListIndex.Some? ==> UpdatedAt(s, r, s.currentListIndex.value)
    ensures s.currentListIndex.Some? ==>
      var before := s.recentLists[s.currentListIndex.value];
      var after := r.recentLists[s.currentListIndex.value];
      && SameHeader(before, after)
      && (forall x :: x in after.items <==> x in before.items && x.id != id)
      && (after.items == before.items <==> !HasId(before.items, id))
      && after.items == Items.RemoveMatching(before.items, id)
      && CompletionConsistent(after)
      && (after.completedAt.Some? ==> after.completedAt.value == now)
  {
    match s.currentListIndex
    case None => s
    case Some(i) =>
      var list := s.recentLists[i];
      var updated := list.(items := Items.RemoveMatching(list.items, id));
      s.(recentLists := s.recentLists[i := RecomputeCompletion(updated, now)])
  }
}

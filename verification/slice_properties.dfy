/** Properties that relate several reducers: round trips between
    inverse operations, and the exact behaviour of the selection under
    `deleteList`. */
module SliceProperties {
  import opened Wrappers
  import opened ShoppingTypes
  import opened ShoppingSlice
  import Items

  /** Deleting the list just created gives back the previous lists, with
      nothing selected. */
  lemma CreateThenDeleteFirst(s: ShoppingState, name: string, now: Timestamp)
    ensures DeleteList(CreateList(s, name, now), 0) == s.(currentListIndex := None)
  {
  }

  /** Adding an item under a fresh id and deleting that id again restores
      the selected list's items; nothing else in the store changes. */
  lemma AddThenDeleteItem(s: ShoppingState, payload: NewItem, freshId: Id, now: Timestamp)
    requires SelectionInRange(s) && s.currentListIndex.Some?
    requires !HasId(s.recentLists[s.currentListIndex.value].items, freshId)
    ensures var r := DeleteItem(AddItem(s, payload, freshId), freshId, now);
      && UpdatedAt(s, r, s.currentListIndex.value)
      && r.recentLists[s.currentListIndex.value].items == s.recentLists[s.currentListIndex.value].items
      && SameHeader(s.recentLists[s.currentListIndex.value], r.recentLists[s.currentListIndex.value])
  {
    var i := s.currentListIndex.value;
    var a := AddItem(s, payload, freshId);
    var before := s.recentLists[i].items;
    var added := a.recentLists[i].items;
    var newItem := Item(freshId, payload.name, payload.quantity, payload.price, false);
    assert added == before + [newItem];
    Items.RemoveMatchingAppend(before, [newItem], freshId);
    assert HasId([newItem], freshId) by { assert [newItem][0].id == freshId; }
    assert Items.RemoveMatching([newItem], freshId) == [];
  }

  /** Toggling the same id twice restores the selected list's items, and
      restores the whole store when that list was incomplete beforehand. */
  lemma ToggleTwice(s: ShoppingState, id: Id, now1: Timestamp, now2: Timestamp)
    requires SelectionInRange(s) && s.currentListIndex.Some?
    ensures var r := TogglePurchased(TogglePurchased(s, id, now1), id, now2);
      && UpdatedAt(s, r, s.currentListIndex.value)
      && r.recentLists[s.currentListIndex.value].items == s.recentLists[s.currentListIndex.value].items
    ensures var l := s.recentLists[s.currentListIndex.value];
      l.completedAt.None? && !AllPurchased(l.items) ==>
        TogglePurchased(TogglePurchased(s, id, now1), id, now2) == s
  {
  }

  /** Editing with the same payload twice is the same as editing once. */
  lemma EditTwice(s: ShoppingState, payload: Item, now: Timestamp)
    requires SelectionInRange(s)
    ensures EditItem(EditItem(s, payload, now), payload, now) == EditItem(s, payload, now)
  {
    if s.currentListIndex.Some? {
      var i := s.currentListIndex.value;
      var e := EditItem(s, payload, now);
      var ee := EditItem(e, payload, now);
      assert ee.recentLists[i] == e.recentLists[i];
      assert ee.recentLists == e.recentLists;
    }
  }

  /** Deleting the same item id twice is the same as deleting it once. */
  lemma DeleteItemTwice(s: ShoppingState, id: Id, now: Timestamp)
    requires SelectionInRange(s)
    ensures DeleteItem(DeleteItem(s, id, now), id, now) == DeleteItem(s, id, now)
  {
  }

  /** After `deleteList` the selection still fits the lists exactly unless
      a list other than the selected one was deleted while the LAST list
      was selected: the unshifted index then points one past the end. */
  lemma DeleteListSelectionInRange(s: ShoppingState, index: int)
    requires SelectionInRange(s)
    ensures SelectionInRange(DeleteList(s, index)) <==>
      !(s.currentListIndex == Some(|s.recentLists| - 1) && 0 <= index < |s.recentLists| - 1)
  {
  }

  /** When a list in front of the selected one is deleted, the selection
      keeps its number and so designates the list that used to follow the
      selected one, or nothing at all. */
  lemma DeleteListSelectionDrifts(s: ShoppingState, index: int)
    requires s.currentListIndex.Some?
    requires 0 <= index < s.currentListIndex.value < |s.recentLists|
    ensures var r := DeleteList(s, index);
      var c := s.currentListIndex.value;
      && r.currentListIndex == Some(c)
      && (c + 1 < |s.recentLists| ==> r.recentLists[c] == s.recentLists[c + 1])
      && (c + 1 == |s.recentLists| ==> !SelectionInRange(r))
  {
  }

  /** A concrete instance: with two lists and the second one open,
      deleting the first leaves an index that no longer names a list. */
  lemma DeleteListOutOfRangeExample(a: ShoppingList, b: ShoppingList)
    ensures var s := ShoppingState([a, b], Some(1));
      SelectionInRange(s) && !SelectionInRange(DeleteList(s, 0))
  {
  }

  /** `loadLists` keeps the selection, which can therefore fall outside the
      newly loaded lists. */
  lemma LoadListsKeepsSelection(s: ShoppingState, lists: seq<ShoppingList>)
    requires s.currentListIndex.Some? && 0 <= s.currentListIndex.value
    ensures SelectionInRange(LoadLists(s, lists)) <==> s.currentListIndex.value < |lists|
  {
  }
}

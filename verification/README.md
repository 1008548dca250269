# Shopping-list slice, modelled in Dafny

This project models the state container of a mobile shopping-list app: the
Redux slice `shopping` in `store/shoppingSlice.ts`. Its state is an ordered
sequence of shopping lists (`recentLists`) plus a nullable selection
(`currentListIndex`). Each list has a name, an ordered sequence of items, a
creation time and an optional completion time. Eight case reducers change the
state: `loadLists`, `setCurrentList`, `createList`, `deleteList`, `addItem`,
`togglePurchased`, `editItem` and `deleteItem`.

Each reducer is a pure function `State × payload → State`. The two impure
inputs of the source become parameters: `now` stands for
`new Date().toISOString()` and `freshId` for `Date.now().toString()`.

Modules:

- `Wrappers` (`wrappers.dfy`): `Option`, for `completedAt?` and for `number | null`.
- `ShoppingTypes` (`shopping_types.dfy`): `Item`, `ShoppingList`, `ShoppingState`, and the predicates the contracts use. `AllPurchased` is the completion condition. `CompletionConsistent` says `completedAt` is present exactly when the list is complete. `SelectionInRange` is the condition under which item reducers do not throw. `UpdatedAt` says only one list changed.
- `Sequences` (`sequences.dfy`): removal by position, as `deleteList`'s `filter((_, i) => i !== index)` does it.
- `Items` (`items.dfy`): the id-keyed `map`/`filter` passes of `togglePurchased`, `editItem` and `deleteItem`.
- `ShoppingSlice` (`shopping_slice.dfy`): the eight reducers.
- `Store` (`store.dfy`): the action type, the dispatching reducer, and runs of successive dispatches.
- `SliceProperties` (`slice_properties.dfy`): round trips and the selection behaviour of `deleteList`.

Behaviour of the code worth knowing, modelled as written:

- `deleteList` never shifts the selection. It clears the selection only when the deleted position equals it. A selection above the deleted position keeps its number. The selection can then name a different list, or no list at all (`DeleteListSelectionInRange`, `DeleteListSelectionDrifts`, `DeleteListOutOfRangeExample`).
- So there is no "selection is always a valid index" invariant. The item reducers take `SelectionInRange` as a precondition, because the source throws a TypeError on `state.recentLists[index]` otherwise. `Store.Run` returns `None` for that crash.
- `loadLists` replaces the lists and keeps the selection (`LoadListsKeepsSelection`).
- `addItem` does not recompute `completedAt`. It sets it to absent. That agrees with the completion rule, because the new item is unpurchased.

The missing index shift cannot be observed through the screen in `app/(tabs)/index.tsx`. That screen offers list deletion only in the overview, which it renders only while nothing is selected. `Store.ScreenDisciplineKeepsSelectionInRange` and `Store.DisciplinedRunNeverThrows` prove that dispatching under that discipline keeps the selection in range and never throws. For `loadLists`, the discipline assumes hydration finishes before a list is opened.

## Model

| member | source | states |
|---|---|---|
| ShoppingSlice.LoadLists | store/shoppingSlice.ts:32-34 | the lists become the payload; the selection is kept as it was |
| ShoppingSlice.SetCurrentList | store/shoppingSlice.ts:35-37 | the selection becomes the payload with no range check; the lists are untouched |
| ShoppingSlice.CreateList | store/shoppingSlice.ts:38-46 | a new list with the given name, no items, `createdAt = now` and no `completedAt` sits at position 0; every previous list follows, shifted by one, in order; the selection is 0 and in range |
| ShoppingSlice.DeleteList | store/shoppingSlice.ts:47-50 | for a valid position, exactly that list is removed: the result is the lists before it followed by the lists after it; for any other number the lists are unchanged; the selection is cleared iff it equals the deleted position, and otherwise keeps its number |
| ShoppingSlice.AddItem | store/shoppingSlice.ts:51-57 | with no selection the state is unchanged; otherwise only the selected list changes: one item `{payload, id: freshId, purchased: false}` is appended after the unchanged existing items, and `completedAt` is cleared, which agrees with the completion rule |
| ShoppingSlice.TogglePurchased | store/shoppingSlice.ts:58-67 | with no selection the state is unchanged; otherwise only the selected list changes: the item count is kept, items with the id are flipped and all others are kept, and `completedAt` is present (= now) iff the list is non-empty and fully purchased |
| ShoppingSlice.EditItem | store/shoppingSlice.ts:68-75 | with no selection the state is unchanged; otherwise only the selected list changes: the item count is kept, every item with the payload's id becomes the payload and the others are kept, and `completedAt` follows the completion rule |
| ShoppingSlice.DeleteItem | store/shoppingSlice.ts:76-83 | with no selection the state is unchanged; otherwise only the selected list changes: the items left are exactly the old items whose id differs, in their original order and with their multiplicity, as `Items.RemoveMatching` characterises the filter; they are unchanged iff no item had the id; `completedAt` follows the completion rule |
| ShoppingSlice.InitialStateWellFormed | store/shoppingSlice.ts:23-26 | the initial state (no lists, nothing selected) satisfies the completion invariant and has its selection in range, so the run lemmas apply from the app's start state |
| ShoppingSlice.RecomputeCompletion | store/shoppingSlice.ts:65-66 | after recomputation, `completedAt` is present iff there are items and all are purchased, and then it equals the current time; items, name and creation time are kept |
| Sequences.RemoveIndex | store/shoppingSlice.ts:48 | filtering by position equals `xs[..k] + xs[k+1..]` for a valid `k` and is the identity for any other `k` |
| Sequences.RemoveIndexShifts | store/shoppingSlice.ts:48 | element-wise reading of the removal: after removal at a valid `k`, the length drops by one, earlier elements keep their positions, and later ones move down by one |
| Items.ToggleMatching | store/shoppingSlice.ts:62-64 | the length is kept; exactly the items with the id are flipped and the rest are kept |
| Items.ToggleMatchingInvolutive | store/shoppingSlice.ts:62-64 | toggling the same id twice gives back the original items |
| Items.ReplaceMatching | store/shoppingSlice.ts:72 | the length is kept; exactly the items with the payload's id are replaced by the payload |
| Items.ReplaceMatchingKeepsIds | store/shoppingSlice.ts:72 | an edit never changes which id sits at which position |
| Items.ReplaceMatchingIdempotent | store/shoppingSlice.ts:72 | the same edit applied twice is the same as applied once |
| Items.RemoveMatching | store/shoppingSlice.ts:80 | an item survives iff it was present and its id differs; the result equals the input iff no item had the id |
| Items.RemoveMatchingAppend | store/shoppingSlice.ts:80 | the filter distributes over concatenation, so the surviving items keep their relative order |
| Items.RemoveMatchingIdempotent | store/shoppingSlice.ts:80 | deleting an id a second time changes nothing |
| Store.Reduce | store/shoppingSlice.ts:31-84 | item actions are no-ops with no selection and otherwise change only the selected list; every reducer keeps all lists' `completedAt` consistent with their items, provided a loaded snapshot is consistent |
| Store.RunPreservesCompletion | store/shoppingSlice.ts:51-83 | after any run of dispatches that does not throw, every list's `completedAt` is present iff it is non-empty and fully purchased, given a consistent start and consistent loaded snapshots |
| Store.ItemRunWithoutSelection | store/shoppingSlice.ts:51-83 | with nothing selected, any run of item actions neither throws nor changes the state |
| Store.ScreenDisciplineKeepsSelectionInRange | store/shoppingSlice.ts:31-84 | a dispatch that follows the rules the screen in `app/(tabs)/index.tsx` obeys (lines 63-128) keeps the selection in range |
| Store.DisciplinedRunNeverThrows | store/shoppingSlice.ts:31-84 | a run of dispatches that follows those screen rules never throws, and it ends with the selection in range |
| SliceProperties.CreateThenDeleteFirst | store/shoppingSlice.ts:38-50 | deleting the list just created restores the previous lists and leaves nothing selected |
| SliceProperties.AddThenDeleteItem | store/shoppingSlice.ts:51-83 | adding an item under a fresh id and then deleting that id restores the selected list's items, name and creation time; no other list and not the selection changes |
| SliceProperties.ToggleTwice | store/shoppingSlice.ts:58-67 | toggling one id twice restores the selected list's items, and restores the whole state when that list was incomplete with no `completedAt` |
| SliceProperties.EditTwice | store/shoppingSlice.ts:68-75 | `editItem` with the same payload and time is idempotent |
| SliceProperties.DeleteItemTwice | store/shoppingSlice.ts:76-83 | `deleteItem` with the same id and time is idempotent |
| SliceProperties.DeleteListSelectionInRange | store/shoppingSlice.ts:47-50 | starting from a selection in range, the selection stays in range after `deleteList` iff it is not the case that the last list was selected and another list was deleted |
| SliceProperties.DeleteListSelectionDrifts | store/shoppingSlice.ts:47-50 | deleting a list in front of the selected one keeps the selection's number, which then names the following list or lies out of range |
| SliceProperties.DeleteListOutOfRangeExample | store/shoppingSlice.ts:47-50 | with two lists and the second selected, deleting the first leaves the selection out of range |
| SliceProperties.LoadListsKeepsSelection | store/shoppingSlice.ts:32-34 | after `loadLists`, a kept selection is in range iff it is below the new list count |

## Left out

- The UI components `components/ItemCard.tsx` and `components/AddItemModal.tsx` are left out. They hold dialogs, local form state, styling and display formatting. Their blank-name guard is a caller-side check, so the reducers accept any name. Their `Number(x) || 1` and `Number(x) || 0` defaults depend on JavaScript number coercion.
- `app/App.tsx` is left out. It is provider and navigation wiring with no logic.
- The screen `app/(tabs)/index.tsx` is left out except for its dispatch rules. Its relative-date formatting (`formatDate`), its confirmation dialogs and its layout are presentation. The rules it follows when dispatching, which depend on its conditional rendering, are modelled as `Store.ScreenDiscipline`.
- List indices are modelled as `int`. In the source they are JavaScript numbers, so `setCurrentList` and `deleteList` also accept fractional or NaN values. The model does not represent those values. The screen only passes array positions.
- Persistence (`AsyncStorage` get/set of the serialized lists) and the store setup are left out. The store setup is not part of this model. I/O is outside a pure model.
- The outstanding total, `sum(quantity × price)` over unpurchased items, is left out. It is computed in the screen with floating point and rounded for display. The slice never computes with `quantity` or `price`, so they are opaque integers here.
- Real clock and id generation are left out. Both are parameters. `Date.now()` does not guarantee a fresh id, so the round-trip lemma assumes freshness as a precondition.
- Item actions with an out-of-range selection are left out of the reducers. The source throws on them. The reducers require `SelectionInRange`, and `Store.Run` maps such a dispatch to `None`.

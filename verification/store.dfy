/** The slice as a Redux reducer: one action type per case reducer, the
    dispatch function over actions, and runs of successive dispatches. */
module Store {
  import opened Wrappers
  import opened ShoppingTypes
  import Slice = ShoppingSlice

  /** The action creators exported by the slice, with their payloads. */
  datatype Action =
    | LoadLists(lists: seq<ShoppingList>)
    | SetCurrentList(index: Option<int>)
    | CreateList(name: string)
    | DeleteList(listIndex: int)
    | AddItem(item: NewItem)
    | TogglePurchased(id: Id)
    | EditItem(payload: Item)
    | DeleteItem(id: Id)
  {
    /** The actions whose reducer dereferences the selected list. */
    predicate IsItemOp() {
      AddItem? || TogglePurchased? || EditItem? || DeleteItem?
    }
  }

  /** One dispatch, together with the clock reading and the generated id
      the reducer would observe while handling it. */
  datatype Step = Step(action: Action, now: Timestamp, freshId: Id)

  /** The reducer does not throw: an item action needs the selection to be
      absent or to name an existing list. */
  predicate Enabled(s: ShoppingState, a: Action) {
    a.IsItemOp() ==> SelectionInRange(s)
  }

  /** The behaviour the screen follows when it dispatches: lists are
      deleted and hydrated only from the overview (nothing selected), only
      displayed lists are opened, and items are only edited inside an open
      list. */
  predicate ScreenDiscipline(s: ShoppingState, a: Action) {
    && (a.LoadLists? ==> s.currentListIndex.None?)
    && (a.DeleteList? ==> s.currentListIndex.None?)
    && (a.SetCurrentList? && a.index.Some? ==> 0 <= a.index.value < |s.recentLists|)
    && (a.IsItemOp() ==> s.currentListIndex.Some?)
  }

  /** The slice's reducer: routes each action to its case reducer. */
  function Reduce(s: ShoppingState, a: Action, now: Timestamp, freshId: Id): (r: ShoppingState)
    requires Enabled(s, a)
    ensures a.IsItemOp() && s.currentListIndex.None? ==> r == s
    ensures a.IsItemOp() && s.currentListIndex.Some? ==> UpdatedAt(s, r, s.currentListIndex.value)
    ensures AllConsistent(s.recentLists) && (a.LoadLists? ==> AllConsistent(a.lists)) ==>
      AllConsistent(r.recentLists)
  {
    match a
    case LoadLists(lists) => Slice.LoadLists(s, lists)
    case SetCurrentList(index) => Slice.SetCurrentList(s, index)
    case CreateList(name) => Slice.CreateList(s, name, now)
    case DeleteList(k) => Slice.DeleteList(s, k)
    case AddItem(item) => Slice.AddItem(s, item, freshId)
    case TogglePurchased(id) => Slice.TogglePurchased(s, id, now)
    case EditItem(payload) => Slice.EditItem(s, payload, now)
    case DeleteItem(id) => Slice.DeleteItem(s, id, now)
  }

  /** Dispatches the steps in order. `None` stands for the TypeError the
      source raises when an item action meets an out-of-range selection. */
  function Run(s: ShoppingState, steps: seq<Step>): Option<ShoppingState>
    decreases |steps|
  {
    if |steps| == 0 then Some(s)
    else if !Enabled(s, steps[0].action) then None
    else Run(Reduce(s, steps[0].action, steps[0].now, steps[0].freshId), steps[1..])
  }

  /** Every list's `completedAt` agrees with its items after any run of
      dispatches, provided it did so initially and every hydrated snapshot
      did too. */
  lemma {:induction false} RunPreservesCompletion(s: ShoppingState, steps: seq<Step>)
    requires AllConsistent(s.recentLists)
    requires forall k :: 0 <= k < |steps| && steps[k].action.LoadLists? ==>
      AllConsistent(steps[k].action.lists)
    ensures Run(s, steps).Some? ==> AllConsistent(Run(s, steps).value.recentLists)
    decreases |steps|
  {
    if |steps| > 0 && Enabled(s, steps[0].action) {
      var next := Reduce(s, steps[0].action, steps[0].now, steps[0].freshId);
      assert forall k :: 0 <= k < |steps[1..]| ==> steps[1..][k] == steps[k + 1];
      RunPreservesCompletion(next, steps[1..]);
    }
  }

  /** With nothing selected, any run of item actions leaves the state as it
      was and never throws. */
  lemma {:induction false} ItemRunWithoutSelection(s: ShoppingState, steps: seq<Step>)
    requires s.currentListIndex.None?
    requires forall k :: 0 <= k < |steps| ==> steps[k].action.IsItemOp()
    ensures Run(s, steps) == Some(s)
    decreases |steps|
  {
    if |steps| > 0 {
      assert forall k :: 0 <= k < |steps[1..]| ==> steps[1..][k] == steps[k + 1];
      ItemRunWithoutSelection(s, steps[1..]);
    }
  }

  /** Under the screen's dispatch discipline the selection stays in range,
      so the missing index shift in `deleteList` is never observed. */
  lemma ScreenDisciplineKeepsSelectionInRange(s: ShoppingState, a: Action, now: Timestamp, freshId: Id)
    requires SelectionInRange(s)
    requires ScreenDiscipline(s, a)
    ensures SelectionInRange(Reduce(s, a, now, freshId))
  {
  }

  /** The same over a whole run: a run that follows the discipline at every
      step never throws and ends with the selection in range. */
  predicate DisciplinedRun(s: ShoppingState, steps: seq<Step>)
    requires SelectionInRange(s)
    decreases |steps|
  {
    |steps| == 0 ||
    (ScreenDiscipline(s, steps[0].action) &&
     (ScreenDisciplineKeepsSelectionInRange(s, steps[0].action, steps[0].now, steps[0].freshId);
      DisciplinedRun(Reduce(s, steps[0].action, steps[0].now, steps[0].freshId), steps[1..])))
  }

  lemma {:induction false} DisciplinedRunNeverThrows(s: ShoppingState, steps: seq<Step>)
    requires SelectionInRange(s)
    requires DisciplinedRun(s, steps)
    ensures Run(s, steps).Some?
    ensures SelectionInRange(Run(s, steps).value)
    decreases |steps|
  {
    if |steps| > 0 {
      var next := Reduce(s, steps[0].action, steps[0].now, steps[0].freshId);
      ScreenDisciplineKeepsSelectionInRange(s, steps[0].action, steps[0].now, steps[0].freshId);
      DisciplinedRunNeverThrows(next, steps[1..]);
    }
  }
}

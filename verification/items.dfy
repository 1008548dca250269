/** The three item-sequence transformations of the slice, each keyed on
    the item id: the per-item update of `togglePurchased` and of
    `editItem`, and the removal of `deleteItem`. */
module Items {
  import opened ShoppingTypes

  /** Flips `purchased` on every item whose id is `id` and keeps the rest. */
  function ToggleMatching(items: seq<Item>, id: Id): (r: seq<Item>)
    ensures |r| == |items|
    ensures forall j :: 0 <= j < |items| ==>
      r[j] == (if items[j].id == id then Flip(items[j]) else items[j])
  {
    if |items| == 0 then []
    else
      [if items[0].id == id then Flip(items[0]) else items[0]] + ToggleMatching(items[1..], id)
  }

  /** Replaces every item whose id is `payload.id` by `payload` and keeps the rest. */
  function ReplaceMatching(items: seq<Item>, payload: Item): (r: seq<Item>)
    ensures |r| == |items|
    ensures forall j :: 0 <= j < |items| ==>
      r[j] == (if items[j].id == payload.id then payload else items[j])
  {
    if |items| == 0 then []
    else
      [if items[0].id == payload.id then payload else items[0]] + ReplaceMatching(items[1..], payload)
  }

  /** Drops every item whose id is `id` and keeps the rest, in their order. */
  function RemoveMatching(items: seq<Item>, id: Id): (r: seq<Item>)
    ensures |r| <= |items|
    ensures forall x :: x in r <==> x in items && x.id != id
    ensures r == items <==> !HasId(items, id)
  {
    if |items| == 0 then []
    else
      var rest := RemoveMatching(items[1..], id);
      assert HasId(items, id) <==> items[0].id == id || HasId(items[1..], id) by {
        if HasId(items[1..], id) {
          var j :| 0 <= j < |items[1..]| && items[1..][j].id == id;
          assert items[j + 1].id == id;
        }
        if HasId(items, id) && items[0].id != id {
          var j :| 0 <= j < |items| && items[j].id == id;
          assert items[1..][j - 1].id == id;
        }
      }
      assert items == [items[0]] + items[1..];
      (if items[0].id == id then [] else [items[0]]) + rest
  }

  /** Filtering distributes over concatenation: the kept items of `a + b`
      are the kept items of `a` followed by the kept items of `b`, so the
      filter keeps the surviving items in their original order. */
  lemma {:induction false} RemoveMatchingAppend(a: seq<Item>, b: seq<Item>, id: Id)
    ensures RemoveMatching(a + b, id) == RemoveMatching(a, id) + RemoveMatching(b, id)
    decreases |a|
  {
    if |a| == 0 {
      assert a + b == b;
    } else {
      assert (a + b)[1..] == a[1..] + b;
      RemoveMatchingAppend(a[1..], b, id);
    }
  }

  /** Removing an id twice is the same as removing it once. */
  lemma RemoveMatchingIdempotent(items: seq<Item>, id: Id)
    ensures RemoveMatching(RemoveMatching(items, id), id) == RemoveMatching(items, id)
  {
  }

  /** Toggling the same id twice restores the original items. */
  lemma ToggleMatchingInvolutive(items: seq<Item>, id: Id)
    ensures ToggleMatching(ToggleMatching(items, id), id) == items
  {
  }

  /** Editing never changes which id sits at which position. */
  lemma ReplaceMatchingKeepsIds(items: seq<Item>, payload: Item)
    ensures forall j :: 0 <= j < |items| ==> ReplaceMatching(items, payload)[j].id == items[j].id
  {
  }

  /** Applying the same edit twice is the same as applying it once. */
  lemma ReplaceMatchingIdempotent(items: seq<Item>, payload: Item)
    ensures ReplaceMatching(ReplaceMatching(items, payload), payload) == ReplaceMatching(items, payload)
  {
  }
}

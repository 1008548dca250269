/** Position-based removal, as `deleteList` performs it: a filter that
    keeps every list except the one at the given position. */
module Sequences {

  /** Keeps every element whose position differs from `k`. The definition
      walks the sequence the way the filter does, element by element, so
      that it does not presuppose that `k` is a valid position. */
  function RemoveIndex<T>(xs: seq<T>, k: int): (r: seq<T>)
    ensures 0 <= k < |xs| ==> r == xs[..k] + xs[k + 1..]
    ensures !(0 <= k < |xs|) ==> r == xs
    decreases |xs|
  {
    if |xs| == 0 then []
    else
      var last := |xs| - 1;
      var init := xs[..last];
      var kept := RemoveIndex(init, k);
      var r := kept + (if last == k then [] else [xs[last]]);
      assert last == k ==> r == xs[..k] + xs[k + 1..] by {
        if last == k { assert xs[k + 1..] == []; }
      }
      assert 0 <= k < last ==> r == xs[..k] + xs[k + 1..] by {
        if 0 <= k < last {
          assert init[..k] == xs[..k];
          assert init[k + 1..] + [xs[last]] == xs[k + 1..];
        }
      }
      assert !(0 <= k < |xs|) ==> r == xs by {
        if !(0 <= k < |xs|) { assert init + [xs[last]] == xs; }
      }
      r
  }

  /** Element-wise reading of `RemoveIndex` at a valid position: everything
      before `k` stays put, everything after it moves down by one. */
  lemma RemoveIndexShifts<T>(xs: seq<T>, k: int)
    requires 0 <= k < |xs|
    ensures |RemoveIndex(xs, k)| == |xs| - 1
    ensures forall j :: 0 <= j < k ==> RemoveIndex(xs, k)[j] == xs[j]
    ensures forall j :: k <= j < |xs| - 1 ==> RemoveIndex(xs, k)[j] == xs[j + 1]
  {
  }
}

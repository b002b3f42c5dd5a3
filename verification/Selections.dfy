/** Picking items out of a list in order. */
module Selections {

  /** The places of the wanted items, from the left. */
  function PlacesOf(wanted: seq<bool>): (at: seq<nat>)
    ensures |at| <= |wanted|
  {
    if wanted == [] then []
    else
      var n := |wanted| - 1;
      PlacesOf(wanted[..n]) + if wanted[n] then [n] else []
  }

  predicate Listed(at: seq<nat>, i: nat) {
    exists k :: 0 <= k < |at| && at[k] == i
  }

  /** They are in ascending order, and wanted. */
  lemma {:induction false} PlacesAscend(wanted: seq<bool>, at: seq<nat>)
    requires at == PlacesOf(wanted)
    ensures forall k :: 0 <= k < |at| ==> at[k] < |wanted| && wanted[at[k]]
    ensures forall j, k :: 0 <= j < k < |at| ==> at[j] < at[k]
  {
    if wanted != [] {
      PlacesAscend(wanted[..|wanted| - 1], PlacesOf(wanted[..|wanted| - 1]));
    }
  }

  /** And every wanted place is listed. */
  lemma {:induction false} PlaceIsListed(wanted: seq<bool>, i: nat)
    requires i < |wanted| && wanted[i]
    ensures Listed(PlacesOf(wanted), i)
    decreases |wanted|
  {
    var n := |wanted| - 1;
    var before, at := PlacesOf(wanted[..n]), PlacesOf(wanted);
    if i < n {
      PlaceIsListed(wanted[..n], i);
      var k :| 0 <= k < |before| && before[k] == i;
      assert at[k] == i;
    } else {
      assert at[|before|] == i;
    }
  }
}

/**
 * Repeated `dict.update`: starting from `{}`, each map in turn is merged
 * in, and on a shared key the later map's value replaces the earlier one.
 */
module PyDict {

  /** `{}` followed by `d.update(m)` for each `m` of `ms`, in order. */
  function UpdateAll<V>(ms: seq<map<int, V>>): map<int, V> {
    if ms == [] then map[] else UpdateAll(ms[..|ms| - 1]) + ms[|ms| - 1]
  }

  /** True when no map after position `j` has key `k`. */
  predicate LastWith<V>(ms: seq<map<int, V>>, j: int, k: int)
    requires 0 <= j < |ms|
  {
    k in ms[j] && forall j' :: j < j' < |ms| ==> k !in ms[j']
  }

  /** The merged keys are exactly the keys of the merged maps. */
  lemma {:induction false} UpdateAllKeys<V>(ms: seq<map<int, V>>)
    ensures forall k :: k in UpdateAll(ms) <==> exists j :: 0 <= j < |ms| && k in ms[j]
  {
    if ms != [] {
      var init := ms[..|ms| - 1];
      UpdateAllKeys(init);
      assert UpdateAll(ms) == UpdateAll(init) + ms[|ms| - 1];
      forall k ensures k in UpdateAll(ms) <==> exists j :: 0 <= j < |ms| && k in ms[j] {
        if k in UpdateAll(ms) && k !in ms[|ms| - 1] {
          var j :| 0 <= j < |init| && k in init[j];
          assert k in ms[j];
        }
        if exists j :: 0 <= j < |ms| && k in ms[j] {
          var j :| 0 <= j < |ms| && k in ms[j];
          if j < |ms| - 1 { assert k in init[j]; }
        }
      }
    }
  }

  /** Later wins: a merged key carries the value of the last map that has it. */
  lemma {:induction false} UpdateAllLaterWins<V>(ms: seq<map<int, V>>, j: int, k: int)
    requires 0 <= j < |ms| && LastWith(ms, j, k)
    ensures k in UpdateAll(ms) && UpdateAll(ms)[k] == ms[j][k]
  {
    if j < |ms| - 1 {
      var init := ms[..|ms| - 1];
      assert LastWith(init, j, k) by {
        forall j' | j < j' < |init| ensures k !in init[j'] { assert init[j'] == ms[j']; }
      }
      UpdateAllLaterWins(init, j, k);
    }
  }
}

/**
 * Iteration over a hash map.  Java's `HashMap` promises no order, so every
 * walk over keys or values is modelled as SOME enumeration of the keys, each
 * exactly once; whatever is proved holds for every such order.
 */
module Iteration {

  /** `keys` enumerates the keys of `m`, each exactly once: one iteration order of the map. */
  ghost predicate Lists<T>(keys: seq<string>, m: map<string, T>) {
    (forall i, j :: 0 <= i < j < |keys| ==> keys[i] != keys[j]) &&
    (forall id :: id in m <==> id in keys)
  }

  /** The values of `m` met when visiting `keys` in order. */
  function InOrder<T>(keys: seq<string>, m: map<string, T>): (vs: seq<T>)
    requires forall id :: id in keys ==> id in m
    ensures |vs| == |keys|
    ensures forall i :: 0 <= i < |keys| ==> vs[i] == m[keys[i]]
  {
    if keys == [] then [] else InOrder(keys[..|keys| - 1], m) + [m[keys[|keys| - 1]]]
  }

  /** `vs` is the value collection of `m` in some iteration order. */
  ghost predicate IsValuesOf<T>(vs: seq<T>, m: map<string, T>) {
    exists keys :: Lists(keys, m) && vs == InOrder(keys, m)
  }

  /** An enumeration of a map's keys is exactly as long as the map. */
  lemma {:induction false} ListsLength<T>(keys: seq<string>, m: map<string, T>)
    requires Lists(keys, m)
    ensures |keys| == |m|
    decreases |keys|
  {
    if keys != [] {
      var last := keys[|keys| - 1];
      var init := keys[..|keys| - 1];
      assert forall id :: id in init ==> id != last;
      ListsLength(init, m - {last});
    } else {
      assert m.Keys == {};
    }
  }
}

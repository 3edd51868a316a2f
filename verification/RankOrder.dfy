/**
 * The order in which a stable ascending sort by key lists the indices of a table. A sort
 * descending by key is this order for the negated keys.
 */
module RankOrder {

  /** Index `i` is listed before index `j`: a smaller key, or an equal one met earlier. */
  predicate Before(keys: seq<real>, i: nat, j: nat)
    requires i < |keys| && j < |keys|
  {
    keys[i] < keys[j] || (keys[i] == keys[j] && i < j)
  }

  ghost predicate Ranked(keys: seq<real>, order: seq<nat>) {
    && (forall a :: 0 <= a < |order| ==> order[a] < |keys|)
    && (forall a, b :: 0 <= a < b < |order| ==> Before(keys, order[a], order[b]))
  }

  /** How many of the ranked indices come before index `i`. */
  function Position(keys: seq<real>, order: seq<nat>, i: nat): (k: nat)
    requires Ranked(keys, order) && i < |keys| && i !in order
    ensures k <= |order|
    ensures forall a :: 0 <= a < k ==> Before(keys, order[a], i)
    ensures forall a :: k <= a < |order| ==> Before(keys, i, order[a])
  {
    if order == [] then 0
    else if Before(keys, order[|order| - 1], i) then |order|
    else Position(keys, order[..|order| - 1], i)
  }

  /** `order` with index `i` placed after its first `k` entries. */
  function Placed(order: seq<nat>, k: nat, i: nat): (longer: seq<nat>)
    requires k <= |order|
    ensures |longer| == |order| + 1
    ensures forall x :: x in longer <==> x in order || x == i
  {
    assert order == order[..k] + order[k..];
    order[..k] + [i] + order[k..]
  }

  lemma PlacedIsRanked(keys: seq<real>, order: seq<nat>, k: nat, i: nat)
    requires Ranked(keys, order) && k <= |order| && i < |keys|
    requires forall a :: 0 <= a < k ==> Before(keys, order[a], i)
    requires forall a :: k <= a < |order| ==> Before(keys, i, order[a])
    ensures Ranked(keys, Placed(order, k, i))
  {
  }

  /** The first `m` indices in rank order: each exactly once. */
  function StableOrder(keys: seq<real>, m: nat): (order: seq<nat>)
    requires m <= |keys|
    ensures |order| == m && Ranked(keys, order)
    ensures forall i: nat :: i in order <==> i < m
  {
    if m == 0 then []
    else
      var shorter := StableOrder(keys, m - 1);
      var k := Position(keys, shorter, m - 1);
      PlacedIsRanked(keys, shorter, k, m - 1);
      Placed(shorter, k, m - 1)
  }

  predicate InRange(order: seq<nat>, bound: nat) {
    forall a :: 0 <= a < |order| ==> order[a] < bound
  }

  /** The entries of a table in rank order. */
  function Listed<T>(table: seq<T>, order: seq<nat>): (listed: seq<T>)
    requires InRange(order, |table|)
    ensures |listed| == |order| && forall a :: 0 <= a < |order| ==> listed[a] == table[order[a]]
  {
    seq(|order|, a requires 0 <= a < |order| => table[order[a]])
  }

  function CountTrue(bits: seq<bool>): (n: nat)
    ensures n <= |bits|
  {
    if bits == [] then 0 else CountTrue(bits[..|bits| - 1]) + if bits[|bits| - 1] then 1 else 0
  }
}

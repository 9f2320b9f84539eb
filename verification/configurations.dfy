/**
 Rows of a chain batch: one configuration is a sequence of quantum numbers, one
 per site, each drawn from a finite list of allowed local states. Quantum numbers
 are opaque values compared only for equality.
 */
module Configurations {

  /** No quantum number occurs twice in the list of allowed local states. */
  predicate Distinct<V(==)>(xs: seq<V>) {
    forall i, j :: 0 <= i < j < |xs| ==> xs[i] != xs[j]
  }

  /** Every site of `row` holds one of the allowed local states. */
  predicate AllIn<V(==)>(row: seq<V>, localStates: seq<V>) {
    forall s :: 0 <= s < |row| ==> row[s] in localStates
  }

  /** Position of an allowed local state in the list of allowed local states. */
  function IndexOf<V(==)>(xs: seq<V>, v: V): (i: nat)
    requires v in xs
    ensures i < |xs| && xs[i] == v
    ensures forall j :: 0 <= j < i ==> xs[j] != v
  {
    if xs[0] == v then 0 else 1 + IndexOf(xs[1..], v)
  }

  /** In a list without repetitions the position of a value is unique. */
  lemma IndexOfUnique<V>(xs: seq<V>, i: nat)
    requires Distinct(xs) && i < |xs|
    ensures IndexOf(xs, xs[i]) == i
  {
  }

  /** Number of sites at which two configurations of the same length differ. */
  function DiffCount<V(==)>(a: seq<V>, b: seq<V>): (n: nat)
    requires |a| == |b|
    ensures n <= |a|
    ensures n == 0 <==> a == b
  {
    if |a| == 0 then 0
    else
      var rest := DiffCount(a[1..], b[1..]);
      assert a == [a[0]] + a[1..] && b == [b[0]] + b[1..];
      (if a[0] != b[0] then 1 else 0) + rest
  }

  /** Changing a single site to a different value changes exactly one entry. */
  lemma {:induction false} DiffCountSingleUpdate<V>(a: seq<V>, i: nat, v: V)
    requires i < |a| && a[i] != v
    ensures DiffCount(a, a[i := v]) == 1
  {
    var b := a[i := v];
    if i == 0 {
      assert a[1..] == b[1..];
    } else {
      assert b[1..] == a[1..][i - 1 := v];
      DiffCountSingleUpdate(a[1..], i - 1, v);
    }
  }
}

/** Facts about multiplication and Euclidean division by a positive divisor. */
module Arith {

  lemma MulMonotone(q: nat, k: int)
    requires k >= 1
    ensures q <= q * k
  {
  }

  /** Division with remainder is unique, for a positive divisor. */
  lemma DivModUnique(d: int, k: int, q: int, m: int)
    requires k > 0 && 0 <= m < k && d == q * k + m
    ensures d / k == q && d % k == m
  {
    var q' := d / k;
    var m' := d % k;
    assert d == q' * k + m';
    if q' < q {
      MulGap(q, q', k);
      assert false;
    } else if q' > q {
      MulGap(q', q, k);
      assert false;
    }
  }

  lemma MulGap(a: int, b: int, k: int)
    requires a > b && k > 0
    ensures a * k - b * k >= k
  {
    MulMonotone(a - b - 1, k);
    Distrib(a, b, k);
    Distrib(a - b, 1, k);
  }

  lemma Distrib(a: int, b: int, k: int)
    ensures (a - b) * k == a * k - b * k
  {
  }

  /** Going from `d - 1` to `d` adds one to the quotient exactly when `d` is a multiple of `k`. */
  lemma DivSuccessor(d: int, k: int)
    requires d >= 1 && k > 0
    ensures d / k == (d - 1) / k + (if d % k == 0 then 1 else 0)
  {
    var q := (d - 1) / k;
    var m := (d - 1) % k;
    assert d - 1 == q * k + m;
    if m + 1 == k {
      DivModUnique(d, k, q + 1, 0);
    } else {
      DivModUnique(d, k, q, m + 1);
    }
  }

  lemma MulLeq(a: int, b: int, k: int)
    requires a <= b && k > 0
    ensures a * k <= b * k
  {
  }
}

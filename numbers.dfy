/** Integer helpers for the JavaScript arithmetic the demo relies on. */
module Numbers {

  /** `Math.ceil(n / d)` for a natural `n` and a positive `d`: the least number of
      `d`-sized groups that hold `n` items. */
  function CeilDiv(n: nat, d: nat): (q: nat)
    requires d > 0
    ensures q * d >= n
    ensures q == 0 || (q - 1) * d < n
  {
    var q := (n + d - 1) / d;
    assert q * d <= n + d - 1 < (q + 1) * d;
    q
  }

  /** When `d` divides `n`, `Math.ceil(n / d)` is the exact quotient. */
  lemma CeilDivExact(n: nat, d: nat)
    requires d > 0 && n % d == 0
    ensures CeilDiv(n, d) == n / d
  {
    var q := CeilDiv(n, d);
    assert n == (n / d) * d;
    if q < n / d {
      MulMonotone(q + 1, n / d, d);
      assert false;
    } else if q > n / d {
      MulMonotone(n / d + 1, q, d);
      assert false;
    }
  }

  lemma MulMonotone(a: nat, b: nat, c: nat)
    requires a <= b
    ensures a * c <= b * c
  {
  }
}

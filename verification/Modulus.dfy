/**
 Indices that wrap around once.
 */
module Modulus {

  lemma WrapsAround(i: nat, n: nat)
    requires i < 2 * n
    ensures n > 0 && i % n == if i < n then i else i - n
  {
    var q, r := i / n, i % n;
    assert i == q * n + r;
    if 2 <= q {
      ProductsGrow(2, q, n);
    } else if q <= 0 {
      ProductsGrow(q, 0, n);
    } else {
      assert q * n == n;
    }
  }

  lemma ProductsGrow(a: int, b: int, n: nat)
    requires a <= b
    ensures a * n <= b * n
  {
  }
}

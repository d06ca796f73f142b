/** Remainders of integer division. */
module Modulo {

  lemma Multiples(n: int, k: int)
    requires 0 < n
    ensures 1 <= k ==> n <= n * k
    ensures k <= -1 ==> n * k <= -n
  {
  }

  lemma Remainder(n: int, q: int, r: int)
    requires 0 <= r < n
    ensures (n * q + r) % n == r
  {
    var x := n * q + r;
    assert x == n * (x / n) + x % n;
    assert n * (q - x / n) == x % n - r;
    Multiples(n, q - x / n);
  }

  lemma SameResidue(a: int, b: int, n: int)
    requires 0 < n && a % n == b % n && -n < a - b < n
    ensures a == b
  {
    assert a == n * (a / n) + a % n && b == n * (b / n) + b % n;
    assert a - b == n * (a / n - b / n);
    Multiples(n, a / n - b / n);
  }
}

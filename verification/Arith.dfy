/** Division and multiples with a variable divisor. */
module Arith {
  lemma MulStep(n: nat, k: nat)
    ensures n * (k + 1) == n * k + n
  {
  }

  lemma MulGrows(n: nat, i: nat, k: nat)
    requires i < k
    ensures n * i + n <= n * k
  {
    assert n * k == n * i + n + n * (k - 1 - i);
    assert n * (k - 1 - i) >= 0;
  }

  /** Quotient and remainder are the only way to write x as n * q + r. */
  lemma DivUnique(x: nat, n: nat, q: nat, r: nat)
    requires r < n && x == n * q + r
    ensures x / n == q && x % n == r
  {
    var q', r' := x / n, x % n;
    assert x == n * q' + r';
    if q < q' { MulGrows(n, q, q'); }
    if q' < q { MulGrows(n, q', q); }
  }

  lemma ModStep(x: nat, n: nat)
    requires n > 0
    ensures (x + n) % n == x % n && (x + n) / n == x / n + 1
  {
    MulStep(n, x / n);
    DivUnique(x + n, n, x / n + 1, x % n);
  }

  lemma WholeRows(length: nat, n: nat)
    requires n > 0 && length % n == 0
    ensures n * (length / n) == length
  {
  }

  lemma SmallMod(x: nat, n: nat)
    requires x < n
    ensures x % n == x && x / n == 0
  {
    DivUnique(x, n, 0, x);
  }

  lemma MultipleOf(n: nat, k: nat)
    requires n > 0
    ensures n * k % n == 0
    ensures k > 0 ==> n <= n * k
  {
    DivUnique(n * k, n, k, 0);
    if k > 0 { MulGrows(n, 0, k); }
  }
}

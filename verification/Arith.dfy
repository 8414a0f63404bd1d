/** Facts about quotients and remainders used by the other modules. */
module Arith {
  lemma {:induction false} MulGap(d: nat, q: nat, p: nat)
    requires d < q
    ensures d * p + p <= q * p
  {
    assert q * p == (q - 1) * p + p;
    if d + 1 >= q {
    } else {
      MulGap(d, q - 1, p);
    }
  }

  lemma MulLe(d: nat, q: nat, p: nat)
    requires d <= q
    ensures d * p <= q * p
  {
    if d < q {
      MulGap(d, q, p);
    }
  }

  lemma QuotientUnique(d: nat, m: nat, q: nat, r: nat, p: nat)
    requires m < p && r < p && d * p + m == q * p + r
    ensures d == q && m == r
  {
    if q > d {
      MulGap(d, q, p);
    } else if q < d {
      MulGap(q, d, p);
    }
  }

  lemma DivUnique(x: nat, q: nat, r: nat, p: nat)
    requires p > 0 && x == q * p + r && r < p
    ensures x / p == q && x % p == r
  {
    QuotientUnique(x / p, x % p, q, r, p);
  }

  lemma DivMod(x: nat, p: nat) returns (q: nat, r: nat)
    requires p > 0
    ensures q == x / p && r == x % p && x == q * p + r && r < p
  {
    q, r := x / p, x % p;
  }

  lemma Distribute(a: nat, b: nat, p: nat)
    ensures (a + b) * p == a * p + b * p
  {
  }

  lemma Associate(a: nat, b: nat, p: nat)
    ensures a * (b * p) == (a * b) * p
  {
  }

  lemma DivAdd(x: nat, m: nat, p: nat)
    requires p > 0
    ensures (x + m * p) / p == x / p + m
    ensures (x + m * p) % p == x % p
  {
    var q, r := DivMod(x, p);
    Distribute(q, m, p);
    DivUnique(x + m * p, q + m, r, p);
  }

  lemma SameQuotient(a: nat, lo: nat, p: nat)
    requires p > 0 && lo % p == 0
    ensures a / p == lo / p <==> lo <= a < lo + p
    ensures lo <= a < lo + p ==> a % p == a - lo
  {
    var q, r := DivMod(a, p);
    var q', r' := DivMod(lo, p);
    if lo <= a < lo + p {
      DivUnique(a, q', a - lo, p);
    }
  }

  /** A multiple of p leaves a multiple of p modulo n * p, with room for one more p. */
  lemma RemainderAligned(a: nat, n: nat, p: nat)
    requires p > 0 && n > 0 && a % p == 0 && n * p > 0
    ensures a % (n * p) % p == 0
    ensures a % (n * p) + p <= n * p
  {
    var c, lo := DivMod(a, n * p);
    var q, r := DivMod(lo, p);
    Associate(c, n, p);
    DivAdd(lo, c * n, p);
    MultipleFits(q, n, p);
  }

  lemma MultipleFits(q: nat, n: nat, p: nat)
    requires q * p < n * p
    ensures q * p + p <= n * p
  {
    if q >= n {
      MulLe(n, q, p);
    }
    MulGap(q, n, p);
  }

  lemma RemainderOffset(base: nat, span: nat, i: nat)
    requires span > 0 && base % span + i < span
    ensures (base + i) % span == base % span + i
  {
    var q, r := DivMod(base, span);
    DivUnique(base + i, q, r + i, span);
  }

  lemma DivDiv(a: nat, n: nat, p: nat)
    requires p > 0 && n > 0
    ensures n * p > 0 && a / p / n == a / (n * p)
  {
    var q, r := DivMod(a, p);
    var c, i := DivMod(q, n);
    MulGap(0, n, p);
    MulGap(i, n, p);
    Distribute(c * n, i, p);
    Associate(c, n, p);
    DivUnique(a, c, i * p + r, n * p);
  }

  lemma ModLe(x: nat, p: nat)
    requires p > 0
    ensures x % p <= x
  {
    var q, r := DivMod(x, p);
  }
}

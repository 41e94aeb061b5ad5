/** Powers of two, and the few facts about Euclidean division the address arithmetic rests on. */
module PowersOfTwo {

  function Pow2(n: nat): (p: nat)
    ensures p > 0
  {
    if n == 0 then 1 else 2 * Pow2(n - 1)
  }

  lemma {:induction false} Pow2Add(a: nat, b: nat)
    ensures Pow2(a + b) == Pow2(a) * Pow2(b)
  {
    if b == 0 {
    } else {
      Pow2Add(a, b - 1);
    }
  }

  lemma MulMonotone(k: int, n: int, m: int)
    requires k <= n && m > 0
    ensures k * m <= n * m
  {
    assert n * m - k * m == (n - k) * m;
  }

  /** Quotient and remainder are unique. */
  lemma DivModUnique(x: int, q: int, m: int, r: int)
    requires 0 <= r < m && x == q * m + r
    ensures x / m == q && x % m == r
  {
    var q' := x / m;
    assert (q + 1) * m == q * m + m;
    assert (q' + 1) * m == q' * m + m;
    if q < q' {
      MulMonotone(q + 1, q', m);
    } else if q' < q {
      MulMonotone(q' + 1, q, m);
    }
  }

  lemma ModAbsorbs(x: int, y: int, m: int)
    requires m > 0
    ensures (x % m + y) % m == (x + y) % m
  {
    var r := (x % m + y) % m;
    var q := x / m + (x % m + y) / m;
    assert x + y == q * m + r;
    DivModUnique(x + y, q, m, r);
  }

  /** `x` moved on by `k` steps of `s`, modulo `m`. */
  function Moved(x: nat, k: nat, s: nat, m: nat): (r: nat)
    requires m > 0
    ensures r < m
  {
    (x + k * s) % m
  }

  lemma MovedOnce(x: nat, k: nat, s: nat, m: nat)
    requires m > 0
    ensures (Moved(x, k, s, m) + s) % m == Moved(x, k + 1, s, m)
  {
    ModAbsorbs(x + k * s, s, m);
    OneMoreMultiple(k, s);
  }

  lemma DivAddMultiple(x: nat, k: nat, d: nat)
    requires d > 0
    ensures (x + k * d) / d == x / d + k
  {
    assert (x / d + k) * d == x / d * d + k * d;
    DivModUnique(x + k * d, x / d + k, d, x % d);
  }

  lemma OneMoreMultiple(k: int, d: int)
    ensures (k + 1) * d == k * d + d
  {
  }

  lemma Regroup(q: int, d: int, n: int)
    ensures q * (d * n) == (q * n) * d
  {
  }

  lemma ProductPositive(d: nat, n: nat)
    requires d > 0 && n > 0
    ensures d * n > 0
  {
  }

  lemma QuotientBound(r: nat, d: nat, n: nat)
    requires d > 0 && r < d * n
    ensures r / d < n
  {
    if r / d >= n {
      MulMonotone(n, r / d, d);
    }
  }

  lemma DivideTwice(x: nat, q: nat, r: nat, d: nat, n: nat)
    requires d > 0 && n > 0 && r < d * n && x == q * (d * n) + r
    ensures (x / d) / n == q && (x / d) % n == r / d
  {
    Regroup(q, d, n);
    DivAddMultiple(r, q * n, d);
    QuotientBound(r, d, n);
    DivModUnique(x / d, q, n, r / d);
  }

  /** Dividing by a product is dividing twice, and dividing by a divisor of the modulus commutes with
      taking the remainder. */
  lemma DivModProduct(x: nat, d: nat, n: nat)
    requires d > 0 && n > 0
    ensures d * n > 0
    ensures x / (d * n) == (x / d) / n
    ensures (x % (d * n)) / d == (x / d) % n
  {
    ProductPositive(d, n);
    var m := d * n;
    DivideTwice(x, x / m, x % m, d, n);
  }
}

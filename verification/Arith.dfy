/** Facts about division that the address and file-offset computations use. */
module Arith {

  lemma MulDistributes(k: nat, x: int, y: int)
    ensures k * (x + y) == k * x + k * y
  {
  }

  lemma MulAtLeast(k: nat, x: nat)
    requires x >= 1
    ensures k * x >= k
  {
  }

  /** Quotient and remainder are determined by the product form. */
  lemma QuotientUnique(k: nat, p: nat, t: nat, q: nat, u: nat)
    requires k * p + t == k * q + u && t < k && u < k
    ensures p == q && t == u
  {
    if p < q {
      MulDistributes(k, p, q - p);
      MulAtLeast(k, q - p);
    } else if q < p {
      MulDistributes(k, q, p - q);
      MulAtLeast(k, p - q);
    }
  }

  lemma DivMod(a: nat, k: nat)
    requires k > 0
    ensures a == k * (a / k) + a % k && 0 <= a % k < k && a / k >= 0
  {
  }

  lemma DivModUnique(a: nat, k: nat, p: nat, t: nat)
    requires k > 0 && a == k * p + t && t < k
    ensures a / k == p && a % k == t
  {
    DivMod(a, k);
    QuotientUnique(k, p, t, a / k, a % k);
  }

  lemma MulAssoc(k: nat, x: nat, y: nat)
    ensures k * (x * y) == k * x * y
  {
  }

  lemma MulMonotone(k: nat, x: nat, y: nat)
    requires x <= y
    ensures k * x <= k * y
  {
    MulDistributes(k, x, y - x);
  }

  /** Dividing by k and then by n is dividing by k n. */
  lemma DivDiv(a: nat, k: nat, n: nat)
    requires k > 0 && n > 0
    ensures k * n > 0 && a / (k * n) == a / k / n
  {
    var q, r := a / k, a % k;
    var p, s := q / n, q % n;
    DivMod(a, k);
    DivMod(q, n);
    MulDistributes(k, n * p, s);
    MulAssoc(k, n, p);
    MulMonotone(k, s, n - 1);
    MulDistributes(k, n - 1, 1);
    MulAtLeast(k, n);
    DivModUnique(a, k * n, p, k * s + r);
  }
}

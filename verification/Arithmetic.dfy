/** Facts about products that the solver does not find by itself inside larger proofs. */
module Arithmetic {

  lemma MulMono(a: nat, b: nat, s: nat)
    requires a <= b
    ensures a * s <= b * s
  {
    assert b * s == a * s + (b - a) * s;
  }

  lemma MulLess(a: nat, b: nat, s: nat)
    requires a * s < b * s
    ensures a < b
  {
    if b <= a {
      MulMono(b, a, s);
    }
  }

  /** Quotient and remainder are unique. */
  lemma ModIs(k: nat, q: nat, r: nat, n: nat)
    requires k == q * n + r && r < n
    ensures k % n == r
  {
    var p := k / n;
    assert k == p * n + k % n;
    assert (q + 1) * n == q * n + n && (p + 1) * n == p * n + n;
    if q < p {
      MulMono(q + 1, p, n);
    } else if p < q {
      MulMono(p + 1, q, n);
    }
  }

  lemma ModAdd(k: nat, t: nat, n: nat)
    requires 0 < n && k % n + t < n
    ensures (k + t) % n == k % n + t
  {
    ModIs(k + t, k / n, k % n + t, n);
  }

  lemma ModWrap(k: nat, t: nat, n: nat)
    requires 0 < n && n <= k % n + t < 2 * n
    ensures (k + t) % n == k % n + t - n
  {
    assert (k / n + 1) * n == k / n * n + n;
    ModIs(k + t, k / n + 1, k % n + t - n, n);
  }

  /** Fewer than n apart, two numbers have different remainders. */
  lemma ModApart(a: nat, b: nat, n: nat)
    requires a < b < a + n
    ensures a % n != b % n
  {
    if a % n + (b - a) < n {
      ModAdd(a, b - a, n);
    } else {
      ModWrap(a, b - a, n);
    }
  }

  lemma ModFull(a: nat, n: nat)
    requires 0 < n
    ensures (a + n) % n == a % n
  {
    ModWrap(a, n, n);
  }

  /** Among n successive numbers every remainder occurs. */
  lemma ModHits(a: nat, i: nat, n: nat) returns (k: nat)
    requires i < n
    ensures a <= k < a + n && k % n == i
  {
    if a % n <= i {
      k := a + (i - a % n);
      ModAdd(a, i - a % n, n);
    } else {
      k := a + (i + n - a % n);
      ModWrap(a, i + n - a % n, n);
    }
  }
}

/** Division facts that the verifier does not find by itself. */
module Arith {

  lemma {:induction false} AtLeastOnce(t: int, d: nat)
    requires t > 0
    ensures d * t >= 0 && (d > 0 ==> d * t >= t)
  {
    if d > 0 {
      AtLeastOnce(t, d - 1);
      assert d * t == (d - 1) * t + t;
    }
  }

  lemma StepApart(i: int, j: int, t: int)
    requires i < j && t > 0
    ensures t * i + t <= t * j
  {
    AtLeastOnce(t, j - i);
    assert (j - i) * t == t * j - t * i;
  }

  lemma DivParts(a: int, t: int)
    requires t > 0 && a >= 0
    ensures a == t * (a / t) + a % t && 0 <= a % t < t
  {
  }

  lemma WholeTicks(k: nat, t: int)
    requires t > 0
    ensures k * t >= 0 && k * t / t == k
  {
    AtLeastOnce(t, k);
    DivParts(k * t, t);
    var e := k * t / t;
    if e < k {
      StepApart(e, k, t);
    } else if e > k {
      StepApart(k, e, t);
    }
  }

  /** A quotient and remainder are the only ones. */
  lemma DivUnique(a: int, t: int, q: int, r: int)
    requires t > 0 && a >= 0 && a == t * q + r && 0 <= r < t
    ensures q == a / t && r == a % t
  {
    DivParts(a, t);
    var e := a / t;
    if e < q {
      StepApart(e, q, t);
    } else if q < e {
      StepApart(q, e, t);
    }
  }

  /** Reducing by a multiple of `n` first does not change the remainder by `n`. */
  lemma ModOfMod(x: nat, n: nat, q: nat)
    requires n > 0 && q > 0
    ensures n * q > 0 && x % (n * q) % n == x % n
  {
    AtLeastOnce(n, q);
    assert q * n == n * q;
    var w := n * q;
    DivParts(x, w);
    var r := x % w;
    DivParts(r, n);
    assert x == n * (q * (x / w) + r / n) + r % n by {
      assert w * (x / w) == n * (q * (x / w));
    }
    DivUnique(x, n, q * (x / w) + r / n, r % n);
  }

  /** Two numbers less than `n` apart have different remainders by `n`. */
  lemma CloseDiffer(x: nat, y: nat, n: nat)
    requires 0 < y - x < n
    ensures x % n != y % n
  {
    DivParts(x, n);
    DivParts(y, n);
    if x % n == y % n {
      if x / n < y / n {
        StepApart(x / n, y / n, n);
      } else if y / n < x / n {
        StepApart(y / n, x / n, n);
      }
    }
  }

  function Pow2(k: nat): (p: nat)
    ensures p > 0
  {
    if k == 0 then 1 else 2 * Pow2(k - 1)
  }

  lemma {:induction false} Pow2Sum(j: nat, k: nat)
    ensures Pow2(j + k) == Pow2(j) * Pow2(k)
  {
    if j == 0 {
      assert Pow2(0) == 1;
    } else {
      Pow2Sum(j - 1, k);
      assert Pow2(j + k) == 2 * Pow2(j - 1 + k);
      assert 2 * (Pow2(j - 1) * Pow2(k)) == (2 * Pow2(j - 1)) * Pow2(k);
    }
  }
}

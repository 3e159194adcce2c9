/** Facts about multiplication and remainders that the solver needs stated. */
module Arith {
  lemma MulBound(x: int, n: nat)
    ensures x >= 1 ==> x * n >= n
    ensures x <= 0 ==> x * n <= 0
  {
    if x >= 1 {
      assert x * n == n + (x - 1) * n;
    }
  }

  /** Two numbers less than n apart have different remainders. */
  lemma ModApart(j: nat, k: nat, n: nat)
    requires j < k < j + n
    ensures j % n != k % n
  {
    var a, b := j / n, k / n;
    MulBound(b - a, n);
    assert (b - a) * n == b * n - a * n;
  }

  /** Wrapping a counter at a multiple of n does not change it modulo n. */
  lemma WrapMod(x: nat, w: nat, n: nat)
    requires n > 0 && w > 0 && w % n == 0
    ensures (x % w) % n == x % n
  {
    var q, p := x / w, w / n;
    assert x == q * w + x % w;
    assert w == p * n;
    assert q * w == (q * p) * n;
    ModShift(x % w, q * p, n);
  }

  lemma ModShift(x: int, q: int, n: nat)
    requires n > 0
    ensures (x + q * n) % n == x % n
  {
    var d := (x + q * n) / n - x / n - q;
    MulBound(d, n);
    MulBound(-d, n);
    assert d * n == (x + q * n) / n * n - x / n * n - q * n;
  }

  lemma ModAdd(a: nat, i: nat, n: nat)
    requires n > 0
    ensures (a + i) % n == (a % n + i) % n
  {
    var r, q := a % n, a / n;
    assert a + i == (r + i) + q * n;
    ModShift(r + i, q, n);
  }

  lemma SmallMod(k: nat, n: nat)
    requires k < n
    ensures k % n == k
  {
  }
}

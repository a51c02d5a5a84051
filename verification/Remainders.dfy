/** Remainders by a variable divisor: the positions of a ring. */
module Remainders {
  lemma MultiplesGrow(d: int, n: int)
    requires n >= 0
    ensures d >= 1 ==> d * n >= n
    ensures d <= -1 ==> d * n <= -n
    ensures d <= 0 ==> d * n <= 0
  {
    if d >= 1 { assert (d - 1) * n >= 0; }
    if d <= -1 { assert (d + 1) * n <= 0; }
  }

  lemma RemainderIsUnique(a: nat, q: int, r: nat, n: nat)
    requires n > 0 && a == q * n + r && r < n
    ensures a % n == r
  {
    var d := a / n - q;
    assert a == (a / n) * n + a % n;
    assert d * n == r - a % n;
    MultiplesGrow(d, n);
  }

  /** Numbers less than n apart have different remainders. */
  lemma RemaindersDiffer(a: nat, b: nat, n: nat)
    requires a < b < a + n
    ensures a % n != b % n
  {
    var d := b / n - a / n;
    assert a == (a / n) * n + a % n && b == (b / n) * n + b % n;
    assert d * n == (b - a) - (b % n - a % n);
    MultiplesGrow(d, n);
  }

  /** Reducing modulo a multiple of n first does not change the remainder. */
  lemma RemainderOfRemainder(a: nat, m: nat, n: nat)
    requires n > 0 && m > 0 && m % n == 0
    ensures (a % m) % n == a % n
  {
    var k, q := m / n, a / m;
    var r := a % m;
    assert a == q * m + r && m == k * n && r == (r / n) * n + r % n;
    assert q * (k * n) == (q * k) * n;
    assert a == (q * k + r / n) * n + r % n;
    RemainderIsUnique(a, q * k + r / n, r % n, n);
  }
}

/** Facts about remainders by a divisor that is not a literal. */
module Division {

  lemma Quotient(x: int, q: int, r: int, n: int)
    requires n > 0 && x == q * n + r && 0 <= r < n
    ensures x / n == q && x % n == r
  {
    var d := x / n - q;
    assert d * n == r - x % n;
  }

  lemma AddMultiple(x: int, q: int, n: int)
    requires n > 0
    ensures (x + q * n) % n == x % n
  {
    assert x + q * n == (x / n + q) * n + x % n;
    Quotient(x + q * n, x / n + q, x % n, n);
  }

  lemma ModOfMultiple(x: int, n: nat, k: nat)
    requires n > 0 && k > 0
    ensures k * n > 0
    ensures (x % (k * n)) % n == x % n
  {
    AtLeastOnce(k, n);
    var kn := k * n;
    var q, r := x / kn, x % kn;
    assert x == r + q * kn;
    assert q * kn == (q * k) * n;
    AddMultiple(r, q * k, n);
  }

  /** Different numbers with the same remainder are at least a divisor apart. */
  lemma SameRemainderApart(x: int, y: int, n: int)
    requires n > 0 && x < y && x % n == y % n
    ensures y - x >= n
  {
    CancelLess(x / n, y / n, n);
    AtLeastOnce(y / n - x / n, n);
  }

  lemma CancelLess(a: int, b: int, n: int)
    requires n > 0 && a * n < b * n
    ensures a < b
  {
  }

  lemma AtLeastOnce(d: int, n: int)
    requires n > 0 && d > 0
    ensures d * n >= n
  {
  }

  lemma Monotone(a: int, b: int, c: int)
    requires a <= b && 0 <= c
    ensures a * c <= b * c
  {
    assert b * c == a * c + (b - a) * c;
  }
}

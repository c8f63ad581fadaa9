/** Division, on integers as Go does it and on reals. */
module Arithmetic {

  /** Integer division in Go truncates toward zero. */
  function Quotient(a: int, b: int): int
    requires b > 0
  {
    if a >= 0 then a / b else -((-a) / b)
  }

  /** `q` is a / b with the fraction cut off. */
  predicate Truncates(a: int, b: int, q: int) {
    if a >= 0 then q * b <= a < (q + 1) * b else (q - 1) * b < a <= q * b
  }

  lemma QuotientTruncates(a: int, b: int)
    requires b > 0
    ensures Truncates(a, b, Quotient(a, b))
  {
    var n := if a >= 0 then a else -a;
    var q := n / b;
    assert n == q * b + n % b;
    Distribute(b, q);
    assert (q + 1) * b == q * b + b && (-q) * b == -(q * b) && (-q - 1) * b == -(q * b) - b;
  }

  /** f(0) + ... + f(n - 1). */
  function Sigma(n: nat, f: nat -> int): int {
    if n == 0 then 0 else Sigma(n - 1, f) + f(n - 1)
  }

  lemma QuotientSmall(a: int, b: int)
    requires 0 <= a < b
    ensures Quotient(a, b) == 0
  {
  }

  lemma QuotientBelow(a: int, b: int, hi: int)
    requires b > 0 && a <= hi * b && hi >= 0
    ensures Quotient(a, b) <= hi
  {
    if a >= 0 {
      var q := a / b;
      assert a == q * b + a % b;
      Cancel(q, hi, b);
    }
  }

  lemma QuotientAbove(a: int, b: int, lo: int)
    requires b > 0 && 0 <= a && lo * b <= a
    ensures Quotient(a, b) >= lo
  {
    var q := a / b;
    assert a == q * b + a % b;
    assert (q + 1) * b == q * b + b;
    CancelStrictly(lo, q + 1, b);
  }

  lemma Cancel(x: int, y: int, b: int)
    requires b > 0 && x * b <= y * b
    ensures x <= y
  {
    assert (x - y) * b == x * b - y * b;
  }

  lemma CancelStrictly(x: int, y: int, b: int)
    requires b > 0 && x * b < y * b
    ensures x < y
  {
    assert (y - x) * b == y * b - x * b;
  }

  lemma DivideBelow(x: real, c: real, y: real)
    requires c > 0.0 && x <= y * c
    ensures x / c <= y
  {
    var q := x / c;
    assert q * c == x;
    if q > y { Scale(q - y, c); }
  }

  lemma DivideAbove(x: real, c: real, y: real)
    requires c > 0.0 && y * c <= x
    ensures y <= x / c
  {
    var q := x / c;
    assert q * c == x;
    if q < y { Scale(y - q, c); }
  }

  lemma QuotientTimes(x: real, c: real)
    requires c > 0.0
    ensures x / c * c == x
  {
  }

  lemma Scale(d: real, c: real)
    requires d > 0.0 && c > 0.0
    ensures d * c > 0.0
  {
  }

  lemma Distribute(x: int, n: int)
    ensures x * (n + 1) == x * n + x
  {
  }

  lemma AddProducts(x: int, m: int, n: int)
    ensures x * (m + n) == x * m + x * n
  {
  }
}

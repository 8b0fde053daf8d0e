/** Facts about products, quotients and remainders. */
module Arithmetic {
  lemma Below(a: int, b: int, c: int)
    requires a <= b && c >= 0
    ensures a * c <= b * c
  {}

  lemma Small(d: int, n: int)
    requires n > 0 && -n < d * n < n
    ensures d == 0
  {}

  lemma Quotient(h: nat, n: nat, q: nat, r: nat)
    requires n > 0 && h == q * n + r && r < n
    ensures h / n == q && h % n == r
  {
    var k := h / n;
    assert (k - q) * n == r - h % n;
    Small(k - q, n);
  }

  lemma DivDiv(h: nat, a: nat, b: nat)
    requires a > 0 && b > 0
    ensures h / a / b == h / (a * b)
  {
    var q, r := h / a, h % a;
    var p, t := q / b, q % b;
    TwoDigits(h, a, b, q, r, p, t);
    Quotient(h, a * b, p, t * a + r);
  }

  lemma TwoDigits(h: nat, a: nat, b: nat, q: nat, r: nat, p: nat, t: nat)
    requires h == q * a + r && r < a && q == p * b + t && t < b
    ensures h == p * (a * b) + (t * a + r) && t * a + r < a * b
  {
    Distribute(p, b, t, a);
    Distribute(1, b, -1, a);
    Below(t, b - 1, a);
  }

  lemma Distribute(p: int, b: int, t: int, a: int)
    ensures (p * b + t) * a == p * (a * b) + t * a
  {}

  lemma DivMono(a: nat, b: nat, c: nat)
    requires a <= b && c >= 1
    ensures a / c <= b / c
  {
    var d := b / c - a / c;
    assert d * c == (b - b % c) - (a - a % c);
    if d < 0 { Below(d, -1, c); }
  }

  lemma ModDistinct(a: nat, b: nat, n: nat)
    requires a < b < a + n
    ensures a % n != b % n
  {
    if a % n == b % n {
      var d := b / n - a / n;
      assert d * n == b - a;
      Small(d, n);
    }
  }
}

// Quotients and remainders of natural numbers.
module Division {

  lemma MulMono(d: nat, a: int, b: int)
    ensures a <= b ==> d * a <= d * b
  {
  }

  lemma QuotientIs(n: nat, d: nat, q: nat)
    requires 0 < d && d * q <= n < d * q + d
    ensures n / d == q
    ensures n % d == n - d * q
  {
    var r := n / d;
    assert d * r <= n < d * r + d;
    assert d * (r + 1) == d * r + d && d * (q + 1) == d * q + d;
    MulMono(d, r + 1, q);
    MulMono(d, q + 1, r);
  }

  lemma QuotientNext(n: nat, d: nat)
    requires 0 < d
    ensures (n + d) / d == n / d + 1
    ensures (n + d) % d == n % d
  {
    var q := n / d;
    assert d * q <= n < d * q + d;
    assert d * (q + 1) == d * q + d;
    QuotientIs(n, d, q);
    QuotientIs(n + d, d, q + 1);
  }

  lemma ProductPositive(a: nat, b: nat)
    requires a > 0 && b > 0
    ensures a * b > 0
  {
  }

  lemma Products(a: nat, b: nat, x: int, y: int)
    ensures a * (b * x + y) == (a * b) * x + a * y
  {
    assert a * (b * x + y) == a * (b * x) + a * y;
    assert a * (b * x) == (a * b) * x;
  }

  lemma WithinProduct(n: nat, a: nat, b: nat, m: nat, q: nat)
    requires a * m <= n < a * m + a && b * q <= m < b * q + b
    ensures (a * b) * q <= n < (a * b) * q + a * b
  {
    var y := m - b * q;
    Products(a, b, q, y);
    MulMono(a, 0, y);
    MulMono(a, y + 1, b);
    assert a * (y + 1) == a * y + a;
  }

  lemma QuotientOf(n: nat, d: nat)
    requires d > 0
    ensures d * (n / d) <= n < d * (n / d) + d
  {
  }

  // Dividing twice is dividing by the product.
  lemma QuotientTwice(n: nat, a: nat, b: nat)
    requires a > 0 && b > 0
    ensures a * b > 0 && n / a / b == n / (a * b)
  {
    ProductPositive(a, b);
    var m := n / a;
    var q := m / b;
    QuotientOf(n, a);
    QuotientOf(m, b);
    WithinProduct(n, a, b, m, q);
    QuotientIs(n, a * b, q);
  }
}

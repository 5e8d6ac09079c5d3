/** Words of 32 bits, and the monotonicity of products and quotients. */
module Arith {
  const WORD: nat := 0x1_0000_0000

  lemma MulMono(a: nat, b: nat, f: nat)
    requires a <= b
    ensures a * f <= b * f
  {
  }

  lemma QuotientBelow(n: nat, d: nat, m: nat)
    requires d > 0 && n < d * m
    ensures n / d < m
  {
  }

  lemma DivUnique(x: nat, q: nat, r: nat, d: nat)
    requires d > 0 && x == q * d + r && r < d
    ensures x / d == q
  {
    var p := x / d;
    assert x == p * d + x % d;
    if p > q { MulGap(p, q, d); }
    if p < q { MulGap(q, p, d); }
  }

  lemma MulGap(p: nat, q: nat, d: nat)
    requires p > q
    ensures p * d >= q * d + d
  {
    assert p * d == q * d + (p - q) * d;
    MulMono(1, p - q, d);
  }

  lemma DivMod(n: nat, d: nat)
    requires d > 0
    ensures 0 <= n / d && 0 <= n % d < d && n == n / d * d + n % d
  {
  }

  lemma Below(a: nat, b: nat, s: nat, r: nat)
    requires s < b && r < a
    ensures s * a + r < a * b
  {
    MulGap(b, s, a);
  }

  lemma Product(y: nat, b: nat, s: nat, a: nat, r: nat)
    ensures (y * b + s) * a + r == y * (a * b) + (s * a + r)
  {
  }

  /** Dividing by a and then by b is dividing by a * b. */
  lemma DivDiv(n: nat, a: nat, b: nat)
    requires a > 0 && b > 0
    ensures a * b > 0 && n / (a * b) == n / a / b
  {
    DivMod(n, a);
    DivMod(n / a, b);
    Nested(n, a, b, n / a, n % a, n / a / b, n / a % b);
  }

  lemma Nested(n: nat, a: nat, b: nat, x: nat, r: nat, y: nat, s: nat)
    requires n == x * a + r && x == y * b + s && r < a && s < b
    ensures a * b > 0 && n / (a * b) == y
  {
    Below(a, b, s, r);
    Product(y, b, s, a, r);
    var m, t := a * b, s * a + r;
    DivUnique(n, y, t, m);
  }
}

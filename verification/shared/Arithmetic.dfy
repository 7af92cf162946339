/** Division with remainder. */
module Arithmetic {
  lemma SmallMultiple(x: int, a: int)
    requires a > 0 && -a < x * a < a
    ensures x == 0
  {
    if x > 0 {
      GrowsByFactor(x, a);
    } else if x < 0 {
      GrowsByFactor(-x, a);
    }
  }

  lemma GrowsByFactor(x: int, a: int)
    requires a > 0 && x > 0
    ensures x * a >= a
  {
    if x == 1 {
    } else {
      GrowsByFactor(x - 1, a);
      assert x * a == (x - 1) * a + a;
    }
  }

  lemma QuotientUnique(x: nat, a: nat, q: nat, r: nat)
    requires a > 0 && x == q * a + r && r < a
    ensures x / a == q && x % a == r
  {
    var d, m := x / a, x % a;
    Distribute(q, d, a);
    assert x == d * a + m;
    SmallMultiple(q - d, a);
  }

  lemma Distribute(q: int, d: int, a: int)
    ensures (q - d) * a == q * a - d * a
  {
  }

  lemma MultipleMod(q: nat, a: nat)
    requires a > 0
    ensures (q * a) % a == 0
  {
    QuotientUnique(q * a, a, q, 0);
  }

  lemma DividesSum(x: nat, y: nat, a: nat)
    requires a > 0 && x % a == 0
    ensures (x + y) % a == y % a
  {
    var q := x / a;
    assert x == q * a;
    var p, r := y / a, y % a;
    assert y == p * a + r;
    assert x + y == (q + p) * a + r;
    QuotientUnique(x + y, a, q + p, r);
  }

  /** What a divides, every divisor u of a divides. */
  lemma MultipleOf(x: nat, a: nat, u: nat)
    requires a > 0 && u > 0 && a % u == 0 && x % a == 0
    ensures x % u == 0
  {
    var q, h := x / a, a / u;
    assert x == q * a && a == h * u;
    assert q * (h * u) == (q * h) * u;
    MultipleMod(q * h, u);
  }

  /** The remainder of the next number. */
  lemma NextMod(t: nat, n: nat)
    requires n > 0
    ensures (t + 1) % n == if t % n + 1 == n then 0 else t % n + 1
  {
    var q, r := t / n, t % n;
    assert t == q * n + r;
    if r + 1 == n {
      assert t + 1 == (q + 1) * n + 0;
      QuotientUnique(t + 1, n, q + 1, 0);
    } else {
      QuotientUnique(t + 1, n, q, r + 1);
    }
  }
}

/** Powers of two, the unit of every capacity in the bucket map. */
module Powers {

  function Pow2(n: nat): (r: nat)
    ensures r >= 1
  {
    if n == 0 then 1 else 2 * Pow2(n - 1)
  }

  lemma {:induction false} Pow2Add(a: nat, b: nat)
    ensures Pow2(a + b) == Pow2(a) * Pow2(b)
  {
    if a != 0 {
      Pow2Add(a - 1, b);
      assert Pow2(a + b) == 2 * Pow2(a - 1 + b);
    }
  }

  lemma {:induction false} Pow2Mono(a: nat, b: nat)
    requires a <= b
    ensures Pow2(a) <= Pow2(b)
    decreases b - a
  {
    if a < b {
      Pow2Mono(a + 1, b);
    }
  }

  lemma Pow2StrictMono(a: nat, b: nat)
    requires a < b
    ensures Pow2(a) < Pow2(b)
  {
    Pow2Mono(a + 1, b);
  }

  /** A product with a positive factor keeps order. */
  lemma MulMono(a: nat, b: nat, m: nat)
    requires a < b && m >= 1
    ensures a * m + m <= b * m
  {
    assert b * m == (b - 1) * m + m;
    assert a * m <= (b - 1) * m;
  }

  /** Multiplication by a positive number is injective. */
  lemma MulInjective(a: nat, b: nat, m: nat)
    requires m >= 1 && a != b
    ensures a * m != b * m
  {
    if a < b {
      MulMono(a, b, m);
    } else {
      MulMono(b, a, m);
    }
  }

  lemma MulAssoc(a: nat, b: nat, c: nat)
    ensures a * (b * c) == (a * b) * c
  {
  }

  /** Quotient and remainder are determined by their defining equation. */
  lemma DivModUnique(x: nat, q: nat, r: nat, d: nat)
    requires r < d && x == q * d + r
    ensures x / d == q && x % d == r
  {
    var q', r' := x / d, x % d;
    assert q' * d + r' == q * d + r;
    if q' < q {
      MulMono(q', q, d);
      assert false;
    }
    if q < q' {
      MulMono(q, q', d);
      assert false;
    }
  }

  lemma ModSubtract(x: nat, d: nat)
    requires 0 < d <= x
    ensures x % d == (x - d) % d
  {
    var q, r := (x - d) / d, (x - d) % d;
    assert x == (q + 1) * d + r;
    DivModUnique(x, q + 1, r, d);
  }
}

/** Integer congruences, the extended Euclidean algorithm and primes.

    Every congruence is stated as `x % p == 0` for a positive `p`, which is how the
    analysed tools write it (`... % P`). */
module Arith {
  function Min(a: int, b: int): int { if a <= b then a else b }
  function Max(a: int, b: int): int { if a >= b then a else b }

  /** The range of a 64-bit integer. */
  const U64: int := 0x1_0000_0000_0000_0000

  // ---- remainders ---------------------------------------------------------

  lemma NonzeroMultiple(d: int, p: int)
    requires p > 0 && d != 0
    ensures d * p >= p || d * p <= -p
  {
    if d >= 1 { assert (d - 1) * p >= 0; } else { assert (-1 - d) * p >= 0; }
  }

  /** A multiple of `p` strictly between `-p` and `p` is zero. */
  lemma SmallMultiple(d: int, p: int)
    requires p > 0 && -p < d * p < p
    ensures d == 0
  {
    if d != 0 { NonzeroMultiple(d, p); }
  }

  /** Quotient and remainder are determined by `x == q * p + r`. */
  lemma DivModUnique(x: int, q: int, r: int, p: int)
    requires p > 0 && x == q * p + r && 0 <= r < p
    ensures x % p == r && x / p == q
  {
    var d := q - x / p;
    assert d * p == x % p - r;
    SmallMultiple(d, p);
  }

  /** `a` and `b` are one residue. */
  ghost predicate Congruent(a: int, b: int, p: int)
    requires p > 0
  {
    (a - b) % p == 0
  }

  lemma MultipleOf(k: int, p: int)
    requires p > 0
    ensures (k * p) % p == 0
  {
    DivModUnique(k * p, k, 0, p);
  }

  lemma ModAdd(a: int, b: int, p: int)
    requires p > 0 && a % p == 0 && b % p == 0
    ensures (a + b) % p == 0 && (a - b) % p == 0
  {
    DivModUnique(a + b, a / p + b / p, 0, p);
    DivModUnique(a - b, a / p - b / p, 0, p);
  }

  lemma ModScale(k: int, a: int, p: int)
    requires p > 0 && a % p == 0
    ensures (k * a) % p == 0
  {
    assert a == (a / p) * p;
    assert k * a == (k * (a / p)) * p;
    MultipleOf(k * (a / p), p);
  }

  /** Reducing does not change the residue class. */
  lemma ModSelf(a: int, p: int)
    requires p > 0
    ensures (a - a % p) % p == 0
  {
    assert a - a % p == (a / p) * p;
    MultipleOf(a / p, p);
  }

  /** Two residues in `[0, p)` in one class are equal. */
  lemma ResidueUnique(a: int, b: int, p: int)
    requires p > 0 && 0 <= a < p && 0 <= b < p && (a - b) % p == 0
    ensures a == b
  {
    assert a - b == ((a - b) / p) * p;
    SmallMultiple((a - b) / p, p);
  }

  /** Congruence is a relation one may rewrite with: if `a` and `b` differ by a multiple
      of `p`, one is a multiple of `p` exactly when the other is. */
  lemma ModShift(a: int, b: int, p: int)
    requires p > 0 && (a - b) % p == 0
    ensures a % p == 0 <==> b % p == 0
  {
    if a % p == 0 { ModAdd(a, a - b, p); }
    if b % p == 0 { ModAdd(b, a - b, p); }
  }

  /** The product respects congruence in both factors. */
  lemma ModProduct(a: int, a': int, b: int, b': int, p: int)
    requires p > 0 && (a - a') % p == 0 && (b - b') % p == 0
    ensures (a * b - a' * b') % p == 0
  {
    ModScale(b, a - a', p);
    ModScale(a', b - b', p);
    ModAdd(b * (a - a'), a' * (b - b'), p);
    assert a * b - a' * b' == b * (a - a') + a' * (b - b');
  }

  lemma NonnegProduct(p: int, d: int)
    requires p > 0 && d >= 0
    ensures p * d >= 0
  {
  }

  lemma NegativeProduct(p: int, d: int)
    requires p > 0 && p * d < 0
    ensures d < 0
  {
    if d >= 0 { NonnegProduct(p, d); }
  }

  lemma ProductBound(a: int, b: int, m: int)
    requires 0 <= a <= m && 0 <= b <= m
    ensures 0 <= a * b <= m * m
  {
    assert a * b <= m * b;
    assert m * b <= m * m;
  }

  lemma DivBound(x: int, d: int, n: int)
    requires d > 0 && 0 <= x <= n * d
    ensures 0 <= x / d <= n
  {
    var q := x / d;
    assert x == d * q + x % d;
    assert d * (q - n - 1) == d * q - n * d - d;
    NegativeProduct(d, q - n - 1);
    assert d * (-1 - q) == -d - d * q;
    NegativeProduct(d, -1 - q);
  }

  // ---- greatest common divisors and primes --------------------------------

  /** Bezout coefficients: `a * x + b * y == g`, and `g` divides both. */
  function ExtGcd(a: nat, b: nat): (r: (nat, int, int))
    requires a > 0 || b > 0
    ensures r.0 > 0 && a % r.0 == 0 && b % r.0 == 0
    ensures a * r.1 + b * r.2 == r.0
    decreases b
  {
    if b == 0 then DivModUnique(a, 1, 0, a); (a, 1, 0)
    else
      var (g, x, y) := ExtGcd(b, a % b);
      ExtGcdStep(a, b, g, x, y);
      (g, y, x - (a / b) * y)
  }

  lemma ExtGcdStep(a: nat, b: nat, g: nat, x: int, y: int)
    requires b > 0 && g > 0 && b % g == 0 && (a % b) % g == 0
    requires b * x + (a % b) * y == g
    ensures a % g == 0 && a * y + b * (x - (a / b) * y) == g
  {
    ModScale(a / b, b, g);
    ModAdd((a / b) * b, a % b, g);
    assert a == (a / b) * b + a % b;
    assert a * y == (a / b) * b * y + (a % b) * y;
    assert b * (x - (a / b) * y) == b * x - (a / b) * b * y;
  }

  ghost predicate IsPrime(p: int) {
    p >= 2 && forall d :: 1 < d < p ==> p % d != 0
  }

  /** The inverse modulo a prime (Python's `pow(a, -1, p)`). */
  function Inverse(a: int, p: int): (r: int)
    requires IsPrime(p) && a % p != 0
    ensures 0 <= r < p && (a * r - 1) % p == 0
  {
    var (g, x, y) := ExtGcd(a % p, p);
    InverseIsBezout(a, p, g, x, y);
    x % p
  }

  lemma InverseIsBezout(a: int, p: int, g: nat, x: int, y: int)
    requires IsPrime(p) && a % p != 0 && g > 0
    requires (a % p) % g == 0 && p % g == 0 && (a % p) * x + p * y == g
    ensures (a * (x % p) - 1) % p == 0
  {
    assert g <= a % p by {
      if g > a % p { DivModUnique(a % p, 0, a % p, g); }
    }
    assert g == 1;
    ModSelf(a, p);
    ModSelf(x, p);
    ModAdd(0, x - x % p, p);
    ModAdd(0, a - a % p, p);
    assert ((a - a % p) * 1) % p == 0;
    ModProduct(a, a % p, x % p, x, p);
    MultipleOf(-y, p);
    assert (a % p) * x - 1 == -y * p;
    ModAdd(a * (x % p) - (a % p) * x, (a % p) * x - 1, p);
  }

  /** Euclid's lemma: a prime dividing a product divides a factor. */
  lemma Euclid(a: int, b: int, p: int)
    requires IsPrime(p)
    ensures (a * b) % p == 0 <==> a % p == 0 || b % p == 0
  {
    if (a * b) % p == 0 && a % p != 0 {
      var r := Inverse(a, p);
      ModScale(r, a * b, p);
      ModScale(b, a * r - 1, p);
      ModAdd(r * (a * b), b * (a * r - 1), p);
      assert r * (a * b) - b * (a * r - 1) == b;
    }
    if a % p == 0 { ModScale(b, a, p); assert b * a == a * b; }
    if b % p == 0 { ModScale(a, b, p); }
  }

  // ---- powers of two -------------------------------------------------------

  function Pow2(n: nat): (r: nat)
    ensures r > 0
  {
    if n == 0 then 1 else 2 * Pow2(n - 1)
  }

  lemma {:induction false} Pow2Monotone(m: nat, n: nat)
    requires m <= n
    ensures Pow2(m) <= Pow2(n)
    decreases n
  {
    if m < n { Pow2Monotone(m, n - 1); }
  }

  lemma {:induction false} Pow2Add(m: nat, n: nat)
    ensures Pow2(m + n) == Pow2(m) * Pow2(n)
  {
    if m > 0 {
      Pow2Add(m - 1, n);
      assert Pow2(m + n) == 2 * Pow2(m - 1 + n);
      assert 2 * (Pow2(m - 1) * Pow2(n)) == (2 * Pow2(m - 1)) * Pow2(n);
    }
  }
}

/** The ideal hash assumed by the protocol proofs exists: they are not about nothing. */
module IdealHash {
  import opened Merkle
  import opened Specs

  /** The integers as naturals. */
  function Natural(a: int): nat { if a >= 0 then 2 * a else -2 * a - 1 }

  function Triangle(s: nat): nat { if s == 0 then 0 else Triangle(s - 1) + s }

  lemma {:induction false} TriangleGap(s: nat, t: nat)
    requires s < t
    ensures Triangle(s) + s < Triangle(t)
  {
    if s < t - 1 { TriangleGap(s, t - 1); }
  }

  /** Cantor's pairing, shifted away from zero. */
  function Pair(a: int, b: int): int { Triangle(Natural(a) + Natural(b)) + Natural(b) + 1 }

  lemma PairInjective(a: int, b: int, c: int, d: int)
    requires Pair(a, b) == Pair(c, d)
    ensures a == c && b == d
  {
    var s, t := Natural(a) + Natural(b), Natural(c) + Natural(d);
    if s < t { TriangleGap(s, t); }
    if t < s { TriangleGap(t, s); }
  }

  function Pair4(a: int, b: int, c: int, d: int): int { Pair(Pair(a, b), Pair(c, d)) }

  lemma IdealExists()
    ensures Ideal(Hash(Pair, Pair4))
  {
    forall a, b, c, d | Pair(a, b) == Pair(c, d) ensures a == c && b == d { PairInjective(a, b, c, d); }
    forall a, b, c, d, a', b', c', d' | Pair4(a, b, c, d) == Pair4(a', b', c', d') ensures a == a' && b == b' && c == c' && d == d' {
      PairInjective(Pair(a, b), Pair(c, d), Pair(a', b'), Pair(c', d'));
      PairInjective(a, b, a', b');
      PairInjective(c, d, c', d');
    }
    assert Injective2(Pair) && Injective4(Pair4);
  }
}

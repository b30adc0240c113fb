/** Sums of bits with power-of-two weights: two different bit vectors never have
    congruent sums when the modulus exceeds the largest sum. */
module BitSums {
  import opened Arith
  import opened LinComb

  /** The modulus exceeds 2^253, as the BN254 scalar field does. */
  ghost predicate Wide(p: int) { forall n: nat :: n <= 253 ==> Pow2(n) < p }

  /** The sum of `2^k * d[k]`. */
  ghost function Weighted(d: seq<int>): int {
    if d == [] then 0 else d[0] + 2 * Weighted(d[1..])
  }

  lemma {:induction false} WeightedBound(d: seq<int>)
    requires forall k :: 0 <= k < |d| ==> -1 <= d[k] <= 1
    ensures 0 < Weighted(d) + Pow2(|d|) && Weighted(d) < Pow2(|d|)
  {
    if d != [] { WeightedBound(d[1..]); }
  }

  /** Digits in {-1, 0, 1} with weighted sum zero all vanish. */
  lemma {:induction false} WeightedZero(d: seq<int>)
    requires forall k :: 0 <= k < |d| ==> -1 <= d[k] <= 1
    requires Weighted(d) == 0
    ensures forall k :: 0 <= k < |d| ==> d[k] == 0
  {
    if d != [] {
      assert d[0] == -2 * Weighted(d[1..]);
      WeightedZero(d[1..]);
      forall k | 0 <= k < |d| ensures d[k] == 0 { if k > 0 { assert d[k] == d[1..][k - 1]; } }
    }
  }

  /** The differences of two witnesses along a list of wires. */
  function Differences(bs: seq<nat>, w: Witness, w': Witness): (d: seq<int>)
    ensures |d| == |bs| && forall k :: 0 <= k < |bs| ==> d[k] == w(bs[k]) - w'(bs[k])
  {
    seq(|bs|, k requires 0 <= k < |bs| => w(bs[k]) - w'(bs[k]))
  }

  ghost predicate Distinct(bs: seq<nat>) { forall i, j :: 0 <= i < j < |bs| ==> bs[i] != bs[j] }

  /** `sum of c(bs[k]) * d[k]`, the contribution of the listed wires. */
  ghost function Contribution(l: LC, bs: seq<nat>, w: Witness, w': Witness): int
    requires forall k :: 0 <= k < |bs| ==> bs[k] in l
  {
    if bs == [] then 0 else l[bs[0]] * (w(bs[0]) - w'(bs[0])) + Contribution(l, bs[1..], w, w')
  }

  /** Witnesses that agree outside the listed wires differ by their contribution. */
  lemma {:induction false} SumDifference(l: LC, bs: seq<nat>, w: Witness, w': Witness)
    requires Distinct(bs) && forall k :: 0 <= k < |bs| ==> bs[k] in l
    requires forall i :: i in l && i !in bs ==> w(i) == w'(i)
    ensures Sum(l, w) - Sum(l, w') == Contribution(l, bs, w, w')
  {
    if bs == [] {
      SumAgree(l, w, w');
    } else {
      var b := bs[0];
      SumRemove(l, b, w);
      SumRemove(l, b, w');
      var rest := l - {b};
      assert forall k :: 0 <= k < |bs[1..]| ==> bs[1..][k] in rest;
      forall i | i in rest && i !in bs[1..] ensures w(i) == w'(i) {
        assert i !in bs;
      }
      SumDifference(rest, bs[1..], w, w');
      ContributionSame(l, rest, bs[1..], w, w');
      assert l[b] * (w(b) - w'(b)) == l[b] * w(b) - l[b] * w'(b);
    }
  }

  lemma {:induction false} ContributionSame(l: LC, l': LC, bs: seq<nat>, w: Witness, w': Witness)
    requires forall k :: 0 <= k < |bs| ==> bs[k] in l && bs[k] in l' && l[bs[k]] == l'[bs[k]]
    ensures Contribution(l, bs, w, w') == Contribution(l', bs, w, w')
  {
    if bs != [] { ContributionSame(l, l', bs[1..], w, w'); }
  }

  lemma {:induction false} SumAgree(l: LC, w: Witness, w': Witness)
    requires forall i :: i in l ==> w(i) == w'(i)
    ensures Sum(l, w) == Sum(l, w')
    decreases |l|
  {
    if l != map[] {
      var k :| k in l;
      SumRemove(l, k, w);
      SumRemove(l, k, w');
      SumAgree(l - {k}, w, w');
    }
  }

  /** Wire `bs[k]` carries the coefficient `scale * 2^k` modulo the prime. */
  ghost predicate Geometric(l: LC, bs: seq<nat>, scale: int, p: int)
    requires p > 0
  {
    forall k :: 0 <= k < |bs| ==> bs[k] in l && HasWeight(l[bs[k]], scale, k, p)
  }

  ghost predicate HasWeight(c: int, scale: int, k: nat, p: int)
    requires p > 0
  {
    (c - scale * Pow2(k)) % p == 0
  }

  lemma WeightShift(c: int, scale: int, k: nat, p: int)
    requires p > 0 && HasWeight(c, scale, k + 1, p)
    ensures HasWeight(c, 2 * scale, k, p)
  {
    assert (2 * scale) * Pow2(k) == scale * Pow2(k + 1);
  }

  lemma {:induction false} GeometricContribution(l: LC, bs: seq<nat>, scale: int, w: Witness, w': Witness, p: int)
    requires p > 0 && Geometric(l, bs, scale, p)
    ensures Congruent(Contribution(l, bs, w, w'), scale * Weighted(Differences(bs, w, w')), p)
    decreases |bs|
  {
    var d := Differences(bs, w, w');
    if bs == [] {
      assert scale * Weighted(d) == 0;
    } else {
      var tail := bs[1..];
      forall k | 0 <= k < |tail| ensures tail[k] in l && HasWeight(l[tail[k]], 2 * scale, k, p) {
        assert tail[k] == bs[k + 1];
        WeightShift(l[tail[k]], scale, k, p);
      }
      GeometricContribution(l, tail, 2 * scale, w, w', p);
      assert Differences(tail, w, w') == d[1..];
      assert HasWeight(l[bs[0]], scale, 0, p);
      GeometricStep(l[bs[0]], scale, d[0], Contribution(l, tail, w, w'), Weighted(d[1..]), p);
    }
  }

  lemma GeometricStep(c: int, scale: int, d: int, rest: int, t: int, p: int)
    requires p > 0 && (c - scale) % p == 0 && Congruent(rest, (2 * scale) * t, p)
    ensures Congruent(c * d + rest, scale * (d + 2 * t), p)
  {
    ModScale(d, c - scale, p);
    ModAdd(d * (c - scale), rest - (2 * scale) * t, p);
    assert scale * (d + 2 * t) == scale * d + (2 * scale) * t;
    assert d * (c - scale) == c * d - scale * d;
  }

  ghost predicate SameResidue(l: LC, w: Witness, w': Witness, p: int)
    requires p > 0
  {
    (Sum(l, w) - Sum(l, w')) % p == 0
  }

  /** The decomposition rule: boolean wires with weights `scale * 2^k` are determined by
      the residue of the combination, for up to 253 of them. */
  lemma DecompositionUnique(l: LC, bs: seq<nat>, scale: int, w: Witness, w': Witness, p: int)
    requires IsPrime(p) && |bs| <= 253 && Wide(p)
    requires scale % p != 0 && Distinct(bs) && Geometric(l, bs, scale, p)
    requires forall k :: 0 <= k < |bs| ==> 0 <= w(bs[k]) <= 1 && 0 <= w'(bs[k]) <= 1
    requires forall i :: i in l && i !in bs ==> w(i) == w'(i)
    requires SameResidue(l, w, w', p)
    ensures forall k :: 0 <= k < |bs| ==> w(bs[k]) == w'(bs[k])
  {
    var d := Differences(bs, w, w');
    SumDifference(l, bs, w, w');
    GeometricContribution(l, bs, scale, w, w', p);
    ZeroSum(Contribution(l, bs, w, w'), scale, d, p);
    forall k | 0 <= k < |bs| ensures w(bs[k]) == w'(bs[k]) { assert d[k] == 0; }
  }

  lemma ZeroSum(c: int, scale: int, d: seq<int>, p: int)
    requires IsPrime(p) && |d| <= 253 && Wide(p) && scale % p != 0
    requires c % p == 0 && (c - scale * Weighted(d)) % p == 0
    requires forall k :: 0 <= k < |d| ==> -1 <= d[k] <= 1
    ensures forall k :: 0 <= k < |d| ==> d[k] == 0
  {
    var t := Weighted(d);
    ModShift(c, scale * t, p);
    Euclid(scale, t, p);
    WeightedBound(d);
    SmallResidue(t, p);
    WeightedZero(d);
  }

  lemma NonzeroScale(sign: int, base: int, p: int)
    requires (sign == 1 || sign == -1) && 0 < base < p
    ensures (sign * base) % p != 0
  {
    if sign == 1 { DivModUnique(base, 0, base, p); } else { DivModUnique(-base, -1, p - base, p); }
  }

  lemma SmallResidue(t: int, p: int)
    requires p > 0 && t % p == 0 && -p < t < p
    ensures t == 0
  {
    assert t == (t / p) * p;
    SmallMultiple(t / p, p);
  }
}

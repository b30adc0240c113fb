/** Under-constraint analysis: which wires are functions of the known ones. */
module Determinism {
  import opened Arith
  import opened LinComb
  import opened Formulas
  import opened BitSums

  ghost predicate Agree(w: Witness, w': Witness, s: set<nat>) { forall i :: i in s ==> w(i) == w'(i) }

  /** Two solutions of the system that both carry bits on the boolean wires. */
  ghost predicate TwoSolutions(cs: seq<Constraint>, bools: set<nat>, w: Witness, w': Witness, p: int)
    requires p > 0
  {
    Fits(w, bools, p) && Fits(w', bools, p) && SatAll(cs, w, p) && SatAll(cs, w', p)
  }

  /** Two solutions that agree on `from` also agree on `to`. */
  ghost predicate Determines(cs: seq<Constraint>, bools: set<nat>, from: set<nat>, to: set<nat>, p: int)
    requires p > 0
  {
    forall w: Witness, w': Witness :: DeterminesAt(cs, bools, from, to, w, w', p)
  }

  ghost predicate DeterminesAt(cs: seq<Constraint>, bools: set<nat>, from: set<nat>, to: set<nat>, w: Witness, w': Witness, p: int)
    requires p > 0
  {
    TwoSolutions(cs, bools, w, w', p) && Agree(w, w', from) ==> Agree(w, w', to)
  }

  // ---- the rules -----------------------------------------------------------------

  function Unknown(l: LC, known: set<nat>): set<nat> { Wires(l) - known }

  /** A constant factor that is not zero in F_p. */
  predicate NonzeroConst(l: LC, p: int)
    requires p > 0
  {
    IsConst(l) && Coeff(l, 0) % p != 0
  }

  /** `abs(min(c, P - c))`. */
  function Weight(c: int, p: int): int { var m := if c <= p - c then c else p - c; if m < 0 then -m else m }

  /** The list enumerates the wires with weights s, 2s, 4s, ... of one sign. */
  ghost predicate IsDecomposition(l: LC, bits: set<nat>, bs: seq<nat>, p: int)
    requires p > 0 && bits <= l.Keys
  {
    Enumerates(bs, bits) && Doubling(l, bs, p) && |bs| <= 253 && OneSign(l, bits, p)
  }

  ghost predicate Enumerates(bs: seq<nat>, bits: set<nat>) {
    Distinct(bs) && forall i :: i in bs <==> i in bits
  }

  predicate Doubling(l: LC, bs: seq<nat>, p: int)
    requires forall k :: 0 <= k < |bs| ==> bs[k] in l
  {
    forall k :: 0 <= k < |bs| ==> Weight(l[bs[k]], p) == Weight(l[bs[0]], p) * Pow2(k)
  }

  predicate OneSign(l: LC, bits: set<nat>, p: int)
    requires bits <= l.Keys
  {
    (forall b :: b in bits ==> l[b] > p / 2) || (forall b :: b in bits ==> l[b] <= p / 2)
  }

  ghost predicate BitRule(l: LC, bits: set<nat>, p: int)
    requires p > 0 && bits <= l.Keys
  {
    exists bs: seq<nat> :: IsDecomposition(l, bits, bs, p)
  }

  /** Some rule applies to the constraint: the list of branches at determinism.py:42-62. */
  ghost predicate Fires(c: Constraint, known: set<nat>, bools: set<nat>, p: int)
    requires p > 0
  {
    var (ua, ub, uc) := (Unknown(c.a, known), Unknown(c.b, known), Unknown(c.c, known));
    Branches(ua, ub, uc, NonzeroConst(c.a, p), NonzeroConst(c.b, p), BitsApply(c.c, uc, bools, p))
  }

  /** The branch conditions, given which factors are nonzero constants and whether the bit
      rule applies to the third combination. */
  predicate Branches(ua: set<nat>, ub: set<nat>, uc: set<nat>, constA: bool, constB: bool, bits: bool) {
    || (ua == {} && ub == {} && |uc| == 1)
    || (constA && |ub| == 1 && uc == {})
    || (constB && |ua| == 1 && uc == {})
    || (ua == {} && ub == {} && uc != {} && bits)
  }

  /** The last branch: all unknown wires are boolean and form a decomposition. */
  ghost predicate BitsApply(l: LC, unknown: set<nat>, bools: set<nat>, p: int)
    requires p > 0 && unknown <= l.Keys
  {
    unknown != {} && unknown <= bools && BitRule(l, unknown, p)
  }

  /** The wires carry s, 2s, 4s, ... or, all of them, the negatives of these. */
  ghost predicate Powers(l: LC, bs: seq<nat>, s: int, p: int)
    requires forall k :: 0 <= k < |bs| ==> bs[k] in l
  {
    s > 0 &&
    ((forall k :: 0 <= k < |bs| ==> l[bs[k]] == s * Pow2(k) <= p / 2) || (forall k :: 0 <= k < |bs| ==> p - l[bs[k]] == s * Pow2(k) < p - p / 2))
  }

  lemma PowersDecompose(l: LC, bits: set<nat>, bs: seq<nat>, s: int, p: int)
    requires p > 1 && bits <= l.Keys && Enumerates(bs, bits) && 0 < |bs| <= 253 && Powers(l, bs, s, p)
    ensures IsDecomposition(l, bits, bs, p)
  {
    assert Pow2(0) == 1 && bs[0] in bs;
    forall k | 0 <= k < |bs| ensures Weight(l[bs[k]], p) == s * Pow2(k) { assert bs[k] in bs; }
    forall b | b in bits ensures exists k :: 0 <= k < |bs| && bs[k] == b { assert b in bs; }
  }

  /** What no rule applies to: a product with known factors has no single unknown left, nor
      unknown bits with powers of two; an equation with a nonzero constant factor and a known
      right side has no single unknown. */
  lemma NoRuleMeans(c: Constraint, known: set<nat>, bools: set<nat>, p: int)
    requires p > 1 && !Fires(c, known, bools, p)
    ensures Unknown(c.a, known) == {} && Unknown(c.b, known) == {} ==> |Unknown(c.c, known)| != 1
    ensures Unknown(c.a, known) == {} && Unknown(c.b, known) == {} && Unknown(c.c, known) <= bools ==>
      forall bs: seq<nat>, s :: Enumerates(bs, Unknown(c.c, known)) && 0 < |bs| <= 253 && (forall k :: 0 <= k < |bs| ==> bs[k] in c.c) ==> !Powers(c.c, bs, s, p)
    ensures Unknown(c.c, known) == {} && NonzeroConst(c.a, p) ==> |Unknown(c.b, known)| != 1
    ensures Unknown(c.c, known) == {} && NonzeroConst(c.b, p) ==> |Unknown(c.a, known)| != 1
  {
    var uc := Unknown(c.c, known);
    if Unknown(c.a, known) == {} && Unknown(c.b, known) == {} && uc <= bools {
      forall bs: seq<nat>, s | Enumerates(bs, uc) && 0 < |bs| <= 253 && (forall k :: 0 <= k < |bs| ==> bs[k] in c.c)
        ensures !Powers(c.c, bs, s, p)
      {
        if Powers(c.c, bs, s, p) {
          assert bs[0] in bs;
          PowersDecompose(c.c, uc, bs, s, p);
        }
      }
    }
  }

  // ---- soundness of each rule -------------------------------------------------------

  lemma KnownSum(l: LC, known: set<nat>, w: Witness, w': Witness, p: int)
    requires IsWitness(w, p) && IsWitness(w', p) && Agree(w, w', known) && Unknown(l, known) == {}
    ensures Sum(l, w) == Sum(l, w')
  {
    forall i | i in l ensures w(i) == w'(i) {
      if i != 0 { assert i in Wires(l) && i !in Unknown(l, known); }
    }
    SumAgree(l, w, w');
  }

  /** One unknown wire in a combination of known residue is determined. */
  lemma OneUnknown(l: LC, known: set<nat>, x: nat, w: Witness, w': Witness, p: int)
    requires IsPrime(p) && IsWitness(w, p) && IsWitness(w', p) && Agree(w, w', known) && Normal(l, p)
    requires x in Unknown(l, known) && Unknown(l, known) == {x}
    requires SameResidue(l, w, w', p)
    ensures w(x) == w'(x)
  {
    forall i | i in l && i !in [x] ensures w(i) == w'(i) {
      if i != 0 { assert i in Wires(l) && i !in Unknown(l, known); }
    }
    SumDifference(l, [x], w, w');
    assert Contribution(l, [x], w, w') == l[x] * (w(x) - w'(x)) by {
      assert [x][1..] == [];
    }
    DivModUnique(l[x], 0, l[x], p);
    Euclid(l[x], w(x) - w'(x), p);
    ResidueUnique(w(x), w'(x), p);
  }

  /** Known factors make the third combination known modulo the prime. */
  lemma KnownProduct(c: Constraint, known: set<nat>, w: Witness, w': Witness, p: int)
    requires p > 0 && IsWitness(w, p) && IsWitness(w', p) && Agree(w, w', known) && Sat(c, w, p) && Sat(c, w', p)
    requires Unknown(c.a, known) == {} && Unknown(c.b, known) == {}
    ensures SameResidue(c.c, w, w', p)
  {
    KnownSum(c.a, known, w, w', p);
    KnownSum(c.b, known, w, w', p);
    ModAdd(Sum(c.a, w') * Sum(c.b, w') - Sum(c.c, w'), Sum(c.a, w) * Sum(c.b, w) - Sum(c.c, w), p);
  }

  /** A nonzero constant factor and a known right side make the other factor known. */
  lemma KnownQuotient(x: LC, y: LC, z: LC, known: set<nat>, w: Witness, w': Witness, p: int)
    requires IsPrime(p) && IsWitness(w, p) && IsWitness(w', p) && Agree(w, w', known)
    requires Sat(R1C(x, y, z), w, p) && Sat(R1C(x, y, z), w', p)
    requires NonzeroConst(x, p) && Unknown(z, known) == {}
    ensures SameResidue(y, w, w', p)
  {
    SumConst(x, w);
    SumConst(x, w');
    KnownSum(z, known, w, w', p);
    var k := Coeff(x, 0);
    ModAdd(k * Sum(y, w) - Sum(z, w), k * Sum(y, w') - Sum(z, w'), p);
    assert k * (Sum(y, w) - Sum(y, w')) == (k * Sum(y, w) - Sum(z, w)) - (k * Sum(y, w') - Sum(z, w'));
    Euclid(k, Sum(y, w) - Sum(y, w'), p);
  }

  lemma WeightMeaning(c: int, k: nat, base: int, p: int)
    requires p > 0 && 0 < c < p && Weight(c, p) == base * Pow2(k)
    ensures HasWeight(c, if c > p / 2 then -base else base, k, p)
  {
    if c > p / 2 {
      assert c - -base * Pow2(k) == c + base * Pow2(k) == p;
      MultipleOf(1, p);
    } else {
      MultipleOf(0, p);
    }
  }

  /** The decomposition rule is sound. */
  lemma BitsDetermined(l: LC, known: set<nat>, bits: set<nat>, bs: seq<nat>, w: Witness, w': Witness, p: int)
    requires IsPrime(p) && Wide(p) && Normal(l, p)
    requires Fits(w, bits, p) && Fits(w', bits, p) && Agree(w, w', known)
    requires bits == Unknown(l, known) && bits != {} && IsDecomposition(l, bits, bs, p)
    requires SameResidue(l, w, w', p)
    ensures Agree(w, w', bits)
  {
    var b :| b in bits;
    assert b in bs && bs[0] in bs;
    assert bs[0] in bits && bits <= l.Keys;
    var base := Weight(l[bs[0]], p);
    var scale := if l[bs[0]] > p / 2 then -base else base;
    assert bs[0] in bits && 0 < l[bs[0]] < p;
    forall k | 0 <= k < |bs| ensures bs[k] in l && HasWeight(l[bs[k]], scale, k, p) {
      assert bs[k] in bits;
      WeightMeaning(l[bs[k]], k, base, p);
    }
    assert scale % p != 0 by {
      if l[bs[0]] > p / 2 { NonzeroScale(-1, base, p); } else { NonzeroScale(1, base, p); }
    }
    forall i | i in l && i !in bs ensures w(i) == w'(i) {
      if i != 0 { assert i in Wires(l) && i !in bits; }
    }
    forall k | 0 <= k < |bs| ensures 0 <= w(bs[k]) <= 1 && 0 <= w'(bs[k]) <= 1 { assert bs[k] in bits; }
    DecompositionUnique(l, bs, scale, w, w', p);
  }

  // ---- the sorted-coefficient test -----------------------------------------------------

  /** `sorted(...)`: the wires by increasing weight. */
  method SortByWeight(l: LC, bits: set<nat>, p: int) returns (bs: seq<nat>)
    requires bits <= l.Keys
    ensures Enumerates(bs, bits)
    ensures Ascending(l, bs, p)
  {
    bs := [];
    var rest := bits;
    while rest != {}
      invariant rest <= bits && Distinct(bs)
      invariant forall i :: i in bs <==> i in bits - rest
      invariant Ascending(l, bs, p)
      invariant forall i, j :: i in bs && j in rest ==> Weight(l[i], p) <= Weight(l[j], p)
      decreases rest
    {
      Lightest(l, rest, p);
      var b :| b in rest && forall i :: i in rest ==> Weight(l[b], p) <= Weight(l[i], p);
      bs, rest := bs + [b], rest - {b};
    }
  }

  ghost predicate Ascending(l: LC, bs: seq<nat>, p: int) {
    && (forall k :: 0 <= k < |bs| ==> bs[k] in l)
    && forall i, j :: 0 <= i < j < |bs| ==> Weight(l[bs[i]], p) <= Weight(l[bs[j]], p)
  }

  lemma {:induction false} Lightest(l: LC, s: set<nat>, p: int)
    requires s != {} && s <= l.Keys
    ensures exists b :: b in s && forall i :: i in s ==> Weight(l[b], p) <= Weight(l[i], p)
    decreases |s|
  {
    var a :| a in s;
    if s != {a} {
      Lightest(l, s - {a}, p);
      var b :| b in s - {a} && forall i :: i in s - {a} ==> Weight(l[b], p) <= Weight(l[i], p);
      var m := if Weight(l[a], p) <= Weight(l[b], p) then a else b;
      assert m in s && forall i :: i in s ==> Weight(l[m], p) <= Weight(l[i], p);
    }
  }

  /** If any enumeration of the wires doubles at every step, the sorted one is that one. */
  lemma {:induction false} SortedIsDoubling(l: LC, bits: set<nat>, bs: seq<nat>, cs: seq<nat>, n: nat, p: int)
    requires p > 0 && bits <= l.Keys && Enumerates(bs, bits) && Ascending(l, bs, p)
    requires Enumerates(cs, bits) && Increasing(l, cs, p)
    requires n <= |bs| && n <= |cs|
    ensures forall i :: 0 <= i < n ==> bs[i] == cs[i]
  {
    if n > 0 {
      SortedIsDoubling(l, bits, bs, cs, n - 1, p);
      var b, c := bs[n - 1], cs[n - 1];
      assert b in bs && c in cs;
      var j :| 0 <= j < |cs| && cs[j] == b;
      var k :| 0 <= k < |bs| && bs[k] == c;
      assert j >= n - 1 && k >= n - 1;
    }
  }

  ghost predicate Increasing(l: LC, bs: seq<nat>, p: int) {
    && (forall k :: 0 <= k < |bs| ==> bs[k] in l)
    && forall i, j :: 0 <= i < j < |bs| ==> Weight(l[bs[i]], p) < Weight(l[bs[j]], p)
  }

  lemma DoublingStrict(l: LC, cs: seq<nat>, i: nat, j: nat, p: int)
    requires p > 0 && i < j < |cs| && (forall k :: 0 <= k < |cs| ==> cs[k] in l && 0 < l[cs[k]] < p) && Doubling(l, cs, p)
    ensures Weight(l[cs[i]], p) < Weight(l[cs[j]], p)
  {
    var base := Weight(l[cs[0]], p);
    assert base > 0;
    Pow2Monotone(i + 1, j);
    assert Pow2(i) < Pow2(j);
    StrictScale(base, Pow2(i), Pow2(j));
  }

  lemma StrictScale(b: int, x: int, y: int)
    requires b > 0 && x < y
    ensures b * x < b * y
  {
  }

  function Elements(bs: seq<nat>): set<nat> { set i | i in bs }

  lemma {:induction false} DistinctCount(bs: seq<nat>)
    requires Distinct(bs)
    ensures |Elements(bs)| == |bs|
  {
    if bs != [] {
      var n := |bs| - 1;
      DistinctCount(bs[..n]);
      assert bs == bs[..n] + [bs[n]];
      assert bs[n] !in bs[..n];
      assert Elements(bs) == Elements(bs[..n]) + {bs[n]};
    }
  }

  lemma SameLength(bs: seq<nat>, bits: set<nat>)
    requires Enumerates(bs, bits)
    ensures |bs| == |bits|
  {
    DistinctCount(bs);
    assert Elements(bs) == bits;
  }

  /** The executable test decides the rule. */
  lemma BitRuleDecided(l: LC, bits: set<nat>, bs: seq<nat>, p: int)
    requires p > 0 && bits <= l.Keys && Enumerates(bs, bits) && Ascending(l, bs, p)
    requires forall b :: b in bits ==> 0 < l[b] < p
    ensures BitRule(l, bits, p) <==> IsDecomposition(l, bits, bs, p)
  {
    if BitRule(l, bits, p) {
      var cs :| IsDecomposition(l, bits, cs, p);
      SameLength(bs, bits);
      SameLength(cs, bits);
      forall i, j | 0 <= i < j < |cs| ensures Weight(l[cs[i]], p) < Weight(l[cs[j]], p) {
        assert forall k :: 0 <= k < |cs| ==> cs[k] in bits;
        DoublingStrict(l, cs, i, j, p);
      }
      SortedIsDoubling(l, bits, bs, cs, |bs|, p);
      assert bs == cs;
    }
  }

  /** The test at determinism.py:52-62. */
  method DecompositionTest(l: LC, unknown: set<nat>, bools: set<nat>, p: int) returns (ok: bool)
    requires p > 0 && unknown <= l.Keys && forall b :: b in unknown ==> 0 < l[b] < p
    ensures ok <==> BitsApply(l, unknown, bools, p)
  {
    var bits := unknown * bools;
    ok := bools != {} && bits != {} && bits == unknown;
    if ok {
      var bs := SortByWeight(l, bits, p);
      BitRuleDecided(l, bits, bs, p);
      ok := OneSign(l, bits, p) && Doubling(l, bs, p) && |bs| <= 253;
    }
  }

  // ---- propagate ------------------------------------------------------------------------

  /** The branches of the loop body: the wires one constraint adds. */
  method Learn(c: Constraint, known: set<nat>, bools: set<nat>, p: int) returns (more: set<nat>)
    requires IsPrime(p) && Wide(p) && NormalConstraint(c, p)
    ensures more <= AllWires(c) && more !! known
    ensures more == {} <==> !Fires(c, known, bools, p)
    ensures Concludes(c, known, bools, more, p)
  {
    var ua, ub, uc := Unknown(c.a, known), Unknown(c.b, known), Unknown(c.c, known);
    more := {};
    ghost var bits := BitsApply(c.c, uc, bools, p);
    if ua == {} && ub == {} && |uc| == 1 {
      more := uc;
    } else if ua == {} && ub == {} && uc == {} {
    } else if NonzeroConst(c.a, p) && |ub| == 1 && uc == {} {
      more := ub;
    } else if NonzeroConst(c.b, p) && |ua| == 1 && uc == {} {
      more := ua;
    } else if ua == {} && ub == {} {
      var ok := DecompositionTest(c.c, uc, bools, p);
      if ok { more := uc; }
      assert ok == bits;
    }
    assert more == {} <==> !Branches(ua, ub, uc, NonzeroConst(c.a, p), NonzeroConst(c.b, p), bits);
  }

  ghost predicate NormalConstraint(c: Constraint, p: int) { Normal(c.a, p) && Normal(c.b, p) && Normal(c.c, p) }

  ghost predicate Learns(c: Constraint, known: set<nat>, bools: set<nat>, more: set<nat>, p: int)
    requires p > 0
  {
    forall w: Witness, w': Witness :: LearnsAt(c, known, bools, more, w, w', p)
  }

  ghost predicate LearnsAt(c: Constraint, known: set<nat>, bools: set<nat>, more: set<nat>, w: Witness, w': Witness, p: int)
    requires p > 0
  {
    Fits(w, bools, p) && Fits(w', bools, p) && Sat(c, w, p) && Sat(c, w', p) && Agree(w, w', known) ==> Agree(w, w', more)
  }

  /** What a rule may conclude. */
  ghost predicate Concludes(c: Constraint, known: set<nat>, bools: set<nat>, more: set<nat>, p: int)
    requires p > 0
  {
    var (ua, ub, uc) := (Unknown(c.a, known), Unknown(c.b, known), Unknown(c.c, known));
    || more == {}
    || (ua == {} && ub == {} && |uc| == 1 && more == uc)
    || (NonzeroConst(c.a, p) && |ub| == 1 && uc == {} && more == ub)
    || (NonzeroConst(c.b, p) && |ua| == 1 && uc == {} && more == ua)
    || (ua == {} && ub == {} && BitsApply(c.c, uc, bools, p) && more == uc)
  }

  lemma LearnSound(c: Constraint, known: set<nat>, bools: set<nat>, more: set<nat>, p: int)
    requires IsPrime(p) && Wide(p) && NormalConstraint(c, p) && Concludes(c, known, bools, more, p)
    ensures Learns(c, known, bools, more, p)
  {
    forall w: Witness, w': Witness ensures LearnsAt(c, known, bools, more, w, w', p) {
      if Fits(w, bools, p) && Fits(w', bools, p) && Sat(c, w, p) && Sat(c, w', p) && Agree(w, w', known) {
        LearnSoundAt(c, known, bools, more, w, w', p);
      }
    }
  }

  lemma ThirdDetermined(c: Constraint, known: set<nat>, bools: set<nat>, w: Witness, w': Witness, p: int)
    requires IsPrime(p) && Wide(p) && NormalConstraint(c, p)
    requires Fits(w, bools, p) && Fits(w', bools, p) && Sat(c, w, p) && Sat(c, w', p) && Agree(w, w', known)
    requires Unknown(c.a, known) == {} && Unknown(c.b, known) == {}
    requires var uc := Unknown(c.c, known); |uc| == 1 || BitsApply(c.c, uc, bools, p)
    ensures Agree(w, w', Unknown(c.c, known))
  {
    var uc := Unknown(c.c, known);
    KnownProduct(c, known, w, w', p);
    if |uc| == 1 {
      var x :| x in uc;
      SingletonSet(uc, x);
      OneUnknown(c.c, known, x, w, w', p);
    } else {
      var bs :| IsDecomposition(c.c, uc, bs, p);
      BitsDetermined(c.c, known, uc, bs, w, w', p);
    }
  }

  lemma FactorDetermined(x: LC, y: LC, z: LC, known: set<nat>, w: Witness, w': Witness, p: int)
    requires IsPrime(p) && IsWitness(w, p) && IsWitness(w', p) && Agree(w, w', known) && Normal(y, p)
    requires Sat(R1C(x, y, z), w, p) && Sat(R1C(x, y, z), w', p)
    requires NonzeroConst(x, p) && Unknown(z, known) == {} && |Unknown(y, known)| == 1
    ensures Agree(w, w', Unknown(y, known))
  {
    KnownQuotient(x, y, z, known, w, w', p);
    var v :| v in Unknown(y, known);
    SingletonSet(Unknown(y, known), v);
    OneUnknown(y, known, v, w, w', p);
  }

  lemma LearnSoundAt(c: Constraint, known: set<nat>, bools: set<nat>, more: set<nat>, w: Witness, w': Witness, p: int)
    requires IsPrime(p) && Wide(p) && NormalConstraint(c, p) && Concludes(c, known, bools, more, p)
    requires Fits(w, bools, p) && Fits(w', bools, p) && Sat(c, w, p) && Sat(c, w', p) && Agree(w, w', known)
    ensures Agree(w, w', more)
  {
    if more != {} {
      if Unknown(c.a, known) == {} && Unknown(c.b, known) == {} && more == Unknown(c.c, known) {
        ThirdDetermined(c, known, bools, w, w', p);
      } else if NonzeroConst(c.a, p) && more == Unknown(c.b, known) && |more| == 1 && Unknown(c.c, known) == {} {
        assert R1C(c.a, c.b, c.c) == c;
        FactorDetermined(c.a, c.b, c.c, known, w, w', p);
      } else {
        SwapFactors(c, w, p);
        SwapFactors(c, w', p);
        FactorDetermined(c.b, c.a, c.c, known, w, w', p);
      }
    }
  }

  lemma SwapFactors(c: Constraint, w: Witness, p: int)
    requires p > 0 && Sat(c, w, p)
    ensures Sat(R1C(c.b, c.a, c.c), w, p)
  {
    assert Sum(c.b, w) * Sum(c.a, w) == Sum(c.a, w) * Sum(c.b, w);
  }

  lemma DeterminesStep(cs: seq<Constraint>, n: nat, bools: set<nat>, from: set<nat>, known: set<nat>, more: set<nat>, p: int)
    requires p > 0 && n < |cs| && Determines(cs, bools, from, known, p) && Learns(cs[n], known, bools, more, p)
    ensures Determines(cs, bools, from, known + more, p)
  {
    var all := known + more;
    forall w: Witness, w': Witness ensures DeterminesAt(cs, bools, from, all, w, w', p) {
      assert DeterminesAt(cs, bools, from, known, w, w', p) && LearnsAt(cs[n], known, bools, more, w, w', p);
    }
  }

  ghost predicate Stuck(cs: seq<Constraint>, n: nat, known: set<nat>, bools: set<nat>, p: int)
    requires p > 0 && n <= |cs|
  {
    forall i :: 0 <= i < n ==> !Fires(cs[i], known, bools, p)
  }

  lemma StuckStep(cs: seq<Constraint>, n: nat, known: set<nat>, bools: set<nat>, p: int)
    requires p > 0 && n < |cs| && Stuck(cs, n, known, bools, p) && !Fires(cs[n], known, bools, p)
    ensures Stuck(cs, n + 1, known, bools, p)
  {
    forall i | 0 <= i < n + 1 ensures !Fires(cs[i], known, bools, p) {
      assert i == n || i < n;
      if i < n { assert !Fires(cs[i], known, bools, p); }
    }
  }

  /** One step of a pass. */
  method LearnNext(cs: seq<Constraint>, n: nat, ghost start: set<nat>, known: set<nat>, bools: set<nat>, p: int) returns (more: set<nat>)
    requires IsPrime(p) && Wide(p) && n < |cs| && NormalConstraint(cs[n], p)
    requires Determines(cs, bools, start, known, p)
    ensures more <= UnionWires(cs) && more !! known
    ensures Determines(cs, bools, start, known + more, p)
    ensures more == {} && Stuck(cs, n, known, bools, p) ==> Stuck(cs, n + 1, known, bools, p)
  {
    more := Learn(cs[n], known, bools, p);
    LearnSound(cs[n], known, bools, more, p);
    DeterminesStep(cs, n, bools, start, known, more, p);
    UnionWiresCovers(cs);
    if more == {} && Stuck(cs, n, known, bools, p) { StuckStep(cs, n, known, bools, p); }
  }

  /** One pass over the constraints. */
  method Pass(cs: seq<Constraint>, ghost start: set<nat>, before: set<nat>, bools: set<nat>, p: int) returns (known: set<nat>, changed: bool)
    requires IsPrime(p) && Wide(p)
    requires forall i :: 0 <= i < |cs| ==> NormalConstraint(cs[i], p)
    requires Determines(cs, bools, start, before, p)
    ensures before <= known <= before + UnionWires(cs)
    ensures Determines(cs, bools, start, known, p)
    ensures if changed then UnionWires(cs) - known < UnionWires(cs) - before else known == before && Stuck(cs, |cs|, known, bools, p)
  {
    known, changed := before, false;
    var n := 0;
    while n < |cs|
      invariant 0 <= n <= |cs|
      invariant before <= known <= before + UnionWires(cs)
      invariant Determines(cs, bools, start, known, p)
      invariant if changed then UnionWires(cs) - known < UnionWires(cs) - before else known == before && Stuck(cs, n, known, bools, p)
    {
      var more := LearnNext(cs, n, start, known, bools, p);
      if more != {} {
        Shrinks(UnionWires(cs), known, more);
        changed := true;
      }
      known := known + more;
      n := n + 1;
    }
  }

  /** `propagate` (determinism.py:29-63): the result is determined by the wires known at
      the start, and it is closed: no rule applies to any constraint. */
  method Propagate(cs: seq<Constraint>, start: set<nat>, bools: set<nat>, p: int) returns (known: set<nat>)
    requires IsPrime(p) && Wide(p)
    requires forall i :: 0 <= i < |cs| ==> NormalConstraint(cs[i], p)
    ensures start <= known <= start + UnionWires(cs)
    ensures Determines(cs, bools, start, known, p)
    ensures Stuck(cs, |cs|, known, bools, p)
  {
    known := start;
    assert Determines(cs, bools, start, known, p) by {
      forall w: Witness, w': Witness ensures DeterminesAt(cs, bools, start, start, w, w', p) {}
    }
    var changed := true;
    while changed
      invariant start <= known <= start + UnionWires(cs)
      invariant Determines(cs, bools, start, known, p)
      invariant !changed ==> Stuck(cs, |cs|, known, bools, p)
      decreases UnionWires(cs) - known, changed
    {
      known, changed := Pass(cs, start, known, bools, p);
    }
  }

  lemma Shrinks(u: set<nat>, known: set<nat>, more: set<nat>)
    requires more != {} && more <= u - known
    ensures u - (known + more) < u - known
  {
    var x :| x in more;
    assert x in u - known && x !in u - (known + more);
  }
}

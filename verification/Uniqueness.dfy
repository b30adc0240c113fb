/** The whole uniqueness analysis of one circuit: classes and boolean wires from the
    encoder, propagation, and hash outputs that become known once their inputs are. */
module Uniqueness {
  import opened Arith
  import opened LinComb
  import opened Formulas
  import opened Classes
  import opened Encoding
  import opened Encoder
  import opened Determinism
  import opened BitSums
  import opened HashModel
  import opened Wrappers

  ghost predicate Uniquely(cs: seq<Constraint>, hs: seq<HashCall>, bools: set<nat>, from: set<nat>, to: set<nat>, p: int)
    requires p > 0
  {
    forall w: Witness, w': Witness, h: HashFunction :: UniquelyAt(cs, hs, bools, from, to, w, w', h, p)
  }

  ghost predicate UniquelyAt(cs: seq<Constraint>, hs: seq<HashCall>, bools: set<nat>, from: set<nat>, to: set<nat>,
                             w: Witness, w': Witness, h: HashFunction, p: int)
    requires p > 0
  {
    TwoSolutions(cs, bools, w, w', p) && Obeys(w, hs, h) && Obeys(w', hs, h) && Agree(w, w', from) ==> Agree(w, w', to)
  }

  predicate InputsKnown(c: HashCall, known: set<nat>) { forall i :: i in c.ins ==> i in known }

  function Outputs(hs: seq<HashCall>): set<nat> { set i | 0 <= i < |hs| :: hs[i].out }

  lemma HashStep(cs: seq<Constraint>, hs: seq<HashCall>, n: nat, bools: set<nat>, from: set<nat>, known: set<nat>, p: int)
    requires p > 0 && n < |hs| && Uniquely(cs, hs, bools, from, known, p) && InputsKnown(hs[n], known)
    ensures Uniquely(cs, hs, bools, from, known + {hs[n].out}, p)
  {
    var more := known + {hs[n].out};
    forall w: Witness, w': Witness, h: HashFunction ensures UniquelyAt(cs, hs, bools, from, more, w, w', h, p) {
      assert UniquelyAt(cs, hs, bools, from, known, w, w', h, p);
      if TwoSolutions(cs, bools, w, w', p) && Obeys(w, hs, h) && Obeys(w', hs, h) && Agree(w, w', from) {
        assert Arguments(w, hs[n].ins) == Arguments(w', hs[n].ins);
      }
    }
  }

  lemma PropagateStep(cs: seq<Constraint>, hs: seq<HashCall>, bools: set<nat>, from: set<nat>, known: set<nat>, more: set<nat>, p: int)
    requires p > 0 && Uniquely(cs, hs, bools, from, known, p) && Determines(cs, bools, known, more, p)
    ensures Uniquely(cs, hs, bools, from, more, p)
  {
    forall w: Witness, w': Witness, h: HashFunction ensures UniquelyAt(cs, hs, bools, from, more, w, w', h, p) {
      assert UniquelyAt(cs, hs, bools, from, known, w, w', h, p) && DeterminesAt(cs, bools, known, more, w, w', p);
    }
  }

  /** Add the outputs of the calls whose inputs are known (determinism.py:108-110). */
  method AddOutputs(cs: seq<Constraint>, hs: seq<HashCall>, bools: set<nat>, ghost from: set<nat>, start: set<nat>, p: int)
    returns (known: set<nat>)
    requires p > 0 && Uniquely(cs, hs, bools, from, start, p)
    ensures start <= known <= start + Outputs(hs)
    ensures Uniquely(cs, hs, bools, from, known, p)
    ensures forall i :: 0 <= i < |hs| && InputsKnown(hs[i], start) ==> hs[i].out in known
  {
    known := start;
    var n := 0;
    while n < |hs|
      invariant 0 <= n <= |hs| && start <= known <= start + Outputs(hs)
      invariant Uniquely(cs, hs, bools, from, known, p)
      invariant forall i :: 0 <= i < n && InputsKnown(hs[i], start) ==> hs[i].out in known
    {
      if forall i :: i in hs[n].ins ==> i in known {
        HashStep(cs, hs, n, bools, from, known, p);
        known := known + {hs[n].out};
      }
      n := n + 1;
    }
  }

  lemma SubsetCard(a: set<nat>, b: set<nat>)
    requires a <= b
    ensures |a| <= |b|
    ensures |a| == |b| ==> a == b
  {
    assert b == a + (b - a);
    assert |b| == |a| + |b - a|;
  }

  /** The outer loop (determinism.py:105-113): the result is a function of the inputs, and
      nothing more can be derived by a rule or by a hash call. */
  method KnownWires(cs: seq<Constraint>, hs: seq<HashCall>, inputs: set<nat>, bools: set<nat>, p: int) returns (known: set<nat>)
    requires IsPrime(p) && Wide(p) && forall i :: 0 <= i < |cs| ==> NormalConstraint(cs[i], p)
    ensures inputs <= known
    ensures Uniquely(cs, hs, bools, inputs, known, p)
    ensures Stuck(cs, |cs|, known, bools, p)
    ensures forall i :: 0 <= i < |hs| && InputsKnown(hs[i], known) ==> hs[i].out in known
  {
    known := inputs;
    assert Uniquely(cs, hs, bools, inputs, known, p) by {
      forall w: Witness, w': Witness, h: HashFunction ensures UniquelyAt(cs, hs, bools, inputs, inputs, w, w', h, p) {}
    }
    ghost var all := inputs + Outputs(hs) + UnionWires(cs);
    var done := false;
    while !done
      invariant inputs <= known <= all
      invariant Uniquely(cs, hs, bools, inputs, known, p)
      invariant done ==> Stuck(cs, |cs|, known, bools, p) && forall i :: 0 <= i < |hs| && InputsKnown(hs[i], known) ==> hs[i].out in known
      decreases |all| - |known|, !done
    {
      var before := known;
      var mid := AddOutputs(cs, hs, bools, inputs, before, p);
      known := Propagate(cs, mid, bools, p);
      PropagateStep(cs, hs, bools, inputs, mid, known, p);
      done := |known| == |before|;
      SubsetCard(before, known);
      SubsetCard(known, all);
    }
  }

  // ---- the circuit's own classes and boolean wires ------------------------------------

  /** `lc_norm` (determinism.py:66-67). */
  function LcNorm(l: LC, p: int): (r: LC)
    requires p > 0
    ensures Normal(r, p)
  {
    map k | k in l && l[k] % p != 0 :: l[k] % p
  }

  ghost predicate NormKeeps(l: LC, w: Witness, p: int)
    requires p > 0
  {
    Congruent(Sum(LcNorm(l, p), w), Sum(l, w), p)
  }

  lemma ReduceTerm(c: int, x: int, n: int, s: int, n': int, s': int, p: int)
    requires p > 0 && Congruent(n, s, p) && n' == (c % p) * x + n && s' == c * x + s
    ensures Congruent(n', s', p)
  {
    ModSelf(c, p);
    ModScale(x, c - c % p, p);
    ModAdd(n - s, x * (c - c % p), p);
    assert x * (c - c % p) == c * x - (c % p) * x;
  }

  lemma {:induction false} LcNormSum(l: LC, w: Witness, p: int)
    requires p > 0
    ensures NormKeeps(l, w, p)
    decreases |l|
  {
    if l == map[] {
      assert LcNorm(l, p) == map[];
    } else {
      var k :| k in l;
      LcNormSum(l - {k}, w, p);
      SumRemove(l, k, w);
      LcNormRemove(l, k, w, p);
      ReduceTerm(l[k], w(k), Sum(LcNorm(l - {k}, p), w), Sum(l - {k}, w), Sum(LcNorm(l, p), w), Sum(l, w), p);
    }
  }

  lemma LcNormRemove(l: LC, k: nat, w: Witness, p: int)
    requires p > 0 && k in l
    ensures Sum(LcNorm(l, p), w) == (l[k] % p) * w(k) + Sum(LcNorm(l - {k}, p), w)
  {
    if l[k] % p == 0 {
      assert LcNorm(l, p) == LcNorm(l - {k}, p);
    } else {
      SumRemove(LcNorm(l, p), k, w);
      assert LcNorm(l, p) - {k} == LcNorm(l - {k}, p);
    }
  }

  function NormAll(cs: seq<Constraint>, p: int): (ds: seq<Constraint>)
    requires p > 0
    ensures |ds| == |cs|
    ensures forall i :: 0 <= i < |cs| ==> ds[i] == R1C(LcNorm(cs[i].a, p), LcNorm(cs[i].b, p), LcNorm(cs[i].c, p))
  {
    seq(|cs|, i requires 0 <= i < |cs| => R1C(LcNorm(cs[i].a, p), LcNorm(cs[i].b, p), LcNorm(cs[i].c, p)))
  }

  lemma NormAllSat(cs: seq<Constraint>, w: Witness, p: int)
    requires p > 0 && SatAll(cs, w, p)
    ensures SatAll(NormAll(cs, p), w, p)
  {
    var ds := NormAll(cs, p);
    forall i | 0 <= i < |ds| ensures Sat(ds[i], w, p) {
      LcNormSum(cs[i].a, w, p);
      LcNormSum(cs[i].b, w, p);
      LcNormSum(cs[i].c, w, p);
      assert Sat(cs[i], w, p);
      CongruentSat(Sum(cs[i].a, w), Sum(ds[i].a, w), Sum(cs[i].b, w), Sum(ds[i].b, w), Sum(cs[i].c, w), Sum(ds[i].c, w), p);
    }
  }

  /** Every solution of the circuit carries bits on the wires whose class is boolean. */
  lemma BoolClasses(cs: seq<Constraint>, norm: seq<Sourced>, contradiction: bool, rep: map<nat, nat>, fixed: map<nat, int>,
                    reps: set<nat>, bools: set<nat>, w: Witness, p: int)
    requires IsPrime(p) && Equivalent(cs, Constraints(norm), contradiction, rep, fixed, p)
    requires forall i :: 0 <= i < |norm| ==> Normal(norm[i].con.a, p) && Normal(norm[i].con.b, p)
    requires forall v :: v in reps ==> IsBit(Constraints(norm), v, p)
    requires forall v :: v in bools ==> RepOf(rep, v) in reps || v in reps
    requires IsWitness(w, p) && SatAll(cs, w, p)
    ensures Fits(w, bools, p)
  {
    assert EquivalentAt(cs, Constraints(norm), contradiction, rep, fixed, w, p);
    forall v | v in bools ensures w(v) == 0 || w(v) == 1 {
      var r := if v in reps then v else RepOf(rep, v);
      var i :| 0 <= i < |norm| && IsBitConstraint(Constraints(norm)[i], r, p);
      assert Sat(Constraints(norm)[i], w, p);
      BitConstraint(norm[i].con, r, w, p);
    }
  }

  /** Solutions of the circuit that agree on the inputs agree on every reported wire. */
  ghost predicate UniqueWires(cs: seq<Constraint>, hs: seq<HashCall>, from: set<nat>, to: set<nat>, p: int)
    requires p > 0
  {
    forall w: Witness, w': Witness, h: HashFunction :: UniqueWiresAt(cs, hs, from, to, w, w', h, p)
  }

  ghost predicate UniqueWiresAt(cs: seq<Constraint>, hs: seq<HashCall>, from: set<nat>, to: set<nat>,
                                w: Witness, w': Witness, h: HashFunction, p: int)
    requires p > 0
  {
    (IsWitness(w, p) && IsWitness(w', p) && SatAll(cs, w, p) && SatAll(cs, w', p) &&
     Obeys(w, hs, h) && Obeys(w', hs, h) && Agree(w, w', from)) ==> Agree(w, w', to)
  }

  /** The wires whose class representative is boolean (determinism.py:103). */
  method BoolWires(model: Model, nWires: nat) returns (bools: set<nat>)
    requires model.Valid()
    modifies model`parent
    ensures model.Valid()
    ensures forall u :: u in bools ==> u in model.boolWires || (1 <= u < nWires && RepOf(model.rep, u) in model.boolWires)
    ensures forall u :: u in model.boolWires || (1 <= u < nWires && RepOf(model.rep, u) in model.boolWires) ==> u in bools
  {
    bools := model.boolWires;
    var v: nat := 1;
    while v < nWires
      invariant model.Valid() && 1 <= v
      invariant forall u :: u in bools ==> u in model.boolWires || (1 <= u < nWires && RepOf(model.rep, u) in model.boolWires)
      invariant forall u :: u in model.boolWires || (1 <= u < v && RepOf(model.rep, u) in model.boolWires) ==> u in bools
    {
      var r := model.Find(v);
      if r in model.boolWires { bools := bools + {v}; }
      v := v + 1;
    }
  }

  /** Every solution of the system carries bits on these wires. */
  ghost predicate CarryBits(cs: seq<Constraint>, bools: set<nat>, p: int)
    requires p > 0
  {
    forall w: Witness :: CarryBitsAt(cs, bools, w, p)
  }

  ghost predicate CarryBitsAt(cs: seq<Constraint>, bools: set<nat>, w: Witness, p: int)
    requires p > 0
  {
    IsWitness(w, p) && SatAll(cs, w, p) ==> Fits(w, bools, p)
  }

  /** The boolean wires of a circuit: those of the classes that a normalised constraint
      forces to be bits, and no others. */
  ghost predicate BoolsOf(bools: set<nat>, norm: seq<Sourced>, rep: map<nat, nat>, nWires: nat, p: int)
    requires p > 0
  {
    forall u: nat :: u in bools <==> IsBit(Constraints(norm), u, p) || (1 <= u < nWires && IsBit(Constraints(norm), RepOf(rep, u), p))
  }

  /** They are found by the encoder and spread over its classes. */
  method CircuitBools(cs: seq<Constraint>, nWires: nat, p: int)
    returns (bools: set<nat>, ghost norm: seq<Sourced>, ghost rep: map<nat, nat>, ghost fixed: map<nat, int>)
    requires IsPrime(p)
    ensures CarryBits(cs, bools, p)
    ensures BoolsOf(bools, norm, rep, nWires, p)
    ensures Substituted(cs, norm, rep, fixed, p)
  {
    var model := new Model.Build(p, cs);
    norm, rep, fixed := model.normAll, model.rep, model.fixed;
    model.ValidRoots();
    ghost var flag, open, forms := model.contradiction, model.Open(), model.forms;
    assert SubstitutedBy(cs, norm, flag, forms, open, rep, fixed, p);
    model.Select(None);
    KeptAll(norm);
    ghost var reps := model.boolWires;
    bools := BoolWires(model, nWires);
    BoolsExact(bools, reps, norm, rep, nWires, p);
    AllCarryBits(cs, norm, flag, rep, fixed, reps, bools, p);
  }

  lemma AllCarryBits(cs: seq<Constraint>, norm: seq<Sourced>, contradiction: bool, rep: map<nat, nat>, fixed: map<nat, int>,
                     reps: set<nat>, bools: set<nat>, p: int)
    requires IsPrime(p) && Equivalent(cs, Constraints(norm), contradiction, rep, fixed, p)
    requires forall i :: 0 <= i < |norm| ==> Normal(norm[i].con.a, p) && Normal(norm[i].con.b, p)
    requires forall v :: v in reps ==> IsBit(Constraints(norm), v, p)
    requires forall v :: v in bools ==> RepOf(rep, v) in reps || v in reps
    ensures CarryBits(cs, bools, p)
  {
    forall w: Witness ensures CarryBitsAt(cs, bools, w, p) {
      if IsWitness(w, p) && SatAll(cs, w, p) { BoolClasses(cs, norm, contradiction, rep, fixed, reps, bools, w, p); }
    }
  }

  /** The normalised system belongs to the circuit, and substitution went to the end. */
  ghost predicate Substituted(cs: seq<Constraint>, norm: seq<Sourced>, rep: map<nat, nat>, fixed: map<nat, int>, p: int)
    requires p > 0
  {
    exists flag, forms, open :: SubstitutedBy(cs, norm, flag, forms, open, rep, fixed, p)
  }

  ghost predicate SubstitutedBy(cs: seq<Constraint>, norm: seq<Sourced>, flag: bool, forms: seq<Constraint>, open: set<nat>,
                                rep: map<nat, nat>, fixed: map<nat, int>, p: int)
    requires p > 0
  {
    && OpenOk(open, rep, fixed) && |forms| == |cs| && IsNormalised(norm, flag, forms, cs, open, rep, fixed, p)
    && (forall i :: 0 <= i < |forms| ==> Undecided(forms[i], p))
    && Equivalent(cs, Constraints(norm), flag, rep, fixed, p)
  }

  lemma BoolsExact(bools: set<nat>, reps: set<nat>, norm: seq<Sourced>, rep: map<nat, nat>, nWires: nat, p: int)
    requires p > 0 && (forall v :: v in reps <==> IsBit(Constraints(norm), v, p))
    requires forall u :: u in bools ==> u in reps || (1 <= u < nWires && RepOf(rep, u) in reps)
    requires forall u :: u in reps || (1 <= u < nWires && RepOf(rep, u) in reps) ==> u in bools
    ensures BoolsOf(bools, norm, rep, nWires, p)
  {
  }

  lemma AnalysisSound(cs: seq<Constraint>, hs: seq<HashCall>, bools: set<nat>, inputs: set<nat>, known: set<nat>, p: int)
    requires IsPrime(p) && CarryBits(cs, bools, p) && Uniquely(NormAll(cs, p), hs, bools, inputs, known, p)
    ensures UniqueWires(cs, hs, inputs, known, p)
  {
    var ds := NormAll(cs, p);
    forall w: Witness, w': Witness, h: HashFunction ensures UniqueWiresAt(cs, hs, inputs, known, w, w', h, p) {
      assert UniquelyAt(ds, hs, bools, inputs, known, w, w', h, p);
      assert CarryBitsAt(cs, bools, w, p) && CarryBitsAt(cs, bools, w', p);
      if SatAll(cs, w, p) && SatAll(cs, w', p) {
        NormAllSat(cs, w, p);
        NormAllSat(cs, w', p);
      }
    }
  }

  /** What the analysis reports: unique wires, closed under the rules, with the boolean wires
      of the circuit, and under the hash calls. */
  ghost predicate Reported(cs: seq<Constraint>, hs: seq<HashCall>, inputs: set<nat>, nWires: nat, known: set<nat>,
                           bools: set<nat>, norm: seq<Sourced>, rep: map<nat, nat>, fixed: map<nat, int>, p: int)
    requires p > 0
  {
    && inputs <= known && UniqueWires(cs, hs, inputs, known, p)
    && Stuck(NormAll(cs, p), |cs|, known, bools, p)
    && (forall i :: 0 <= i < |hs| && InputsKnown(hs[i], known) ==> hs[i].out in known)
    && BoolsOf(bools, norm, rep, nWires, p) && Substituted(cs, norm, rep, fixed, p)
  }

  /** The U2 analysis (determinism.py:96-116) on the constraints that survive abstraction. */
  method UniqueByPropagation(cs: seq<Constraint>, hs: seq<HashCall>, inputs: set<nat>, nWires: nat, p: int)
    returns (known: set<nat>, ghost bools: set<nat>, ghost norm: seq<Sourced>, ghost rep: map<nat, nat>, ghost fixed: map<nat, int>)
    requires IsPrime(p) && Wide(p)
    ensures Reported(cs, hs, inputs, nWires, known, bools, norm, rep, fixed, p)
  {
    var bits;
    bits, norm, rep, fixed := CircuitBools(cs, nWires, p);
    bools := bits;
    known := KnownWires(NormAll(cs, p), hs, inputs, bits, p);
    AnalysisSound(cs, hs, bits, inputs, known, p);
  }
}

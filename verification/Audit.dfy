/** What the tools conclude from the solver's answers: clauses of a circuit, proved one after
    the other on slices of its encoding. */
module Audit {
  import opened Arith
  import opened LinComb
  import opened Formulas
  import opened Classes
  import opened Encoding
  import opened Encoder
  import opened HashModel
  import opened Wrappers

  /** A statement about the wires, the multiplications and the hashes of a circuit. */
  type Claim = (Interp, HashFunction) -> bool

  /** The assertions given to the solver with the formulas (audit_circuit.py:46-48). The wires
      stand for their expressions, so only assignments that respect the classes count. */
  ghost predicate Admits(fs: seq<Formula>, apps: seq<(nat, nat)>, hs: seq<HashCall>, rep: map<nat, nat>, fixed: map<nat, int>,
                         m: Interp, s: Symbols, p: int)
    requires p > 0
  {
    && IsWitness(m.w, p) && Respects(m.w, rep, fixed) && HoldAll(fs, m, p) && MulRange(m, apps)
    && Obeys(m.w, hs, s.h) && HashAxioms(s, Calls(m.w, hs), p)
  }

  /** The further assumptions of a query: claims, and that the multiplications in them are exact. */
  ghost predicate Assumes(given: seq<Claim>, exact: bool, m: Interp, h: HashFunction) {
    (exact ==> Multiplies(m)) && forall i :: 0 <= i < |given| ==> given[i](m, h)
  }

  /** The answer "unsat" to the query for the negated claim. */
  ghost predicate Refuted(fs: seq<Formula>, apps: seq<(nat, nat)>, hs: seq<HashCall>, rep: map<nat, nat>, fixed: map<nat, int>,
                          given: seq<Claim>, exact: bool, claim: Claim, p: int)
    requires p > 0
  {
    forall m: Interp, s: Symbols :: Admits(fs, apps, hs, rep, fixed, m, s, p) && Assumes(given, exact, m, s.h) ==> claim(m, s.h)
  }

  /** A solution of the circuit under a hash, without a collision among its own hash calls. */
  ghost predicate Solution(cs: seq<Constraint>, hs: seq<HashCall>, w: Witness, h: HashFunction, p: int)
    requires p > 0
  {
    IsWitness(w, p) && SatAll(cs, w, p) && Obeys(w, hs, h) && CollisionFree(h, Calls(w, hs))
  }

  /** The claim is true of every solution, `mul` being the integer product. */
  ghost predicate True(cs: seq<Constraint>, hs: seq<HashCall>, claim: Claim, p: int)
    requires p > 0
  {
    forall w: Witness, h: HashFunction :: TrueAt(cs, hs, claim, w, h, p)
  }

  ghost predicate TrueAt(cs: seq<Constraint>, hs: seq<HashCall>, claim: Claim, w: Witness, h: HashFunction, p: int)
    requires p > 0
  {
    Solution(cs, hs, w, h, p) ==> claim(IntegerReading(w), h)
  }

  lemma SolutionAdmitted(cs: seq<Constraint>, norm: seq<Sourced>, support: Option<set<nat>>, bools: set<nat>, contradiction: bool,
                         rep: map<nat, nat>, fixed: map<nat, int>, fs: seq<Formula>, apps: seq<(nat, nat)>, hs: seq<HashCall>,
                         w: Witness, h: HashFunction, p: int)
    requires IsPrime(p) && Encoded(cs, norm, support, bools, contradiction, rep, fixed, fs, p) && Solution(cs, hs, w, h, p)
    ensures Admits(fs, apps, hs, rep, fixed, IntegerReading(w), SymbolsOf(h, Calls(w, hs)), p)
  {
    SolutionFits(cs, norm, support, bools, contradiction, rep, fixed, fs, IntegerReading(w), p);
    ProductInRange(IntegerReading(w), apps);
    OutputsInRange(w, hs, h, p);
    AxiomsExactly(h, Calls(w, hs), p);
  }

  /** The use made of an encoding: if the solver refutes the negation of a claim under
      assumptions that are true, every solution of the original system satisfies the claim,
      or exhibits a hash collision. */
  lemma RefutationIsProof(fs: seq<Formula>, apps: seq<(nat, nat)>, hs: seq<HashCall>, cs: seq<Constraint>, norm: seq<Sourced>,
                          support: Option<set<nat>>, bools: set<nat>, contradiction: bool,
                          rep: map<nat, nat>, fixed: map<nat, int>, given: seq<Claim>, exact: bool, claim: Claim, p: int)
    requires IsPrime(p) && Encoded(cs, norm, support, bools, contradiction, rep, fixed, fs, p)
    requires forall i :: 0 <= i < |given| ==> True(cs, hs, given[i], p)
    requires Refuted(fs, apps, hs, rep, fixed, given, exact, claim, p)
    ensures True(cs, hs, claim, p)
  {
    forall w: Witness, h: HashFunction ensures TrueAt(cs, hs, claim, w, h, p) {
      if Solution(cs, hs, w, h, p) {
        SolutionAdmitted(cs, norm, support, bools, contradiction, rep, fixed, fs, apps, hs, w, h, p);
        forall i | 0 <= i < |given| ensures given[i](IntegerReading(w), h) { assert TrueAt(cs, hs, given[i], w, h, p); }
        assert Assumes(given, exact, IntegerReading(w), h);
      }
    }
  }

  /** Substitution alone can decide a claim: for `1 * (x - y) = 0` nothing is left to emit, and
      the claim `x = y` is refuted because both wires have one variable. */
  lemma MergedWires(x: nat, y: nat, hs: seq<HashCall>, p: int)
    requires IsPrime(p) && x != 0 && y != 0 && x != y
    ensures var cs := [R1C(map[0 := 1], map[x := 1, y := p - 1], map[])];
      && Encoded(cs, [], None, {}, false, map[x := y], map[], [], p)
      && Refuted([], [], hs, map[x := y], map[], [], false, (m: Interp, h: HashFunction) => m.w(x) == m.w(y), p)
  {
    var c := R1C(map[0 := 1], map[x := 1, y := p - 1], map[]);
    var cs := [c];
    forall w: Witness ensures EquivalentAt(cs, Constraints([]), false, map[x := y], map[], w, p) {
      if IsWitness(w, p) {
        SumConst(c.a, w);
        SumDouble(c.b, x, y, w);
        MergedSat(w(x), w(y), Sum(c.b, w), p);
        assert Sat(c, w, p) <==> w(x) == w(y);
        assert SatAll(cs, w, p) <==> Sat(cs[0], w, p);
        assert x in map[x := y];
        assert Respects(w, map[x := y], map[]) <==> w(x) == w(y);
      }
    }
    forall m: Interp ensures EncodesAt([], Kept([], None), {}, false, m, p) {}
  }

  lemma MergedSat(x: int, y: int, s: int, p: int)
    requires IsPrime(p) && 0 <= x < p && 0 <= y < p && s == x + (p - 1) * y
    ensures (1 * s - 0) % p == 0 <==> x == y
  {
    assert s == x - y + y * p;
    MultipleOf(y, p);
    ModShift(s, x - y, p);
    if (x - y) % p == 0 { ResidueUnique(x, y, p); }
    if x == y { DivModUnique(x - y, 0, 0, p); }
  }

  // ---- one slice -----------------------------------------------------------------------

  /** A refutation of the query proves the claim, whatever the claim is. */
  ghost predicate Proves(cs: seq<Constraint>, hs: seq<HashCall>, fs: seq<Formula>, apps: seq<(nat, nat)>,
                         rep: map<nat, nat>, fixed: map<nat, int>, p: int)
    requires p > 0
  {
    forall given: seq<Claim>, exact: bool, claim: Claim ::
      Refuted(fs, apps, hs, rep, fixed, given, exact, claim, p) && (forall i :: 0 <= i < |given| ==> True(cs, hs, given[i], p)) ==>
        True(cs, hs, claim, p)
  }

  /** A model built from a system and encoded for a slice, with the classes behind `rep_expr`. */
  method Compile(cs: seq<Constraint>, hs: seq<HashCall>, support: Option<set<nat>>, p: int)
    returns (fs: seq<Formula>, apps: seq<(nat, nat)>, ghost rep: map<nat, nat>, ghost fixed: map<nat, int>)
    requires IsPrime(p)
    ensures Proves(cs, hs, fs, apps, rep, fixed, p)
    ensures Roots(rep, fixed) && Lists(apps, fs)
  {
    var model := new Model.Build(p, cs);
    fs, apps := model.Encode(support);
    rep, fixed := model.rep, model.fixed;
    model.ValidRoots();
    EncodedProves(fs, apps, hs, cs, model.normAll, support, model.boolWires, model.contradiction, rep, fixed, p);
  }

  lemma EncodedProves(fs: seq<Formula>, apps: seq<(nat, nat)>, hs: seq<HashCall>, cs: seq<Constraint>, norm: seq<Sourced>,
                      support: Option<set<nat>>, bools: set<nat>, contradiction: bool, rep: map<nat, nat>, fixed: map<nat, int>, p: int)
    requires IsPrime(p) && Encoded(cs, norm, support, bools, contradiction, rep, fixed, fs, p)
    ensures Proves(cs, hs, fs, apps, rep, fixed, p)
  {
    forall given: seq<Claim>, exact: bool, claim: Claim
      | Refuted(fs, apps, hs, rep, fixed, given, exact, claim, p) && forall i :: 0 <= i < |given| ==> True(cs, hs, given[i], p)
      ensures True(cs, hs, claim, p)
    {
      RefutationIsProof(fs, apps, hs, cs, norm, support, bools, contradiction, rep, fixed, given, exact, claim, p);
    }
  }

  // ---- the run over all clauses -----------------------------------------------------------

  datatype Clause = Clause(name: int, formula: Claim, support: Option<set<nat>>, assumed: seq<int>)

  datatype Query = Query(fs: seq<Formula>, apps: seq<(nat, nat)>, given: seq<Claim>, exact: bool, claim: Claim)

  /** The solver's answers, `true` for "unsat". */
  type Solver = Query -> bool

  ghost predicate Truthful(solver: Solver, hs: seq<HashCall>, rep: map<nat, nat>, fixed: map<nat, int>, p: int)
    requires p > 0
  {
    forall q: Query :: solver(q) ==> Refuted(q.fs, q.apps, hs, rep, fixed, q.given, q.exact, q.claim, p)
  }

  /** The formulas of the assumed clauses that have been proved so far. */
  function Known(proven: map<int, Claim>, names: seq<int>): (r: seq<Claim>)
    ensures forall c :: c in r <==> exists n :: n in names && n in proven && c == proven[n]
  {
    if names == [] then []
    else
      var n := names[|names| - 1];
      assert names == names[..|names| - 1] + [n];
      Known(proven, names[..|names| - 1]) + (if n in proven then [proven[n]] else [])
  }

  /** The clauses proved so far, by name; a later proof under the same name takes over. */
  function ProvenOf(clauses: seq<Clause>, proved: seq<bool>): map<int, Claim>
    requires |proved| == |clauses|
  {
    if clauses == [] then map[]
    else
      var n := |clauses| - 1;
      var before := ProvenOf(clauses[..n], proved[..n]);
      if proved[n] then before[clauses[n].name := clauses[n].formula] else before
  }

  /** The query put for a clause: its own slice, its formula, and of the clauses it assumes
      those proved before. */
  ghost predicate QueryFor(q: Query, c: Clause, proven: map<int, Claim>, norm: seq<Sourced>, contradiction: bool, p: int)
    requires p > 0
  {
    && q.claim == c.formula && q.exact == (c.assumed != []) && q.given == Known(proven, c.assumed)
    && Lists(q.apps, q.fs) && exists bools :: SliceOf(q.fs, Kept(norm, c.support), bools, contradiction, p)
  }

  ghost predicate SliceOf(fs: seq<Formula>, cs: seq<Constraint>, bools: set<nat>, contradiction: bool, p: int)
    requires p > 0
  {
    Encodes(fs, cs, bools, contradiction, p) && forall v :: v in bools <==> IsBit(cs, v, p)
  }

  /** The records of the first clauses: a clause counts as proved exactly if the solver refuted
      its query. */
  ghost predicate Recorded(clauses: seq<Clause>, proved: seq<bool>, queries: seq<Query>, solver: Solver,
                           norm: seq<Sourced>, contradiction: bool, p: int)
    requires p > 0
  {
    |proved| == |queries| <= |clauses| && forall k :: 0 <= k < |proved| ==> RecordedAt(clauses, proved, queries, solver, k, norm, contradiction, p)
  }

  ghost predicate RecordedAt(clauses: seq<Clause>, proved: seq<bool>, queries: seq<Query>, solver: Solver, k: nat,
                             norm: seq<Sourced>, contradiction: bool, p: int)
    requires p > 0 && k < |proved| == |queries| <= |clauses|
  {
    (proved[k] <==> solver(queries[k])) && QueryFor(queries[k], clauses[k], ProvenOf(clauses[..k], proved[..k]), norm, contradiction, p)
  }

  lemma RecordedNext(clauses: seq<Clause>, proved: seq<bool>, queries: seq<Query>, solver: Solver, q: Query, unsat: bool,
                     norm: seq<Sourced>, contradiction: bool, p: int)
    requires p > 0 && Recorded(clauses, proved, queries, solver, norm, contradiction, p) && |proved| < |clauses| && (unsat <==> solver(q))
    requires QueryFor(q, clauses[|proved|], ProvenOf(clauses[..|proved|], proved), norm, contradiction, p)
    ensures Recorded(clauses, proved + [unsat], queries + [q], solver, norm, contradiction, p)
    ensures ProvenOf(clauses[..|proved| + 1], proved + [unsat]) ==
              var before := ProvenOf(clauses[..|proved|], proved); if unsat then before[clauses[|proved|].name := clauses[|proved|].formula] else before
  {
    var n := |proved|;
    assert clauses[..n + 1][..n] == clauses[..n] && (proved + [unsat])[..n] == proved;
    forall k: nat | k < n ensures RecordedAt(clauses, proved + [unsat], queries + [q], solver, k, norm, contradiction, p) {
      RecordedKept(clauses, proved, queries, solver, q, unsat, k, norm, contradiction, p);
    }
    assert RecordedAt(clauses, proved + [unsat], queries + [q], solver, n, norm, contradiction, p);
  }

  lemma RecordedKept(clauses: seq<Clause>, proved: seq<bool>, queries: seq<Query>, solver: Solver, q: Query, unsat: bool, k: nat,
                     norm: seq<Sourced>, contradiction: bool, p: int)
    requires p > 0 && |proved| == |queries| < |clauses| && k < |proved| && RecordedAt(clauses, proved, queries, solver, k, norm, contradiction, p)
    ensures RecordedAt(clauses, proved + [unsat], queries + [q], solver, k, norm, contradiction, p)
  {
    assert (proved + [unsat])[..k] == proved[..k];
  }

  ghost predicate AllTrue(cs: seq<Constraint>, hs: seq<HashCall>, proven: map<int, Claim>, p: int)
    requires p > 0
  {
    forall n :: n in proven ==> True(cs, hs, proven[n], p)
  }

  /** Up to here the records are right, and what counts as proved is true. */
  ghost predicate Progress(cs: seq<Constraint>, hs: seq<HashCall>, clauses: seq<Clause>, proved: seq<bool>, queries: seq<Query>,
                           proven: map<int, Claim>, solver: Solver, norm: seq<Sourced>, contradiction: bool, p: int)
    requires p > 0
  {
    && Recorded(clauses, proved, queries, solver, norm, contradiction, p)
    && proven == ProvenOf(clauses[..|proved|], proved) && AllTrue(cs, hs, proven, p)
    && forall j :: 0 <= j < |proved| && proved[j] ==> True(cs, hs, clauses[j].formula, p)
  }

  lemma ProgressNext(cs: seq<Constraint>, hs: seq<HashCall>, clauses: seq<Clause>, proved: seq<bool>, queries: seq<Query>,
                     proven: map<int, Claim>, solver: Solver, q: Query, unsat: bool, norm: seq<Sourced>, contradiction: bool, p: int)
    requires p > 0 && Progress(cs, hs, clauses, proved, queries, proven, solver, norm, contradiction, p) && |proved| < |clauses|
    requires (unsat <==> solver(q)) && QueryFor(q, clauses[|proved|], proven, norm, contradiction, p)
    requires unsat ==> True(cs, hs, clauses[|proved|].formula, p)
    ensures Progress(cs, hs, clauses, proved + [unsat], queries + [q],
                     if unsat then proven[clauses[|proved|].name := clauses[|proved|].formula] else proven, solver, norm, contradiction, p)
  {
    RecordedNext(clauses, proved, queries, solver, q, unsat, norm, contradiction, p);
  }

  /** `run_clauses` (audit_circuit.py:42-71): a clause is reported as proved exactly if its query
      is refuted; with a truthful solver it is then true of all solutions, although later
      queries assume earlier clauses and each looks at its own slice. */
  method RunClauses(model: Model, hs: seq<HashCall>, clauses: seq<Clause>, solver: Solver) returns (proved: seq<bool>, ghost queries: seq<Query>)
    requires model.Valid() && Truthful(solver, hs, model.rep, model.fixed, model.p)
    requires Equivalent(model.constraints, Constraints(model.normAll), model.contradiction, model.rep, model.fixed, model.p)
    requires AllNormalOn(model.normAll, model.Open(), model.p)
    modifies model`normConstraints, model`boolWires
    ensures |proved| == |clauses| && Recorded(clauses, proved, queries, solver, model.normAll, model.contradiction, model.p)
    ensures forall k :: 0 <= k < |clauses| && proved[k] ==> True(model.constraints, hs, clauses[k].formula, model.p)
  {
    var proven: map<int, Claim> := map[];
    proved, queries := [], [];
    var k := 0;
    assert clauses[..0] == [];
    while k < |clauses|
      invariant 0 <= k <= |clauses| && |proved| == k && model.Valid()
      invariant Progress(model.constraints, hs, clauses, proved, queries, proven, solver, model.normAll, model.contradiction, model.p)
    {
      var unsat, q := Ask(model, hs, clauses[k], proven, solver);
      ProgressNext(model.constraints, hs, clauses, proved, queries, proven, solver, q, unsat, model.normAll, model.contradiction, model.p);
      if unsat { proven := proven[clauses[k].name := clauses[k].formula]; }
      proved, queries := proved + [unsat], queries + [q];
      k := k + 1;
    }
  }

  /** One clause (audit_circuit.py:46-55). */
  method Ask(model: Model, hs: seq<HashCall>, c: Clause, proven: map<int, Claim>, solver: Solver) returns (unsat: bool, ghost query: Query)
    requires model.Valid() && Truthful(solver, hs, model.rep, model.fixed, model.p)
    requires Equivalent(model.constraints, Constraints(model.normAll), model.contradiction, model.rep, model.fixed, model.p)
    requires AllNormalOn(model.normAll, model.Open(), model.p)
    requires AllTrue(model.constraints, hs, proven, model.p)
    modifies model`normConstraints, model`boolWires
    ensures (unsat <==> solver(query)) && QueryFor(query, c, proven, model.normAll, model.contradiction, model.p)
    ensures unsat ==> True(model.constraints, hs, c.formula, model.p)
  {
    var fs, apps := model.Encode(c.support);
    var given := Known(proven, c.assumed);
    var q := Query(fs, apps, given, c.assumed != [], c.formula);
    unsat := solver(q);
    query := q;
    assert SliceOf(fs, Kept(model.normAll, c.support), model.boolWires, model.contradiction, model.p);
    if unsat {
      forall i | 0 <= i < |given| ensures True(model.constraints, hs, given[i], model.p) { assert given[i] in given; }
      RefutationIsProof(fs, apps, hs, model.constraints, model.normAll, c.support, model.boolWires, model.contradiction,
                        model.rep, model.fixed, given, c.assumed != [], c.formula, model.p);
    }
  }
}

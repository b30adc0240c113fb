/** Uniqueness of the wires that propagation leaves open: one solver query over two copies of
    the system that share every known wire. */
module TwoCopies {
  import opened Arith
  import opened LinComb
  import opened Formulas
  import opened Classes
  import opened Encoding
  import opened Encoder
  import opened Determinism
  import opened BitSums
  import opened HashModel
  import opened Audit
  import opened Uniqueness
  import opened Wrappers

  /** The assertions of the query (determinism.py:119-138): each copy with its own variables
      except for the shared classes, one `mul` and one set of hash symbols. */
  ghost predicate BothAdmitted(fs: seq<Formula>, apps: seq<(nat, nat)>, hs: seq<HashCall>, rep: map<nat, nat>, fixed: map<nat, int>,
                               known: set<nat>, m: Interp, m': Interp, s: Symbols, p: int)
    requires p > 0
  {
    && Admits(fs, apps, hs, rep, fixed, m, s, p) && Admits(fs, apps, hs, rep, fixed, m', s, p)
    && m.mul == m'.mul && Agree(m.w, m'.w, known)
  }

  /** The answer "unsat": the copies cannot differ on a remaining wire. Wires with a recorded
      constant are not asked for. */
  ghost predicate NoDifference(fs: seq<Formula>, apps: seq<(nat, nat)>, hs: seq<HashCall>, rep: map<nat, nat>, fixed: map<nat, int>,
                               known: set<nat>, remaining: set<nat>, p: int)
    requires p > 0
  {
    forall m: Interp, m': Interp, s: Symbols :: BothAdmitted(fs, apps, hs, rep, fixed, known, m, m', s, p) ==>
      Agree(m.w, m'.w, set i | i in remaining && RepOf(rep, i) !in fixed)
  }

  /** Two solutions that agree on the inputs agree on these wires, or their hash calls collide. */
  ghost predicate UniqueOrCollision(cs: seq<Constraint>, hs: seq<HashCall>, from: set<nat>, to: set<nat>, p: int)
    requires p > 0
  {
    forall w: Witness, w': Witness, h: HashFunction :: UniqueOrCollisionAt(cs, hs, from, to, w, w', h, p)
  }

  ghost predicate UniqueOrCollisionAt(cs: seq<Constraint>, hs: seq<HashCall>, from: set<nat>, to: set<nat>,
                                      w: Witness, w': Witness, h: HashFunction, p: int)
    requires p > 0
  {
    (IsWitness(w, p) && IsWitness(w', p) && SatAll(cs, w, p) && SatAll(cs, w', p) &&
     Obeys(w, hs, h) && Obeys(w', hs, h) && CollisionFree(h, Calls(w, hs) + Calls(w', hs)) && Agree(w, w', from)) ==>
      Agree(w, w', to)
  }

  /** Two solutions without a collision are admitted together, under common symbols. */
  lemma PairAdmitted(cs: seq<Constraint>, hs: seq<HashCall>, norm: seq<Sourced>, bools: set<nat>, contradiction: bool,
                     rep: map<nat, nat>, fixed: map<nat, int>, fs: seq<Formula>, apps: seq<(nat, nat)>, known: set<nat>,
                     w: Witness, w': Witness, h: HashFunction, p: int)
    requires IsPrime(p) && Encoded(cs, norm, None, bools, contradiction, rep, fixed, fs, p)
    requires IsWitness(w, p) && IsWitness(w', p) && SatAll(cs, w, p) && SatAll(cs, w', p) && Agree(w, w', known)
    requires Obeys(w, hs, h) && Obeys(w', hs, h) && CollisionFree(h, Calls(w, hs) + Calls(w', hs))
    ensures BothAdmitted(fs, apps, hs, rep, fixed, known, IntegerReading(w), IntegerReading(w'), SymbolsOf(h, Calls(w, hs) + Calls(w', hs)), p)
  {
    var calls := Calls(w, hs) + Calls(w', hs);
    var s := SymbolsOf(h, calls);
    SolutionFits(cs, norm, None, bools, contradiction, rep, fixed, fs, IntegerReading(w), p);
    SolutionFits(cs, norm, None, bools, contradiction, rep, fixed, fs, IntegerReading(w'), p);
    ProductInRange(IntegerReading(w), apps);
    ProductInRange(IntegerReading(w'), apps);
    OutputsInRange(w, hs, h, p);
    OutputsInRange(w', hs, h, p);
    AxiomsExactly(h, calls, p);
    forall k | 0 <= k < |hs| ensures CallAxioms(s, Calls(w, hs)[k], p) && CallAxioms(s, Calls(w', hs)[k], p) {
      assert calls[k] == Calls(w, hs)[k] && calls[|hs| + k] == Calls(w', hs)[k];
      assert CallAxioms(s, calls[k], p) && CallAxioms(s, calls[|hs| + k], p);
    }
  }

  /** Propagation and the query together: every wire is a function of the inputs, up to a
      collision among the circuit's own hash calls. */
  lemma QueryIsProof(cs: seq<Constraint>, hs: seq<HashCall>, norm: seq<Sourced>, bools: set<nat>, contradiction: bool,
                     rep: map<nat, nat>, fixed: map<nat, int>, fs: seq<Formula>, apps: seq<(nat, nat)>,
                     inputs: set<nat>, known: set<nat>, remaining: set<nat>, p: int)
    requires IsPrime(p) && Encoded(cs, norm, None, bools, contradiction, rep, fixed, fs, p)
    requires UniqueWires(cs, hs, inputs, known, p)
    requires NoDifference(fs, apps, hs, rep, fixed, known, remaining, p)
    ensures UniqueOrCollision(cs, hs, inputs, known + remaining, p)
  {
    var to := known + remaining;
    forall w: Witness, w': Witness, h: HashFunction ensures UniqueOrCollisionAt(cs, hs, inputs, to, w, w', h, p) {
      assert UniqueWiresAt(cs, hs, inputs, known, w, w', h, p);
      if IsWitness(w, p) && IsWitness(w', p) && SatAll(cs, w, p) && SatAll(cs, w', p) && Obeys(w, hs, h) && Obeys(w', hs, h)
         && CollisionFree(h, Calls(w, hs) + Calls(w', hs)) && Agree(w, w', inputs) {
        PairAdmitted(cs, hs, norm, bools, contradiction, rep, fixed, fs, apps, known, w, w', h, p);
        assert Agree(w, w', set i | i in remaining && RepOf(rep, i) !in fixed);
        SolutionFits(cs, norm, None, bools, contradiction, rep, fixed, fs, IntegerReading(w), p);
        SolutionFits(cs, norm, None, bools, contradiction, rep, fixed, fs, IntegerReading(w'), p);
        FixedAgree(w, w', rep, fixed, remaining);
      }
    }
  }

  lemma FixedAgree(w: Witness, w': Witness, rep: map<nat, nat>, fixed: map<nat, int>, remaining: set<nat>)
    requires Respects(w, rep, fixed) && Respects(w', rep, fixed)
    requires Agree(w, w', set i | i in remaining && RepOf(rep, i) !in fixed)
    ensures Agree(w, w', remaining)
  {
  }

  datatype PairQuery = PairQuery(fs: seq<Formula>, apps: seq<(nat, nat)>, known: set<nat>, remaining: set<nat>)

  type PairSolver = PairQuery -> bool

  ghost predicate Truthful(solver: PairSolver, hs: seq<HashCall>, rep: map<nat, nat>, fixed: map<nat, int>, p: int)
    requires p > 0
  {
    forall q: PairQuery :: solver(q) ==> NoDifference(q.fs, q.apps, hs, rep, fixed, q.known, q.remaining, p)
  }

  /** The uniqueness verdict for one circuit (determinism.py:96-147). It is positive exactly
      if propagation leaves nothing open or the solver refutes the query about the rest; and
      then every wire is a function of the inputs, or hash calls collide. */
  method AllWiresUnique(model: Model, hs: seq<HashCall>, inputs: set<nat>, nWires: nat, solver: PairSolver)
    returns (unique: bool, ghost query: PairQuery, ghost bools: set<nat>, ghost norm: seq<Sourced>, ghost rep: map<nat, nat>, ghost fixed: map<nat, int>)
    requires model.Valid() && Wide(model.p) && Truthful(solver, hs, model.rep, model.fixed, model.p)
    requires Equivalent(model.constraints, Constraints(model.normAll), model.contradiction, model.rep, model.fixed, model.p)
    requires AllNormalOn(model.normAll, model.Open(), model.p)
    modifies model`normConstraints, model`boolWires
    ensures Reported(model.constraints, hs, inputs, nWires, query.known, bools, norm, rep, fixed, model.p)
    ensures query.remaining == UnionWires(NormAll(model.constraints, model.p)) - query.known
    ensures query.remaining != {} ==> Encodes(query.fs, Constraints(model.normAll), model.boolWires, model.contradiction, model.p) && Lists(query.apps, query.fs)
    ensures unique <==> query.remaining == {} || solver(query)
    ensures unique ==> UniqueOrCollision(model.constraints, hs, inputs, UnionWires(NormAll(model.constraints, model.p)), model.p)
  {
    var known;
    known, bools, norm, rep, fixed := UniqueByPropagation(model.constraints, hs, inputs, nWires, model.p);
    ghost var all := UnionWires(NormAll(model.constraints, model.p));
    var remaining := UnionWires(NormAll(model.constraints, model.p)) - known;
    assert all <= known + remaining;
    PropagatedUnique(model.constraints, hs, inputs, known, model.p);
    if remaining == {} {
      UniqueFewer(model.constraints, hs, inputs, known, all, model.p);
      return true, PairQuery([], [], known, remaining), bools, norm, rep, fixed;
    }
    unique, query := AskRemaining(model, hs, inputs, known, remaining, solver);
    if unique { UniqueFewer(model.constraints, hs, inputs, known + remaining, all, model.p); }
  }

  /** The query over two copies (determinism.py:119-139). */
  method AskRemaining(model: Model, hs: seq<HashCall>, ghost inputs: set<nat>, known: set<nat>, remaining: set<nat>, solver: PairSolver)
    returns (unique: bool, ghost query: PairQuery)
    requires model.Valid() && Truthful(solver, hs, model.rep, model.fixed, model.p)
    requires Equivalent(model.constraints, Constraints(model.normAll), model.contradiction, model.rep, model.fixed, model.p)
    requires AllNormalOn(model.normAll, model.Open(), model.p) && UniqueWires(model.constraints, hs, inputs, known, model.p)
    modifies model`normConstraints, model`boolWires
    ensures query.known == known && query.remaining == remaining && (unique <==> solver(query))
    ensures Encodes(query.fs, Constraints(model.normAll), model.boolWires, model.contradiction, model.p) && Lists(query.apps, query.fs)
    ensures unique ==> UniqueOrCollision(model.constraints, hs, inputs, known + remaining, model.p)
  {
    ghost var norm, flag := model.normAll, model.contradiction;
    KeptAll(norm);
    var fs, apps := model.Encode(None);
    var q := PairQuery(fs, apps, known, remaining);
    unique := solver(q);
    query := q;
    if unique {
      QueryIsProof(model.constraints, hs, norm, model.boolWires, flag, model.rep, model.fixed, fs, apps, inputs, known, remaining, model.p);
    }
  }

  lemma PropagatedUnique(cs: seq<Constraint>, hs: seq<HashCall>, from: set<nat>, to: set<nat>, p: int)
    requires p > 0 && UniqueWires(cs, hs, from, to, p)
    ensures UniqueOrCollision(cs, hs, from, to, p)
  {
    forall w: Witness, w': Witness, h: HashFunction ensures UniqueOrCollisionAt(cs, hs, from, to, w, w', h, p) {
      assert UniqueWiresAt(cs, hs, from, to, w, w', h, p);
    }
  }

  lemma UniqueFewer(cs: seq<Constraint>, hs: seq<HashCall>, from: set<nat>, to: set<nat>, fewer: set<nat>, p: int)
    requires p > 0 && UniqueOrCollision(cs, hs, from, to, p) && fewer <= to
    ensures UniqueOrCollision(cs, hs, from, fewer, p)
  {
    forall w: Witness, w': Witness, h: HashFunction ensures UniqueOrCollisionAt(cs, hs, from, fewer, w, w', h, p) {
      assert UniqueOrCollisionAt(cs, hs, from, to, w, w', h, p);
    }
  }
}

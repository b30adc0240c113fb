/** The encoder's equality classes: a parent forest with path halving, values fixed for
    class representatives, and normalisation of combinations over the classes. */
module Classes {
  import opened Arith
  import opened LinComb

  /** `rep` names the root of every non-root wire; `rank` grows along parent links. */
  ghost predicate Forest(parent: map<nat, nat>, rep: map<nat, nat>, rank: map<nat, nat>) {
    && parent.Keys == rep.Keys == rank.Keys && 0 !in parent
    && forall i {:trigger Linked(parent, rep, rank, i)} :: i in parent ==> Linked(parent, rep, rank, i)
  }

  ghost predicate Linked(parent: map<nat, nat>, rep: map<nat, nat>, rank: map<nat, nat>, i: nat)
    requires parent.Keys == rep.Keys == rank.Keys && i in parent
  {
    && rank[i] < |parent| && parent[i] != 0 && rep[i] !in parent && rep[i] != 0
    && (parent[i] in parent ==> rank[i] < rank[parent[i]])
    && rep[i] == RepOf(rep, parent[i])
  }

  ghost function RepOf(rep: map<nat, nat>, i: nat): nat { if i in rep then rep[i] else i }

  /** The witness gives one value to each class and the recorded value to fixed classes. */
  ghost predicate Respects(w: Witness, rep: map<nat, nat>, fixed: map<nat, int>) {
    && (forall i :: i in rep ==> w(i) == w(rep[i]))
    && (forall i :: i in fixed ==> w(i) == fixed[i])
  }

  /** `out` has the value of `lc` for every witness that respects the classes. */
  ghost predicate SameValue(out: LC, lc: LC, rep: map<nat, nat>, fixed: map<nat, int>, p: int)
    requires p > 0
  {
    forall w: Witness :: SameValueAt(out, lc, rep, fixed, w, p)
  }

  ghost predicate SameValueAt(out: LC, lc: LC, rep: map<nat, nat>, fixed: map<nat, int>, w: Witness, p: int)
    requires p > 0
  {
    w(0) == 1 && Respects(w, rep, fixed) ==> (Sum(out, w) - Sum(lc, w)) % p == 0
  }

  /** The same for the entries visited so far. */
  ghost predicate PartValue(out: LC, lc: LC, done: set<nat>, rep: map<nat, nat>, fixed: map<nat, int>, p: int)
    requires p > 0
  {
    forall w: Witness :: PartValueAt(out, lc, done, rep, fixed, w, p)
  }

  ghost predicate PartValueAt(out: LC, lc: LC, done: set<nat>, rep: map<nat, nat>, fixed: map<nat, int>, w: Witness, p: int)
    requires p > 0
  {
    w(0) == 1 && Respects(w, rep, fixed) ==> (Sum(out, w) - (Sum(lc, w) - Sum(lc - done, w))) % p == 0
  }

  /** Where the term of wire `i` with coefficient `c` goes. */
  function Target(r: nat, c: int, fixed: map<nat, int>): (nat, int) {
    if r in fixed then (0, c * fixed[r]) else (r, c)
  }

  lemma PartStepAt(out: LC, lc: LC, done: set<nat>, i: nat, rep: map<nat, nat>, fixed: map<nat, int>, w: Witness, p: int)
    requires p > 0 && i in lc && i !in done
    requires PartValueAt(out, lc, done, rep, fixed, w, p)
    ensures var (k, c) := Target(RepOf(rep, i), lc[i], fixed);
            PartValueAt(out[k := (Coeff(out, k) + c) % p], lc, done + {i}, rep, fixed, w, p)
  {
    if w(0) == 1 && Respects(w, rep, fixed) {
      var (k, c) := Target(RepOf(rep, i), lc[i], fixed);
      SumAccumulate(out, k, c, w, p);
      TargetValue(RepOf(rep, i), i, lc[i], rep, fixed, w);
      SumRest(lc, done, i, w);
      MovedTerm(Sum(out[k := (Coeff(out, k) + c) % p], w), Sum(out, w), c * w(k), Sum(lc, w), Sum(lc - done, w), Sum(lc - (done + {i}), w), p);
    }
  }

  lemma TargetValue(r: nat, i: nat, c: int, rep: map<nat, nat>, fixed: map<nat, int>, w: Witness)
    requires w(0) == 1 && Respects(w, rep, fixed) && r == RepOf(rep, i)
    ensures var (k, t) := Target(r, c, fixed); t * w(k) == c * w(i)
  {
    assert w(r) == w(i);
  }

  lemma MovedTerm(next: int, out: int, term: int, s: int, rest: int, fewer: int, p: int)
    requires p > 0 && rest == term + fewer && (next - out - term) % p == 0 && (out - (s - rest)) % p == 0
    ensures (next - (s - fewer)) % p == 0
  {
    ModAdd(next - out - term, out - (s - rest), p);
  }

  lemma PartStep(out: LC, lc: LC, done: set<nat>, i: nat, rep: map<nat, nat>, fixed: map<nat, int>, p: int)
    requires p > 0 && i in lc && i !in done
    requires PartValue(out, lc, done, rep, fixed, p)
    ensures var (k, c) := Target(RepOf(rep, i), lc[i], fixed);
            PartValue(out[k := (Coeff(out, k) + c) % p], lc, done + {i}, rep, fixed, p)
  {
    var (k, c) := Target(RepOf(rep, i), lc[i], fixed);
    var next, visited := out[k := (Coeff(out, k) + c) % p], done + {i};
    forall w: Witness ensures PartValueAt(next, lc, visited, rep, fixed, w, p) {
      assert PartValueAt(out, lc, done, rep, fixed, w, p);
      PartStepAt(out, lc, done, i, rep, fixed, w, p);
    }
  }

  lemma PartStart(lc: LC, rep: map<nat, nat>, fixed: map<nat, int>, p: int)
    requires p > 0
    ensures PartValue(map[], lc, {}, rep, fixed, p)
  {
    assert lc - {} == lc;
    forall w: Witness ensures PartValueAt(map[], lc, {}, rep, fixed, w, p) {}
  }

  lemma PartEnd(out: LC, lc: LC, rep: map<nat, nat>, fixed: map<nat, int>, p: int)
    requires p > 0 && PartValue(out, lc, lc.Keys, rep, fixed, p)
    ensures SameValue(DropZeros(out), lc, rep, fixed, p)
  {
    var l := DropZeros(out);
    assert lc - lc.Keys == map[];
    forall w: Witness ensures SameValueAt(l, lc, rep, fixed, w, p) {
      assert PartValueAt(out, lc, lc.Keys, rep, fixed, w, p);
      SumDropZeros(out, w);
    }
  }

  /** Replacing the combinations of a constraint by equal ones preserves satisfaction. */
  lemma SameSat(c: Constraint, d: Constraint, rep: map<nat, nat>, fixed: map<nat, int>, w: Witness, p: int)
    requires p > 0 && w(0) == 1 && Respects(w, rep, fixed)
    requires SameValue(d.a, c.a, rep, fixed, p) && SameValue(d.b, c.b, rep, fixed, p) && SameValue(d.c, c.c, rep, fixed, p)
    ensures Sat(c, w, p) <==> Sat(d, w, p)
  {
    assert SameValueAt(d.a, c.a, rep, fixed, w, p) && SameValueAt(d.b, c.b, rep, fixed, w, p) && SameValueAt(d.c, c.c, rep, fixed, w, p);
    CongruentSat(Sum(c.a, w), Sum(d.a, w), Sum(c.b, w), Sum(d.b, w), Sum(c.c, w), Sum(d.c, w), p);
  }

  lemma CongruentSat(a: int, a': int, b: int, b': int, c: int, c': int, p: int)
    requires p > 0 && (a' - a) % p == 0 && (b' - b) % p == 0 && (c' - c) % p == 0
    ensures (a * b - c) % p == 0 <==> (a' * b' - c') % p == 0
  {
    ModProduct(a', a, b', b, p);
    ModAdd(a' * b' - a * b, c' - c, p);
    assert a' * b' - a * b - (c' - c) == (a' * b' - c') - (a * b - c);
    ModShift(a' * b' - c', a * b - c, p);
  }

  // ---- normal forms are unique ---------------------------------------------------

  /** Representatives represent themselves, and the constant wire is in no class. */
  ghost predicate Roots(rep: map<nat, nat>, fixed: map<nat, int>) {
    0 !in rep && 0 !in fixed && rep.Keys !! fixed.Keys && forall i :: i in rep ==> rep[i] !in rep && rep[i] != 0
  }

  /** `out` is a normal form of `lc`: of the same value, with nonzero residues, over classes
      that are still open. */
  ghost predicate NormalOf(out: LC, lc: LC, open: set<nat>, rep: map<nat, nat>, fixed: map<nat, int>, p: int)
    requires p > 0
  {
    Normal(out, p) && Wires(out) <= open && SameValue(out, lc, rep, fixed, p)
  }

  ghost predicate OpenOk(open: set<nat>, rep: map<nat, nat>, fixed: map<nat, int>) {
    Roots(rep, fixed) && 0 !in open && open !! rep.Keys && open !! fixed.Keys
  }

  /** The witness that respects the classes and carries 1 on the open wire `x` only. */
  ghost function Probe(rep: map<nat, nat>, fixed: map<nat, int>, x: nat): Witness {
    (i: nat) => ProbeValue(RepOf(rep, i), fixed, x)
  }

  ghost function ProbeValue(r: nat, fixed: map<nat, int>, x: nat): int {
    if r == 0 then 1 else if r in fixed then fixed[r] else if r == x then 1 else 0
  }

  lemma ProbeRespects(open: set<nat>, rep: map<nat, nat>, fixed: map<nat, int>, x: nat)
    requires OpenOk(open, rep, fixed)
    ensures var w := Probe(rep, fixed, x); Respects(w, rep, fixed) && UnitOn(w, open, x)
  {
  }

  ghost predicate UnitOn(w: Witness, open: set<nat>, x: nat) {
    w(0) == 1 && forall i :: i in open ==> w(i) == if i == x then 1 else 0
  }

  lemma {:induction false} ProbeSum(l: LC, w: Witness, open: set<nat>, x: nat)
    requires Wires(l) <= open && UnitOn(w, open, x) && 0 !in open
    ensures Sum(l, w) == Coeff(l, 0) + (if x in open then Coeff(l, x) else 0)
    decreases |l|
  {
    if l != map[] {
      var k :| k in l && Sum(l, w) == l[k] * w(k) + Sum(l - {k}, w);
      assert k != 0 ==> k in Wires(l);
      assert forall j :: j in l - {k} && j != 0 ==> j in Wires(l);
      ProbeSum(l - {k}, w, open, x);
    }
  }

  lemma ProbeCoefficient(a: LC, b: LC, lc: LC, open: set<nat>, rep: map<nat, nat>, fixed: map<nat, int>, x: nat, p: int)
    requires p > 0 && OpenOk(open, rep, fixed) && NormalOf(a, lc, open, rep, fixed, p) && NormalOf(b, lc, open, rep, fixed, p)
    ensures (Coeff(a, 0) + (if x in open then Coeff(a, x) else 0) - (Coeff(b, 0) + (if x in open then Coeff(b, x) else 0))) % p == 0
  {
    var w := Probe(rep, fixed, x);
    ProbeRespects(open, rep, fixed, x);
    ProbeSum(a, w, open, x);
    ProbeSum(b, w, open, x);
    assert SameValueAt(a, lc, rep, fixed, w, p) && SameValueAt(b, lc, rep, fixed, w, p);
    ModAdd(Sum(a, w) - Sum(lc, w), Sum(b, w) - Sum(lc, w), p);
  }

  lemma NormalCoefficient(l: LC, k: nat, p: int)
    requires p > 0 && Normal(l, p)
    ensures 0 <= Coeff(l, k) < p && (k in l <==> Coeff(l, k) != 0)
  {
  }

  /** A combination has at most one normal form: whatever order the loops take, the result of
      normalising is the same. */
  lemma NormalUnique(a: LC, b: LC, lc: LC, open: set<nat>, rep: map<nat, nat>, fixed: map<nat, int>, p: int)
    requires p > 0 && OpenOk(open, rep, fixed) && NormalOf(a, lc, open, rep, fixed, p) && NormalOf(b, lc, open, rep, fixed, p)
    ensures a == b
  {
    NormalCoefficient(a, 0, p);
    NormalCoefficient(b, 0, p);
    ProbeCoefficient(a, b, lc, open, rep, fixed, 0, p);
    ResidueUnique(Coeff(a, 0), Coeff(b, 0), p);
    forall k: nat ensures Coeff(a, k) == Coeff(b, k) && (k in a <==> k in b) {
      NormalCoefficient(a, k, p);
      NormalCoefficient(b, k, p);
      if k in open {
        ProbeCoefficient(a, b, lc, open, rep, fixed, k, p);
        ResidueUnique(Coeff(a, k), Coeff(b, k), p);
      } else {
        assert k != 0 ==> k !in Wires(a) && k !in Wires(b);
      }
    }
    assert a.Keys == b.Keys;
  }
}

/** The compiler from rank-1 constraints over F_p to integer formulas: substitution of
    equalities and constants to a fixpoint, detection of boolean wires, and encoding. */
module Encoder {
  import opened Arith
  import opened LinComb
  import opened Formulas
  import opened Classes
  import opened Encoding
  import opened Wrappers

  /** A normalised constraint with the wires of the constraint it came from. */
  datatype Sourced = Sourced(con: Constraint, src: set<nat>)

  function Constraints(ss: seq<Sourced>): (cs: seq<Constraint>)
    ensures |cs| == |ss| && forall i :: 0 <= i < |ss| ==> cs[i] == ss[i].con
  {
    seq(|ss|, i requires 0 <= i < |ss| => ss[i].con)
  }

  // ---- what one constraint says about the classes ----------------------------

  /** A product with a constant factor is one linear equation. */
  lemma ConstantFactor(x: LC, y: LC, c: LC, l: LC, k: int, w: Witness, p: int)
    requires p > 0 && w(0) == 1 && IsConst(x) && k == Coeff(x, 0) && IsScaleMinus(l, k, y, c, p)
    ensures (Sum(x, w) * Sum(y, w) - Sum(c, w)) % p == 0 <==> Zero(l, w, p)
  {
    SumConst(x, w);
    assert ScaleMinusAt(l, k, y, c, w, p);
    ModShift(Sum(l, w), k * Sum(y, w) - Sum(c, w), p);
  }

  /** `c1 * x + c0 == 0` fixes x. */
  lemma SolveOne(l: LC, x: nat, w: Witness, p: int)
    requires IsPrime(p) && IsWitness(w, p) && Normal(l, p) && Wires(l) == {x}
    requires Zero(l, w, p) && l[x] % p != 0
    ensures w(x) == (-Coeff(l, 0) * Inverse(l[x], p)) % p
  {
    SumSingle(l, x, w);
    SolveOneMod(l[x], Inverse(l[x], p), w(x), Coeff(l, 0), p);
  }

  lemma SolveOneMod(a: int, r: int, x: int, c: int, p: int)
    requires p > 0 && 0 <= x < p && (a * x + c) % p == 0 && (a * r - 1) % p == 0
    ensures x == (-c * r) % p
  {
    ModScale(r, a * x + c, p);
    ModScale(-x, a * r - 1, p);
    ModAdd(r * (a * x + c), -x * (a * r - 1), p);
    SolveOneArith(a, r, x, c);
    ResidueOf(x, -c * r, p);
  }

  lemma ResidueOf(x: int, e: int, p: int)
    requires p > 0 && 0 <= x < p && (x - e) % p == 0
    ensures x == e % p
  {
    ModSelf(e, p);
    ModAdd(x - e, e - e % p, p);
    ResidueUnique(x, e % p, p);
  }

  lemma SolveOneArith(a: int, r: int, x: int, c: int)
    ensures r * (a * x + c) + -x * (a * r - 1) == x - -c * r
  {
    assert r * (a * x + c) == r * (a * x) + r * c;
    assert r * (a * x) == x * (a * r);
    assert -x * (a * r - 1) == -(x * (a * r)) + x;
  }

  /** `c * x - c * y == 0` makes two wires equal. */
  lemma SolveTwo(l: LC, x: nat, y: nat, w: Witness, p: int)
    requires IsPrime(p) && IsWitness(w, p) && Normal(l, p) && Wires(l) == {x, y} && x != y
    requires Zero(l, w, p) && Coeff(l, 0) == 0 && (l[x] + l[y]) % p == 0
    ensures w(x) == w(y)
  {
    SumDouble(l, x, y, w);
    assert x in Wires(l);
    NormalNonzero(l, x, p);
    EqualFromSum(l[x], l[y], w(x), w(y), p);
  }

  lemma EqualFromSum(a: int, b: int, x: int, y: int, p: int)
    requires IsPrime(p) && a % p != 0 && 0 <= x < p && 0 <= y < p
    requires (a * x + b * y) % p == 0 && (a + b) % p == 0
    ensures x == y
  {
    ModScale(y, a + b, p);
    ModAdd(a * x + b * y, y * (a + b), p);
    assert a * x + b * y - y * (a + b) == a * (x - y);
    Euclid(a, x - y, p);
    ResidueUnique(x, y, p);
  }

  lemma NormalNonzero(l: LC, x: nat, p: int)
    requires p > 0 && Normal(l, p) && x in l
    ensures l[x] % p != 0
  {
    DivModUnique(l[x], 0, l[x], p);
  }

  // ---- the exact content of the substitution -----------------------------------

  /** The original system follows from, and implies, the classes plus the normalised system. */
  ghost predicate Equivalent(cs: seq<Constraint>, norm: seq<Constraint>, contradiction: bool,
                             rep: map<nat, nat>, fixed: map<nat, int>, p: int)
    requires p > 0
  {
    forall w: Witness :: EquivalentAt(cs, norm, contradiction, rep, fixed, w, p)
  }

  ghost predicate EquivalentAt(cs: seq<Constraint>, norm: seq<Constraint>, contradiction: bool,
                               rep: map<nat, nat>, fixed: map<nat, int>, w: Witness, p: int)
    requires p > 0
  {
    IsWitness(w, p) ==>
      (SatAll(cs, w, p) <==> Respects(w, rep, fixed) && !contradiction && SatAll(norm, w, p))
  }

  /** Half of the above, kept while classes are still being formed. */
  ghost predicate Implied(cs: seq<Constraint>, rep: map<nat, nat>, fixed: map<nat, int>, p: int)
    requires p > 0
  {
    forall w: Witness :: ImpliedAt(cs, rep, fixed, w, p)
  }

  ghost predicate ImpliedAt(cs: seq<Constraint>, rep: map<nat, nat>, fixed: map<nat, int>, w: Witness, p: int)
    requires p > 0
  {
    IsWitness(w, p) && SatAll(cs, w, p) ==> Respects(w, rep, fixed)
  }

  /** For witnesses that respect the classes, a prefix of the system and its normal form agree. */
  ghost predicate PrefixSame(cs: seq<Constraint>, n: nat, norm: seq<Sourced>, contradiction: bool,
                             rep: map<nat, nat>, fixed: map<nat, int>, p: int)
    requires p > 0 && n <= |cs|
  {
    forall w: Witness :: PrefixSameAt(cs, n, norm, contradiction, rep, fixed, w, p)
  }

  ghost predicate PrefixSameAt(cs: seq<Constraint>, n: nat, norm: seq<Sourced>, contradiction: bool,
                               rep: map<nat, nat>, fixed: map<nat, int>, w: Witness, p: int)
    requires p > 0 && n <= |cs|
  {
    w(0) == 1 && Respects(w, rep, fixed) ==>
      ((forall i :: 0 <= i < n ==> Sat(cs[i], w, p)) <==>
       !contradiction && forall i :: 0 <= i < |norm| ==> Sat(norm[i].con, w, p))
  }

  ghost predicate SameConstraint(d: Constraint, c: Constraint, rep: map<nat, nat>, fixed: map<nat, int>, p: int)
    requires p > 0
  {
    SameValue(d.a, c.a, rep, fixed, p) && SameValue(d.b, c.b, rep, fixed, p) && SameValue(d.c, c.c, rep, fixed, p)
  }

  /** Coefficients are nonzero residues and the wires are among `open`. */
  ghost predicate NormalOn(c: Constraint, open: set<nat>, p: int) {
    Normal(c.a, p) && Normal(c.b, p) && Normal(c.c, p) && AllWires(c) <= open
  }

  ghost predicate AllNormalOn(norm: seq<Sourced>, open: set<nat>, p: int) {
    forall i :: 0 <= i < |norm| ==> NormalOn(norm[i].con, open, p)
  }

  predicate Reduced(c: Constraint, p: int) { Normal(c.a, p) && Normal(c.b, p) && Normal(c.c, p) }

  /** Coefficients are nonzero residues and no factor is constant: nothing to substitute. */
  predicate Settled(c: Constraint, p: int) { Reduced(c, p) && !IsConst(c.a) && !IsConst(c.b) }

  predicate AllSettled(cs: seq<Constraint>, p: int) { forall i :: 0 <= i < |cs| ==> Settled(cs[i], p) }

  /** The first n constraints, unchanged. */
  ghost predicate Verbatim(norm: seq<Sourced>, cs: seq<Constraint>, n: nat)
    requires n <= |cs|
  {
    |norm| == n && forall i :: 0 <= i < n ==> norm[i] == Sourced(cs[i], AllWires(cs[i]))
  }

  // ---- the fixpoint --------------------------------------------------------------------

  /** The constraint over the classes. */
  ghost predicate NormalForm(d: Constraint, c: Constraint, open: set<nat>, rep: map<nat, nat>, fixed: map<nat, int>, p: int)
    requires p > 0
  {
    NormalOn(d, open, p) && SameConstraint(d, c, rep, fixed, p)
  }

  lemma FormUnique(d: Constraint, e: Constraint, c: Constraint, open: set<nat>, rep: map<nat, nat>, fixed: map<nat, int>, p: int)
    requires p > 0 && OpenOk(open, rep, fixed)
    requires NormalForm(d, c, open, rep, fixed, p) && NormalForm(e, c, open, rep, fixed, p)
    ensures d == e
  {
    NormalUnique(d.a, e.a, c.a, open, rep, fixed, p);
    NormalUnique(d.b, e.b, c.b, open, rep, fixed, p);
    NormalUnique(d.c, e.c, c.c, open, rep, fixed, p);
  }

  /** A constraint in residues over open wires is its own normal form. */
  lemma OwnForm(c: Constraint, open: set<nat>, rep: map<nat, nat>, fixed: map<nat, int>, p: int)
    requires p > 0 && NormalOn(c, open, p)
    ensures NormalForm(c, c, open, rep, fixed, p)
  {
    OwnValue(c.a, rep, fixed, p);
    OwnValue(c.b, rep, fixed, p);
    OwnValue(c.c, rep, fixed, p);
  }

  lemma OwnValue(l: LC, rep: map<nat, nat>, fixed: map<nat, int>, p: int)
    requires p > 0
    ensures SameValue(l, l, rep, fixed, p)
  {
    forall w: Witness ensures SameValueAt(l, l, rep, fixed, w, p) { DivModUnique(0, 0, 0, p); }
  }

  /** The equation `l = 0` fixes its one wire, or makes its two wires equal. */
  predicate Decides(l: LC, p: int)
    requires p > 0
  {
    || |Wires(l)| == 1
    || (|Wires(l)| == 2 && Coeff(l, 0) == 0 && exists u, v :: u in Wires(l) && v in Wires(l) && u != v && (l[u] + l[v]) % p == 0)
  }

  /** If a factor is the constant k, the equation k * Y - C = 0 decides nothing. */
  predicate Undecided(d: Constraint, p: int)
    requires p > 0
  {
    && (IsConst(d.a) ==> !Decides(Combined(Coeff(d.a, 0), d.b, d.c, p), p))
    && (IsConst(d.b) ==> !Decides(Combined(Coeff(d.b, 0), d.a, d.c, p), p))
  }

  /** With two constant factors it does not matter which is taken. */
  lemma BothConstant(d: Constraint, p: int)
    requires p > 0 && IsConst(d.a) && IsConst(d.b)
    ensures Combined(Coeff(d.a, 0), d.b, d.c, p) == Combined(Coeff(d.b, 0), d.a, d.c, p)
  {
    var a, b := Coeff(d.a, 0), Coeff(d.b, 0);
    forall i: nat ensures CombinedTerm(a, Coeff(d.b, i), Coeff(d.c, i), p) == CombinedTerm(b, Coeff(d.a, i), Coeff(d.c, i), p) {
      assert a * b == b * a;
      if i != 0 { assert Coeff(d.a, i) == 0 && Coeff(d.b, i) == 0 && a * 0 == 0 && b * 0 == 0; }
    }
    forall i: nat | i !in d.c && i !in d.b ensures CombinedTerm(a, Coeff(d.b, i), Coeff(d.c, i), p) == 0 {
      assert a * 0 == 0;
      DivModUnique(0, 0, 0, p);
    }
    forall i: nat | i !in d.c && i !in d.a ensures CombinedTerm(b, Coeff(d.a, i), Coeff(d.c, i), p) == 0 {
      assert b * 0 == 0;
      DivModUnique(0, 0, 0, p);
    }
  }

  /** Whatever normal form the constraint has, it decides nothing. */
  ghost predicate ClosedAt(c: Constraint, open: set<nat>, rep: map<nat, nat>, fixed: map<nat, int>, p: int)
    requires p > 0
  {
    forall d :: NormalForm(d, c, open, rep, fixed, p) ==> Undecided(d, p)
  }

  ghost predicate Closed(cs: seq<Constraint>, n: nat, open: set<nat>, rep: map<nat, nat>, fixed: map<nat, int>, p: int)
    requires p > 0 && n <= |cs|
  {
    forall i :: 0 <= i < n ==> ClosedAt(cs[i], open, rep, fixed, p)
  }

  /** The normal forms of the first |ds| constraints. */
  ghost predicate Forms(ds: seq<Constraint>, cs: seq<Constraint>, open: set<nat>, rep: map<nat, nat>, fixed: map<nat, int>, p: int)
    requires p > 0
  {
    |ds| <= |cs| && forall i :: 0 <= i < |ds| ==> NormalForm(ds[i], cs[i], open, rep, fixed, p)
  }

  /** The normalised system: what is not constant, with the wires of its origin. */
  function Collect(cs: seq<Constraint>, ds: seq<Constraint>): seq<Sourced>
    requires |ds| <= |cs|
  {
    if ds == [] then []
    else
      var n := |ds| - 1;
      Collect(cs, ds[..n]) + (if AllConst(ds[n]) then [] else [Sourced(ds[n], AllWires(cs[n]))])
  }

  predicate Impossible(d: Constraint, p: int)
    requires p > 0
  {
    AllConst(d) && (Coeff(d.a, 0) * Coeff(d.b, 0) - Coeff(d.c, 0)) % p != 0
  }

  lemma CollectNext(cs: seq<Constraint>, ds: seq<Constraint>, d: Constraint)
    requires |ds| < |cs|
    ensures Collect(cs, ds + [d]) == Collect(cs, ds) + (if AllConst(d) then [] else [Sourced(d, AllWires(cs[|ds|]))])
  {
    assert (ds + [d])[..|ds|] == ds;
  }

  /** Entry `x` of the normalised system is the form of some constraint. */
  ghost predicate From(x: Sourced, cs: seq<Constraint>, ds: seq<Constraint>)
    requires |ds| <= |cs|
  {
    exists i :: 0 <= i < |ds| && x == Sourced(ds[i], AllWires(cs[i]))
  }

  lemma {:induction false} CollectFrom(cs: seq<Constraint>, ds: seq<Constraint>)
    requires |ds| <= |cs|
    ensures forall x :: x in Collect(cs, ds) ==> From(x, cs, ds)
  {
    if ds != [] {
      var n := |ds| - 1;
      CollectFrom(cs, ds[..n]);
      forall x | x in Collect(cs, ds) ensures From(x, cs, ds) {
        if x in Collect(cs, ds[..n]) {
          var i :| 0 <= i < n && x == Sourced(ds[..n][i], AllWires(cs[i]));
          assert x == Sourced(ds[i], AllWires(cs[i]));
        } else {
          assert x == Sourced(ds[n], AllWires(cs[n]));
        }
      }
    }
  }

  lemma CollectMembers(cs: seq<Constraint>, ds: seq<Constraint>, open: set<nat>, rep: map<nat, nat>, fixed: map<nat, int>, p: int)
    requires p > 0 && Forms(ds, cs, open, rep, fixed, p) && forall i :: 0 <= i < |ds| ==> Undecided(ds[i], p)
    ensures AllNormalOn(Collect(cs, ds), open, p)
    ensures forall x :: x in Collect(cs, ds) ==> Undecided(x.con, p)
  {
    CollectFrom(cs, ds);
    forall x | x in Collect(cs, ds) ensures NormalOn(x.con, open, p) && Undecided(x.con, p) {
      var i :| 0 <= i < |ds| && x == Sourced(ds[i], AllWires(cs[i]));
      assert NormalForm(ds[i], cs[i], open, rep, fixed, p);
    }
  }

  lemma ClosedNext(cs: seq<Constraint>, n: nat, open: set<nat>, rep: map<nat, nat>, fixed: map<nat, int>, p: int)
    requires p > 0 && n < |cs| && Closed(cs, n, open, rep, fixed, p) && ClosedAt(cs[n], open, rep, fixed, p)
    ensures Closed(cs, n + 1, open, rep, fixed, p)
  {
  }

  lemma NotDecided(l: LC, u: nat, v: nat, p: int)
    requires p > 0 && Wires(l) == {u, v} && u != v && (l[u] + l[v]) % p != 0
    ensures !Decides(l, p)
  {
    assert |Wires(l)| == 2;
  }

  /** The normalised system consists of the normal forms, and the flag says whether one of
      them cannot hold. */
  ghost predicate IsNormalised(norm: seq<Sourced>, contradiction: bool, ds: seq<Constraint>, cs: seq<Constraint>,
                               open: set<nat>, rep: map<nat, nat>, fixed: map<nat, int>, p: int)
    requires p > 0
  {
    && Forms(ds, cs, open, rep, fixed, p) && norm == Collect(cs, ds)
    && (contradiction <==> exists i :: 0 <= i < |ds| && Impossible(ds[i], p))
  }

  /** So for witnesses that respect the classes it says what the system says. */
  lemma {:induction false} NormalisedSame(norm: seq<Sourced>, contradiction: bool, ds: seq<Constraint>, cs: seq<Constraint>,
                                          open: set<nat>, rep: map<nat, nat>, fixed: map<nat, int>, p: int)
    requires p > 0 && IsNormalised(norm, contradiction, ds, cs, open, rep, fixed, p)
    ensures PrefixSame(cs, |ds|, norm, contradiction, rep, fixed, p)
    decreases |ds|
  {
    if ds == [] {
      PrefixStart(cs, rep, fixed, p);
    } else {
      var n := |ds| - 1;
      var flag := exists i :: 0 <= i < n && Impossible(ds[i], p);
      NormalisedPrefix(norm, contradiction, ds, cs, open, rep, fixed, p);
      NormalisedSame(Collect(cs, ds[..n]), flag, ds[..n], cs, open, rep, fixed, p);
      assert NormalForm(ds[n], cs[n], open, rep, fixed, p);
      PrefixStep(cs, n, Collect(cs, ds[..n]), flag, ds[n], AllWires(cs[n]), rep, fixed, p);
    }
  }

  lemma NormalisedPrefix(norm: seq<Sourced>, contradiction: bool, ds: seq<Constraint>, cs: seq<Constraint>,
                         open: set<nat>, rep: map<nat, nat>, fixed: map<nat, int>, p: int)
    requires p > 0 && IsNormalised(norm, contradiction, ds, cs, open, rep, fixed, p) && ds != []
    ensures var n := |ds| - 1; var flag := exists i :: 0 <= i < n && Impossible(ds[i], p);
      && IsNormalised(Collect(cs, ds[..n]), flag, ds[..n], cs, open, rep, fixed, p)
      && contradiction == (flag || Impossible(ds[n], p))
  {
    var n := |ds| - 1;
    assert forall i :: 0 <= i < n ==> ds[..n][i] == ds[i];
  }

  /** What the second half of `_build` achieves. */
  lemma NormalisedSystem(norm: seq<Sourced>, contradiction: bool, ds: seq<Constraint>, cs: seq<Constraint>,
                         open: set<nat>, rep: map<nat, nat>, fixed: map<nat, int>, p: int)
    requires p > 0 && |ds| == |cs| && IsNormalised(norm, contradiction, ds, cs, open, rep, fixed, p)
    requires Implied(cs, rep, fixed, p) && Closed(cs, |cs|, open, rep, fixed, p)
    ensures Equivalent(cs, Constraints(norm), contradiction, rep, fixed, p)
    ensures AllNormalOn(norm, open, p) && (forall x :: x in norm ==> Undecided(x.con, p))
    ensures forall i :: 0 <= i < |ds| ==> Undecided(ds[i], p)
  {
    NormalisedSame(norm, contradiction, ds, cs, open, rep, fixed, p);
    PrefixToEquivalent(cs, norm, contradiction, rep, fixed, p);
    FormsUndecided(ds, cs, open, rep, fixed, p);
    CollectMembers(cs, ds, open, rep, fixed, p);
  }

  lemma NormalisedNext(norm: seq<Sourced>, contradiction: bool, ds: seq<Constraint>, d: Constraint, cs: seq<Constraint>,
                       open: set<nat>, rep: map<nat, nat>, fixed: map<nat, int>, p: int)
    requires p > 0 && IsNormalised(norm, contradiction, ds, cs, open, rep, fixed, p) && |ds| < |cs|
    requires NormalForm(d, cs[|ds|], open, rep, fixed, p)
    ensures IsNormalised(norm + (if AllConst(d) then [] else [Sourced(d, AllWires(cs[|ds|]))]), contradiction || Impossible(d, p),
                         ds + [d], cs, open, rep, fixed, p)
  {
    CollectNext(cs, ds, d);
    var longer := ds + [d];
    forall i | 0 <= i < |longer| ensures NormalForm(longer[i], cs[i], open, rep, fixed, p) {
      if i < |ds| { assert longer[i] == ds[i]; }
    }
    if i :| 0 <= i < |ds| && Impossible(ds[i], p) { assert Impossible(longer[i], p); }
    if Impossible(d, p) { assert Impossible(longer[|ds|], p); }
  }

  lemma FormsUndecided(ds: seq<Constraint>, cs: seq<Constraint>, open: set<nat>, rep: map<nat, nat>, fixed: map<nat, int>, p: int)
    requires p > 0 && Forms(ds, cs, open, rep, fixed, p) && Closed(cs, |cs|, open, rep, fixed, p)
    ensures forall i :: 0 <= i < |ds| ==> Undecided(ds[i], p)
  {
    forall i | 0 <= i < |ds| ensures Undecided(ds[i], p) {
      assert NormalForm(ds[i], cs[i], open, rep, fixed, p) && ClosedAt(cs[i], open, rep, fixed, p);
    }
  }

  /** Nothing to substitute: the normal forms are the constraints themselves. */
  lemma {:induction false} CollectSettled(cs: seq<Constraint>, ds: seq<Constraint>, open: set<nat>, p: int)
    requires p > 0 && Forms(ds, cs, open, map[], map[], p) && AllSettled(cs, p) && 0 !in open
    requires forall i :: 0 <= i < |cs| ==> AllWires(cs[i]) <= open
    ensures Verbatim(Collect(cs, ds), cs, |ds|) && forall i :: 0 <= i < |ds| ==> !AllConst(ds[i])
  {
    if ds != [] {
      var n := |ds| - 1;
      CollectSettled(cs, ds[..n], open, p);
      assert Settled(cs[n], p) && NormalForm(ds[n], cs[n], open, map[], map[], p);
      OwnForm(cs[n], open, map[], map[], p);
      FormUnique(ds[n], cs[n], cs[n], open, map[], map[], p);
      forall i | 0 <= i < |ds| ensures !AllConst(ds[i]) {
        if i < n { assert !AllConst(ds[..n][i]); }
      }
    }
  }

  predicate AllConst(d: Constraint) { IsConst(d.a) && IsConst(d.b) && IsConst(d.c) }

  /** A constraint over constants only either always holds or never does. */
  lemma ConstantConstraint(d: Constraint, w: Witness, p: int)
    requires p > 0 && w(0) == 1 && AllConst(d)
    ensures Sat(d, w, p) <==> (Coeff(d.a, 0) * Coeff(d.b, 0) - Coeff(d.c, 0)) % p == 0
  {
    SumConst(d.a, w);
    SumConst(d.b, w);
    SumConst(d.c, w);
  }

  lemma PrefixStep(cs: seq<Constraint>, n: nat, norm: seq<Sourced>, contradiction: bool, d: Constraint, s: set<nat>,
                   rep: map<nat, nat>, fixed: map<nat, int>, p: int)
    requires p > 0 && n < |cs| && SameConstraint(d, cs[n], rep, fixed, p)
    requires PrefixSame(cs, n, norm, contradiction, rep, fixed, p)
    ensures PrefixSame(cs, n + 1, norm + (if AllConst(d) then [] else [Sourced(d, s)]), contradiction || Impossible(d, p), rep, fixed, p)
  {
    var bad := contradiction || Impossible(d, p);
    var longer, m := norm + [Sourced(d, s)], n + 1;
    var next := norm + (if AllConst(d) then [] else [Sourced(d, s)]);
    assert AllConst(d) ==> next == norm;
    forall w: Witness ensures PrefixSameAt(cs, m, next, bad, rep, fixed, w, p)
    {
      assert PrefixSameAt(cs, n, norm, contradiction, rep, fixed, w, p);
      if w(0) == 1 && Respects(w, rep, fixed) {
        SameSat(cs[n], d, rep, fixed, w, p);
        PrefixSat(cs, n, w, p);
        if AllConst(d) {
          ConstantConstraint(d, w, p);
        } else {
          SourcedSat(norm, d, s, w, p);
        }
      }
    }
  }

  lemma PrefixStart(cs: seq<Constraint>, rep: map<nat, nat>, fixed: map<nat, int>, p: int)
    requires p > 0
    ensures PrefixSame(cs, 0, [], false, rep, fixed, p)
  {
    forall w: Witness ensures PrefixSameAt(cs, 0, [], false, rep, fixed, w, p) {}
  }

  lemma PrefixSat(cs: seq<Constraint>, n: nat, w: Witness, p: int)
    requires p > 0 && n < |cs|
    ensures (forall i :: 0 <= i < n + 1 ==> Sat(cs[i], w, p)) <==> (forall i :: 0 <= i < n ==> Sat(cs[i], w, p)) && Sat(cs[n], w, p)
  {
  }

  lemma SourcedSat(norm: seq<Sourced>, d: Constraint, s: set<nat>, w: Witness, p: int)
    requires p > 0
    ensures var longer := norm + [Sourced(d, s)];
            (forall i :: 0 <= i < |longer| ==> Sat(longer[i].con, w, p)) <==>
            (forall i :: 0 <= i < |norm| ==> Sat(norm[i].con, w, p)) && Sat(d, w, p)
  {
    var longer := norm + [Sourced(d, s)];
    assert longer[|norm|] == Sourced(d, s);
    assert forall i :: 0 <= i < |norm| ==> longer[i] == norm[i];
  }

  lemma PrefixToEquivalent(cs: seq<Constraint>, norm: seq<Sourced>, contradiction: bool,
                           rep: map<nat, nat>, fixed: map<nat, int>, p: int)
    requires p > 0 && PrefixSame(cs, |cs|, norm, contradiction, rep, fixed, p) && Implied(cs, rep, fixed, p)
    ensures Equivalent(cs, Constraints(norm), contradiction, rep, fixed, p)
  {
    var ds := Constraints(norm);
    forall w: Witness ensures EquivalentAt(cs, ds, contradiction, rep, fixed, w, p) {
      assert PrefixSameAt(cs, |cs|, norm, contradiction, rep, fixed, w, p);
      assert ImpliedAt(cs, rep, fixed, w, p);
      assert SatAll(ds, w, p) <==> forall i :: 0 <= i < |norm| ==> Sat(norm[i].con, w, p) by {
        if SatAll(ds, w, p) {
          forall i | 0 <= i < |norm| ensures Sat(norm[i].con, w, p) { assert Sat(ds[i], w, p); }
        }
      }
    }
  }

  // ---- linking classes -------------------------------------------------------

  function LinkReps(rep: map<nat, nat>, a: nat, b: nat): map<nat, nat> {
    (map i | i in rep :: if rep[i] == a then b else rep[i])[a := b]
  }

  lemma LinkForest(parent: map<nat, nat>, rep: map<nat, nat>, rank: map<nat, nat>, a: nat, b: nat)
    requires Forest(parent, rep, rank) && a !in parent && b !in parent && a != b && a != 0 && b != 0
    ensures Forest(parent[a := b], LinkReps(rep, a, b), rank[a := |parent|])
  {
    var parent', rep', rank' := parent[a := b], LinkReps(rep, a, b), rank[a := |parent|];
    assert parent'.Keys == parent.Keys + {a};
    assert rep'.Keys == rep.Keys + {a};
    assert rank'.Keys == rank.Keys + {a};
    forall i | i in parent' ensures Linked(parent', rep', rank', i) {
      assert |parent'| == |parent| + 1;
      if i != a { LinkOther(parent, rep, rank, a, b, i); }
    }
  }

  lemma LinkOther(parent: map<nat, nat>, rep: map<nat, nat>, rank: map<nat, nat>, a: nat, b: nat, i: nat)
    requires Forest(parent, rep, rank) && a !in parent && b !in parent && a != b && a != 0 && b != 0 && i in parent
    requires parent[a := b].Keys == LinkReps(rep, a, b).Keys == rank[a := |parent|].Keys && |parent[a := b]| == |parent| + 1
    ensures Linked(parent[a := b], LinkReps(rep, a, b), rank[a := |parent|], i)
  {
    assert Linked(parent, rep, rank, i);
  }

  lemma LinkRespects(w: Witness, rep: map<nat, nat>, fixed: map<nat, int>, a: nat, b: nat)
    requires Respects(w, rep, fixed) && w(a) == w(b)
    ensures Respects(w, LinkReps(rep, a, b), fixed)
  {
  }

  lemma HalvingForest(parent: map<nat, nat>, rep: map<nat, nat>, rank: map<nat, nat>, i: nat)
    requires Forest(parent, rep, rank) && i in parent && parent[i] in parent
    ensures Forest(parent[i := parent[parent[i]]], rep, rank)
  {
    var parent' := parent[i := parent[parent[i]]];
    assert parent'.Keys == parent.Keys;
    forall j | j in parent' ensures Linked(parent', rep, rank, j) {
      assert Linked(parent, rep, rank, j) && Linked(parent, rep, rank, parent[i]);
      assert Linked(parent, rep, rank, i);
    }
  }

  // ---- absorbing one linear consequence ----------------------------------------

  /** Every solution of the system makes `l` zero. */
  ghost predicate Consequence(cs: seq<Constraint>, l: LC, p: int)
    requires p > 0
  {
    forall w: Witness :: ConsequenceAt(cs, l, w, p)
  }

  ghost predicate ConsequenceAt(cs: seq<Constraint>, l: LC, w: Witness, p: int)
    requires p > 0
  {
    IsWitness(w, p) && SatAll(cs, w, p) ==> Zero(l, w, p)
  }

  lemma LinearConsequence(cs: seq<Constraint>, n: nat, d: Constraint, x: LC, y: LC, l: LC,
                          rep: map<nat, nat>, fixed: map<nat, int>, p: int)
    requires p > 0 && n < |cs| && SameConstraint(d, cs[n], rep, fixed, p) && Implied(cs, rep, fixed, p)
    requires ((x, y) == (d.a, d.b) || (x, y) == (d.b, d.a)) && IsConst(x)
    requires IsScaleMinus(l, Coeff(x, 0), y, d.c, p)
    ensures Consequence(cs, l, p)
  {
    forall w: Witness ensures ConsequenceAt(cs, l, w, p) {
      if IsWitness(w, p) && SatAll(cs, w, p) {
        assert ImpliedAt(cs, rep, fixed, w, p);
        SameSat(cs[n], d, rep, fixed, w, p);
        assert Sat(cs[n], w, p);
        ConstantFactor(x, y, d.c, l, Coeff(x, 0), w, p);
        FactorOrder(d, x, y, w);
      }
    }
  }

  lemma FactorOrder(d: Constraint, x: LC, y: LC, w: Witness)
    requires (x, y) == (d.a, d.b) || (x, y) == (d.b, d.a)
    ensures Sum(d.a, w) * Sum(d.b, w) == Sum(x, w) * Sum(y, w)
  {
  }

  lemma FixImplied(cs: seq<Constraint>, l: LC, x: nat, rep: map<nat, nat>, fixed: map<nat, int>, p: int)
    requires IsPrime(p) && Normal(l, p) && Wires(l) == {x} && l[x] % p != 0
    requires Consequence(cs, l, p) && Implied(cs, rep, fixed, p)
    ensures Implied(cs, rep, fixed[x := (-Coeff(l, 0) * Inverse(l[x], p)) % p], p)
  {
    var fixed' := fixed[x := (-Coeff(l, 0) * Inverse(l[x], p)) % p];
    forall w: Witness ensures ImpliedAt(cs, rep, fixed', w, p) {
      assert ConsequenceAt(cs, l, w, p) && ImpliedAt(cs, rep, fixed, w, p);
      if IsWitness(w, p) && SatAll(cs, w, p) { SolveOne(l, x, w, p); }
    }
  }

  lemma LinkImplied(cs: seq<Constraint>, l: LC, x: nat, y: nat, rep: map<nat, nat>, fixed: map<nat, int>, p: int)
    requires IsPrime(p) && Normal(l, p) && Wires(l) == {x, y} && x != y
    requires Coeff(l, 0) == 0 && (l[x] + l[y]) % p == 0
    requires Consequence(cs, l, p) && Implied(cs, rep, fixed, p)
    ensures Implied(cs, LinkReps(rep, x, y), fixed, p)
  {
    var rep' := LinkReps(rep, x, y);
    forall w: Witness ensures ImpliedAt(cs, rep', fixed, w, p) {
      assert ConsequenceAt(cs, l, w, p) && ImpliedAt(cs, rep, fixed, w, p);
      if IsWitness(w, p) && SatAll(cs, w, p) {
        SolveTwo(l, x, y, w, p);
        LinkRespects(w, rep, fixed, x, y);
      }
    }
  }

  lemma PairSet(s: set<nat>, x: nat)
    requires |s| == 2 && x in s
    ensures exists y :: y in s && y != x
    ensures forall y :: y in s && y != x ==> s == {x, y}
  {
    assert |s - {x}| == 1;
    var y :| y in s - {x};
    forall z | z in s && z != x ensures s == {x, z} {
      SingletonSet(s - {x}, z);
      assert s == (s - {x}) + {x};
    }
  }

  // ---- selection and encoding ----------------------------------------------------

  /** The constraints that mention a wire of the support; all of them without a support. */
  function Kept(norm: seq<Sourced>, support: Option<set<nat>>): seq<Constraint> {
    if norm == [] then []
    else
      var rest := Kept(norm[..|norm| - 1], support);
      var last := norm[|norm| - 1];
      if support.None? || last.src * support.value != {} then rest + [last.con] else rest
  }

  lemma {:induction false} KeptFrom(norm: seq<Sourced>, support: Option<set<nat>>)
    ensures forall i :: 0 <= i < |Kept(norm, support)| ==> exists j :: 0 <= j < |norm| && Kept(norm, support)[i] == norm[j].con
  {
    if norm == [] {
      assert Kept(norm, support) == [];
      return;
    }
    var n := |norm| - 1;
    KeptFrom(norm[..n], support);
    forall i | 0 <= i < |Kept(norm, support)| ensures exists j :: 0 <= j < |norm| && Kept(norm, support)[i] == norm[j].con {
      var rest := Kept(norm[..n], support);
      if i < |rest| {
        var j :| 0 <= j < n && rest[i] == norm[..n][j].con;
        assert norm[j].con == rest[i];
      } else {
        assert norm[n].con == Kept(norm, support)[i];
      }
    }
  }

  lemma {:induction false} KeptAll(norm: seq<Sourced>)
    ensures Kept(norm, None) == Constraints(norm)
  {
    if norm != [] {
      var n := |norm| - 1;
      KeptAll(norm[..n]);
      assert Constraints(norm) == Constraints(norm[..n]) + [norm[n].con];
    }
  }

  predicate Touches(x: Sourced, support: set<nat>) { exists w :: w in x.src && w in support }

  ghost predicate InSlice(c: Constraint, norm: seq<Sourced>, support: set<nat>) {
    exists i :: 0 <= i < |norm| && norm[i].con == c && Touches(norm[i], support)
  }

  /** A slice has exactly the constraints whose origin mentions a wire of the support. */
  lemma {:induction false} KeptMembers(norm: seq<Sourced>, support: set<nat>)
    ensures forall c :: c in Kept(norm, Some(support)) <==> InSlice(c, norm, support)
  {
    if norm != [] {
      var n := |norm| - 1;
      var rest := Kept(norm[..n], Some(support));
      KeptMembers(norm[..n], support);
      assert Touches(norm[n], support) <==> norm[n].src * support != {} by {
        if norm[n].src * support != {} {
          var w :| w in norm[n].src * support;
          assert w in norm[n].src && w in support;
        }
        if w :| w in norm[n].src && w in support { assert w in norm[n].src * support; }
      }
      forall c ensures c in Kept(norm, Some(support)) <==> InSlice(c, norm, support) {
        if c in rest {
          var i :| 0 <= i < n && norm[..n][i].con == c && Touches(norm[..n][i], support);
          assert norm[i].con == c && Touches(norm[i], support);
        }
        if i :| 0 <= i < |norm| && norm[i].con == c && Touches(norm[i], support) {
          if i < n { assert norm[..n][i].con == c && Touches(norm[..n][i], support); }
        }
      }
    }
  }

  /** The wires some constraint of the system forces to be bits. */
  ghost predicate IsBit(cs: seq<Constraint>, v: nat, p: int)
    requires p > 0
  {
    exists i :: 0 <= i < |cs| && IsBitConstraint(cs[i], v, p)
  }

  /** The emitted formulas hold exactly when the boolean wires carry bits, no contradiction
      was found, and every selected constraint the encoder did not skip is satisfied. */
  ghost predicate Encodes(fs: seq<Formula>, cs: seq<Constraint>, bools: set<nat>, contradiction: bool, p: int)
    requires p > 0
  {
    forall m: Interp :: EncodesAt(fs, cs, bools, contradiction, m, p)
  }

  ghost predicate EncodesAt(fs: seq<Formula>, cs: seq<Constraint>, bools: set<nat>, contradiction: bool, m: Interp, p: int)
    requires p > 0
  {
    IsWitness(m.w, p) && Multiplies(m) ==>
      (HoldAll(fs, m, p) <==>
       Fits(m.w, bools, p) && !contradiction && AllMet(cs, bools, m.w, p))
  }

  ghost predicate AllMet(cs: seq<Constraint>, bools: set<nat>, w: Witness, p: int)
    requires p > 0
  {
    forall i :: 0 <= i < |cs| ==> Met(cs[i], bools, w, p)
  }

  ghost predicate Met(c: Constraint, bools: set<nat>, w: Witness, p: int)
    requires p > 0
  {
    Skips(c, bools) || Sat(c, w, p)
  }

  lemma AllMetStep(cs: seq<Constraint>, n: nat, bools: set<nat>, w: Witness, p: int)
    requires p > 0 && n < |cs|
    ensures AllMet(cs[..n + 1], bools, w, p) <==> AllMet(cs[..n], bools, w, p) && Met(cs[n], bools, w, p)
  {
    var longer := cs[..n + 1];
    assert forall i :: 0 <= i < n ==> longer[i] == cs[..n][i];
    if AllMet(longer, bools, w, p) {
      assert Met(longer[n], bools, w, p);
      forall i | 0 <= i < n ensures Met(cs[..n][i], bools, w, p) { assert Met(longer[i], bools, w, p); }
    }
  }

  lemma HoldConcat(fs: seq<Formula>, gs: seq<Formula>, m: Interp, p: int)
    requires p > 0
    ensures HoldAll(fs + gs, m, p) <==> HoldAll(fs, m, p) && HoldAll(gs, m, p)
  {
    assert forall i :: 0 <= i < |fs| ==> (fs + gs)[i] == fs[i];
    assert forall i :: 0 <= i < |gs| ==> (fs + gs)[|fs| + i] == gs[i];
    if HoldAll(fs + gs, m, p) {
      forall i | 0 <= i < |gs| ensures Holds(gs[i], m, p) { assert Holds((fs + gs)[|fs| + i], m, p); }
      forall i | 0 <= i < |fs| ensures Holds(fs[i], m, p) { assert Holds((fs + gs)[i], m, p); }
    }
  }

  lemma ListsConcat(apps: seq<(nat, nat)>, more: seq<(nat, nat)>, fs: seq<Formula>, gs: seq<Formula>)
    requires Lists(apps, fs) && Lists(more, gs)
    ensures Lists(apps + more, fs + gs)
  {
    forall a: (nat, nat) ensures a in apps + more <==> exists i :: 0 <= i < |fs + gs| && Mentions((fs + gs)[i], a) {
      if a in apps {
        var i :| 0 <= i < |fs| && Mentions(fs[i], a);
        assert Mentions((fs + gs)[i], a);
      }
      if a in more {
        var i :| 0 <= i < |gs| && Mentions(gs[i], a);
        assert Mentions((fs + gs)[|fs| + i], a);
      }
    }
  }

  lemma EncodesStep(fs: seq<Formula>, gs: seq<Formula>, cs: seq<Constraint>, n: nat, bools: set<nat>, contradiction: bool, p: int)
    requires p > 0 && n < |cs| && Encodes(fs, cs[..n], bools, contradiction, p) && Means(gs, cs[n], bools, p)
    ensures Encodes(fs + gs, cs[..n + 1], bools, contradiction, p)
  {
    var all, longer := fs + gs, cs[..n + 1];
    forall m: Interp ensures EncodesAt(all, longer, bools, contradiction, m, p) {
      HoldConcat(fs, gs, m, p);
      assert EncodesAt(fs, cs[..n], bools, contradiction, m, p) && MeansAt(gs, cs[n], bools, m, p);
      AllMetStep(cs, n, bools, m.w, p);
    }
  }

  /** A witness of the selected constraints satisfies everything that is emitted. */
  lemma EncodingSound(fs: seq<Formula>, cs: seq<Constraint>, bools: set<nat>, m: Interp, p: int)
    requires IsPrime(p) && Encodes(fs, cs, bools, false, p)
    requires forall i :: 0 <= i < |cs| ==> Normal(cs[i].a, p) && Normal(cs[i].b, p)
    requires forall v :: v in bools ==> IsBit(cs, v, p)
    requires IsWitness(m.w, p) && Multiplies(m) && SatAll(cs, m.w, p)
    ensures HoldAll(fs, m, p)
  {
    assert EncodesAt(fs, cs, bools, false, m, p);
    forall v | v in bools ensures m.w(v) == 0 || m.w(v) == 1 {
      var i :| 0 <= i < |cs| && IsBitConstraint(cs[i], v, p);
      BitConstraint(cs[i], v, m.w, p);
    }
  }

  /** The witness with `mul` read as the integer product. */
  ghost function IntegerReading(w: Witness): (m: Interp)
    ensures m.w == w && m.mul == Product() && Multiplies(m)
  {
    Interp(w, Product())
  }

  function Product(): (f: (int, int) -> int)
    ensures forall a, b :: f(a, b) == a * b
  {
    (a, b) => a * b
  }

  /** The system, its classes and a slice of its encoding belong together. */
  ghost predicate Encoded(cs: seq<Constraint>, norm: seq<Sourced>, support: Option<set<nat>>, bools: set<nat>, contradiction: bool,
                          rep: map<nat, nat>, fixed: map<nat, int>, fs: seq<Formula>, p: int)
    requires p > 0
  {
    && Equivalent(cs, Constraints(norm), contradiction, rep, fixed, p)
    && (forall i :: 0 <= i < |norm| ==> Normal(norm[i].con.a, p) && Normal(norm[i].con.b, p))
    && Encodes(fs, Kept(norm, support), bools, contradiction, p)
    && (forall v :: v in bools ==> IsBit(Kept(norm, support), v, p))
  }

  /** Every solution of the system satisfies what is emitted for any slice, and respects the
      classes. */
  lemma SolutionFits(cs: seq<Constraint>, norm: seq<Sourced>, support: Option<set<nat>>, bools: set<nat>, contradiction: bool,
                     rep: map<nat, nat>, fixed: map<nat, int>, fs: seq<Formula>, m: Interp, p: int)
    requires IsPrime(p) && Encoded(cs, norm, support, bools, contradiction, rep, fixed, fs, p)
    requires IsWitness(m.w, p) && SatAll(cs, m.w, p) && Multiplies(m)
    ensures Respects(m.w, rep, fixed) && HoldAll(fs, m, p)
  {
    assert EquivalentAt(cs, Constraints(norm), contradiction, rep, fixed, m.w, p);
    var kept := Kept(norm, support);
    KeptFrom(norm, support);
    forall i | 0 <= i < |kept| ensures Sat(kept[i], m.w, p) {
      var j :| 0 <= j < |norm| && kept[i] == norm[j].con;
      assert Sat(Constraints(norm)[j], m.w, p);
    }
    EncodingSound(fs, kept, bools, m, p);
  }

  // ---- wires as the solver sees them ------------------------------------------------

  /** `rep_expr` (encode.py:175-184): merged wires share one variable, fixed ones have none. */
  ghost function RepExprOf(rep: map<nat, nat>, fixed: map<nat, int>, i: nat): Expr {
    if i == 0 then Lit(1)
    else if RepOf(rep, i) in fixed then Lit(fixed[RepOf(rep, i)])
    else Var(RepOf(rep, i))
  }

  /** An assignment gives every wire the value of its expression exactly if it respects the
      classes: these are the assignments a solver ranges over. */
  lemma RepExprsRead(rep: map<nat, nat>, fixed: map<nat, int>, m: Interp)
    requires Roots(rep, fixed) && m.w(0) == 1
    ensures Respects(m.w, rep, fixed) <==> forall i: nat :: Value(RepExprOf(rep, fixed, i), m) == m.w(i)
  {
    if forall i: nat :: Value(RepExprOf(rep, fixed, i), m) == m.w(i) {
      forall i | i in rep ensures m.w(i) == m.w(rep[i]) {
        assert Value(RepExprOf(rep, fixed, i), m) == m.w(i) && Value(RepExprOf(rep, fixed, rep[i]), m) == m.w(rep[i]);
      }
      forall i | i in fixed ensures m.w(i) == fixed[i] {
        assert Value(RepExprOf(rep, fixed, i), m) == m.w(i);
      }
    }
  }

  class Model {
    const p: int
    const constraints: seq<Constraint>
    var parent: map<nat, nat>
    var fixed: map<nat, int>
    var normAll: seq<Sourced>
    var contradiction: bool
    var normConstraints: seq<Constraint>
    var boolWires: set<nat>
    ghost var rep: map<nat, nat>
    ghost var rank: map<nat, nat>
    ghost var forms: seq<Constraint>
    ghost const universe: set<nat>

    ghost predicate Valid() reads this {
      && IsPrime(p)
      && (forall i :: 0 <= i < |constraints| ==> AllWires(constraints[i]) <= universe)
      && 0 !in universe
      && Forest(parent, rep, rank)
      && parent.Keys <= universe && (forall i :: i in rep ==> rep[i] in universe)
      && fixed.Keys <= universe && fixed.Keys !! parent.Keys
    }

    /** Nothing has been substituted yet. */
    ghost predicate Untouched() reads this { parent == map[] && fixed == map[] && rep == map[] }

    /** The normal forms of the first n constraints have been collected. */
    ghost predicate Normalised(n: nat)
      reads this
    {
      p > 0 && |forms| == n && IsNormalised(normAll, contradiction, forms, constraints, Open(), rep, fixed, p)
    }

    /** Classes that are still undetermined: roots without a recorded constant. */
    ghost function Open(): set<nat> reads this { universe - parent.Keys - fixed.Keys }

    /** `_find` with path halving (encode.py:83-87). */
    method Find(w: nat) returns (r: nat)
      requires Valid()
      modifies this`parent
      ensures Valid() && parent.Keys == old(parent.Keys)
      ensures r == RepOf(rep, w)
      ensures w in universe ==> r in universe && r !in parent
    {
      r := w;
      while r in parent
        invariant Valid() && parent.Keys == old(parent.Keys)
        invariant RepOf(rep, r) == RepOf(rep, w)
        decreases if r in parent then |parent| - rank[r] else 0
      {
        assert Linked(parent, rep, rank, r);
        if parent[r] in parent {
          HalvingForest(parent, rep, rank, r);
          parent := parent[r := parent[parent[r]]];
          assert Linked(parent, rep, rank, r);
        }
        r := parent[r];
      }
    }

    method RepExpr(w: nat) returns (e: Expr)
      requires Valid()
      modifies this`parent
      ensures Valid() && parent.Keys == old(parent.Keys)
      ensures e == RepExprOf(rep, fixed, w)
    {
      if w == 0 { return Lit(1); }
      var r := Find(w);
      e := if r in fixed then Lit(fixed[r]) else Var(r);
    }

    lemma ValidRoots()
      requires Valid()
      ensures Roots(rep, fixed) && OpenOk(Open(), rep, fixed)
    {
      forall i | i in rep ensures rep[i] !in rep && rep[i] != 0 { assert Linked(parent, rep, rank, i); }
    }

    /** `_norm` (encode.py:89-101). */
    method Norm(lc: LC) returns (out: LC)
      requires Valid() && Wires(lc) <= universe
      modifies this`parent
      ensures Valid() && parent.Keys == old(parent.Keys)
      ensures Normal(out, p) && SameValue(out, lc, rep, fixed, p)
      ensures Wires(out) <= Open()
    {
      var acc: LC := map[];
      var done: set<nat> := {};
      PartStart(lc, rep, fixed, p);
      while done != lc.Keys
        invariant Valid() && parent.Keys == old(parent.Keys)
        invariant done <= lc.Keys
        invariant PartValue(acc, lc, done, rep, fixed, p)
        invariant forall i :: i in acc ==> 0 <= acc[i] < p
        invariant Wires(acc) <= Open()
        decreases lc.Keys - done
      {
        var i :| i in lc.Keys && i !in done;
        PartStep(acc, lc, done, i, rep, fixed, p);
        acc := NormTerm(acc, i, lc[i]);
        done := done + {i};
      }
      PartEnd(acc, lc, rep, fixed, p);
      out := DropZeros(acc);
    }

    /** The loop body of `_norm`: add the term `c * w` to the right entry. */
    method NormTerm(acc: LC, w: nat, c: int) returns (next: LC)
      requires Valid() && (w == 0 || w in universe)
      requires (forall i :: i in acc ==> 0 <= acc[i] < p) && Wires(acc) <= Open()
      modifies this`parent
      ensures Valid() && parent.Keys == old(parent.Keys)
      ensures var (k, t) := Target(RepOf(rep, w), c, fixed); next == acc[k := (Coeff(acc, k) + t) % p]
      ensures (forall i :: i in next ==> 0 <= next[i] < p) && Wires(next) <= Open()
    {
      if w == 0 {
        next := acc[0 := (Coeff(acc, 0) + c) % p];
      } else {
        var r := Find(w);
        if r in fixed {
          next := acc[0 := (Coeff(acc, 0) + c * fixed[r]) % p];
        } else {
          next := acc[r := (Coeff(acc, r) + c) % p];
        }
      }
    }

    method NormConstraint(c: Constraint) returns (d: Constraint)
      requires Valid() && AllWires(c) <= universe
      modifies this`parent
      ensures Valid() && parent.Keys == old(parent.Keys)
      ensures NormalForm(d, c, Open(), rep, fixed, p)
    {
      var a := Norm(c.a);
      var b := Norm(c.b);
      var cc := Norm(c.c);
      d := R1C(a, b, cc);
    }

    /** Fix or merge classes if `x * y == c`, with `x` constant, is an equation in one
        wire or an equality of two (encode.py:110-130). */
    method Absorb(ghost n: nat, ghost d: Constraint, x: LC, y: LC, c: LC) returns (changed: bool)
      requires Valid() && Implied(constraints, rep, fixed, p)
      requires n < |constraints| && SameConstraint(d, constraints[n], rep, fixed, p) && c == d.c
      requires ((x, y) == (d.a, d.b) || (x, y) == (d.b, d.a)) && IsConst(x)
      requires Wires(y) + Wires(c) <= Open()
      modifies this`parent, this`fixed, this`rep, this`rank
      ensures Valid() && Implied(constraints, rep, fixed, p)
      ensures if changed then Open() < old(Open()) else Open() == old(Open()) && rep == old(rep) && fixed == old(fixed)
      ensures !changed ==> !Decides(Combined(Coeff(x, 0), y, c, p), p)
    {
      var l := ScaleMinus(Coeff(x, 0), y, c, p);
      LinearConsequence(constraints, n, d, x, y, l, rep, fixed, p);
      changed := AbsorbLinear(l);
    }

    /** The equation `l = 0`, if it has one wire, or two with opposite coefficients. */
    method AbsorbLinear(l: LC) returns (changed: bool)
      requires Valid() && Implied(constraints, rep, fixed, p) && Consequence(constraints, l, p)
      requires Normal(l, p) && Wires(l) <= Open()
      modifies this`parent, this`fixed, this`rep, this`rank
      ensures Valid() && Implied(constraints, rep, fixed, p)
      ensures if changed then Open() < old(Open()) else Open() == old(Open()) && rep == old(rep) && fixed == old(fixed)
      ensures !changed ==> !Decides(l, p)
    {
      var ws := Wires(l);
      changed := false;
      if |ws| == 1 {
        var v :| v in ws;
        SingletonSet(ws, v);
        Fix(l, v);
        changed := true;
      } else if |ws| == 2 && Coeff(l, 0) == 0 {
        var v :| v in ws;
        PairSet(ws, v);
        var u :| u in ws && u != v;
        if (l[v] + l[u]) % p == 0 {
          changed := Merge(l, v, u);
        } else {
          NotDecided(l, v, u, p);
        }
      }
    }

    /** `c1 * x + c0 = 0`: record the value of x. */
    method Fix(l: LC, x: nat)
      requires Valid() && Implied(constraints, rep, fixed, p) && Consequence(constraints, l, p)
      requires Normal(l, p) && Wires(l) == {x} && x in Open()
      modifies this`fixed
      ensures Valid() && Implied(constraints, rep, fixed, p)
      ensures Open() == old(Open()) - {x}
    {
      assert x in Wires(l);
      NormalNonzero(l, x, p);
      FixImplied(constraints, l, x, rep, fixed, p);
      fixed := fixed[x := (-Coeff(l, 0) * Inverse(l[x], p)) % p];
    }

    /** `c * x - c * y = 0`: merge the two classes. */
    method Merge(l: LC, x: nat, y: nat) returns (changed: bool)
      requires Valid() && Implied(constraints, rep, fixed, p) && Consequence(constraints, l, p)
      requires Normal(l, p) && Wires(l) == {x, y} && x != y && x in Open() && y in Open()
      requires Coeff(l, 0) == 0 && (l[x] + l[y]) % p == 0
      modifies this`parent, this`rep, this`rank
      ensures Valid() && Implied(constraints, rep, fixed, p)
      ensures changed && Open() == old(Open()) - {x}
    {
      var a := Find(x);
      var b := Find(y);
      changed := a != b;
      if a != b {
        LinkImplied(constraints, l, x, y, rep, fixed, p);
        Link(a, b);
      }
    }

    /** `self.parent[a] = b` for two open roots. */
    method Link(a: nat, b: nat)
      requires Valid() && a in Open() && b in Open() && a != b
      modifies this`parent, this`rep, this`rank
      ensures Valid() && rep == LinkReps(old(rep), a, b) && Open() == old(Open()) - {a}
    {
      LinkForest(parent, rep, rank, a, b);
      rank := rank[a := |parent|];
      parent := parent[a := b];
      rep := LinkReps(rep, a, b);
    }

    /** One constraint of the substitution pass. */
    method AbsorbConstraint(n: nat) returns (changed: bool)
      requires Valid() && Implied(constraints, rep, fixed, p) && n < |constraints|
      modifies this`parent, this`fixed, this`rep, this`rank
      ensures Valid() && Implied(constraints, rep, fixed, p)
      ensures if changed then Open() < old(Open()) else Open() == old(Open()) && rep == old(rep) && fixed == old(fixed)
      ensures !changed ==> ClosedAt(constraints[n], Open(), rep, fixed, p)
      ensures old(Untouched()) && Settled(constraints[n], p) ==> !changed && Untouched()
    {
      ghost var before := Untouched();
      var d := NormConstraint(constraints[n]);
      if before && Settled(constraints[n], p) { SettledForm(n, d); }
      changed := false;
      if IsConst(d.a) {
        if IsConst(d.b) { BothConstant(d, p); }
        changed := Absorb(n, d, d.a, d.b, d.c);
      } else if IsConst(d.b) {
        changed := Absorb(n, d, d.b, d.a, d.c);
      }
      if !changed { ClosedNow(n, d); }
    }

    lemma SettledForm(n: nat, d: Constraint)
      requires Valid() && n < |constraints| && Untouched() && Settled(constraints[n], p)
      requires NormalForm(d, constraints[n], Open(), rep, fixed, p)
      ensures d == constraints[n]
    {
      ValidRoots();
      OwnForm(constraints[n], Open(), rep, fixed, p);
      FormUnique(d, constraints[n], constraints[n], Open(), rep, fixed, p);
    }

    lemma ClosedNow(n: nat, d: Constraint)
      requires Valid() && n < |constraints| && NormalForm(d, constraints[n], Open(), rep, fixed, p) && Undecided(d, p)
      ensures ClosedAt(constraints[n], Open(), rep, fixed, p)
    {
      ValidRoots();
      forall e | NormalForm(e, constraints[n], Open(), rep, fixed, p) ensures Undecided(e, p) {
        FormUnique(d, e, constraints[n], Open(), rep, fixed, p);
      }
    }

    /** The substitution fixpoint and the normalised system (encode.py:103-145): together
        with the classes it has exactly the solutions of the original system; it consists of
        the normal forms of the constraints over the classes; and none of these still fixes a
        wire or makes two wires equal. */
    constructor Build(p: int, cs: seq<Constraint>)
      requires IsPrime(p)
      ensures Valid() && this.p == p && constraints == cs
      ensures Equivalent(cs, Constraints(normAll), contradiction, rep, fixed, p)
      ensures Normalised(|cs|) && forall i :: 0 <= i < |cs| ==> Undecided(forms[i], p)
      ensures AllNormalOn(normAll, Open(), p) && forall x :: x in normAll ==> Undecided(x.con, p)
      ensures normConstraints == Constraints(normAll)
      ensures AllSettled(cs, p) ==> Verbatim(normAll, cs, |cs|) && !contradiction && Untouched()
    {
      this.p, constraints, universe := p, cs, UnionWires(cs);
      parent, fixed, rep, rank := map[], map[], map[], map[];
      normAll, contradiction, normConstraints, boolWires, forms := [], false, [], {}, [];
      new;
      UnionWiresCovers(cs);
      assert Implied(constraints, rep, fixed, p) by {
        forall w: Witness ensures ImpliedAt(constraints, rep, fixed, w, p) {}
      }
      var changed := true;
      while changed
        invariant Valid() && Implied(constraints, rep, fixed, p)
        invariant AllSettled(constraints, p) ==> Untouched()
        invariant !changed ==> Closed(constraints, |constraints|, Open(), rep, fixed, p)
        decreases Open(), changed
      {
        changed := SubstitutionPass();
      }
      Normalise();
      NormalisedSystem(normAll, contradiction, forms, constraints, Open(), rep, fixed, p);
      if Untouched() && AllSettled(constraints, p) { SettledSystem(); }
    }

    /** One pass over the constraints. */
    method SubstitutionPass() returns (changed: bool)
      requires Valid() && Implied(constraints, rep, fixed, p)
      modifies this`parent, this`fixed, this`rep, this`rank
      ensures Valid() && Implied(constraints, rep, fixed, p)
      ensures if changed then Open() < old(Open()) else Open() == old(Open())
      ensures !changed ==> Closed(constraints, |constraints|, Open(), rep, fixed, p)
      ensures old(Untouched()) && AllSettled(constraints, p) ==> Untouched()
    {
      changed := false;
      var n := 0;
      ghost var settled := Untouched() && AllSettled(constraints, p);
      while n < |constraints|
        invariant 0 <= n <= |constraints|
        invariant Valid() && Implied(constraints, rep, fixed, p)
        invariant settled ==> Untouched() && AllSettled(constraints, p)
        invariant if changed then Open() < old(Open()) else Open() == old(Open())
        invariant !changed ==> Closed(constraints, n, Open(), rep, fixed, p)
      {
        var more := AbsorbConstraint(n);
        if !changed && !more { ClosedNext(constraints, n, Open(), rep, fixed, p); }
        changed := changed || more;
        n := n + 1;
      }
    }

    /** One constraint of the normal form: constants only set the flag. */
    method NormaliseNext(n: nat)
      requires Valid() && n < |constraints| && Normalised(n)
      modifies this`parent, this`normAll, this`contradiction, this`forms
      ensures Valid() && Normalised(n + 1) && parent.Keys == old(parent.Keys)
    {
      var c := constraints[n];
      var d := NormConstraint(c);
      NormalisedNext(normAll, contradiction, forms, d, constraints, Open(), rep, fixed, p);
      TakeOver(d, AllWires(c));
    }

    /** The end of the loop body: a constraint over constants only sets the flag. */
    method TakeOver(d: Constraint, src: set<nat>)
      requires p > 0
      modifies this`normAll, this`contradiction, this`forms
      ensures normAll == old(normAll) + (if AllConst(d) then [] else [Sourced(d, src)])
      ensures contradiction <==> old(contradiction) || Impossible(d, p)
      ensures forms == old(forms) + [d]
    {
      forms := forms + [d];
      if AllConst(d) {
        contradiction := contradiction || (Coeff(d.a, 0) * Coeff(d.b, 0) - Coeff(d.c, 0)) % p != 0;
      } else {
        normAll := normAll + [Sourced(d, src)];
      }
    }

    /** The loop that builds the normal form (encode.py:132-140). */
    method NormaliseEach()
      requires Valid() && normAll == [] && !contradiction && forms == []
      modifies this`parent, this`normAll, this`contradiction, this`forms
      ensures Valid() && Normalised(|constraints|) && parent.Keys == old(parent.Keys)
    {
      var n := 0;
      while n < |constraints|
        invariant 0 <= n <= |constraints| && Valid() && Normalised(n) && parent.Keys == old(parent.Keys)
      {
        NormaliseNext(n);
        n := n + 1;
      }
    }

    method Normalise()
      requires Valid()
      modifies this`parent, this`normAll, this`contradiction, this`normConstraints, this`forms
      ensures Valid() && Normalised(|constraints|) && parent.Keys == old(parent.Keys)
      ensures normConstraints == Constraints(normAll)
    {
      normAll, contradiction, forms := [], false, [];
      NormaliseEach();
      normConstraints := Constraints(normAll);
    }

    lemma SettledSystem()
      requires Valid() && Untouched() && AllSettled(constraints, p) && Normalised(|constraints|)
      ensures Verbatim(normAll, constraints, |constraints|) && !contradiction
    {
      CollectSettled(constraints, forms, Open(), p);
    }

    /** `_select` (encode.py:155-172). The boolean wires are exactly those that a kept
        constraint forces to be bits. */
    method Select(support: Option<set<nat>>)
      requires Valid()
      modifies this`normConstraints, this`boolWires
      ensures Valid()
      ensures normConstraints == Kept(normAll, support)
      ensures forall v :: v in boolWires <==> IsBit(normConstraints, v, p)
    {
      var kept: seq<Constraint> := [];
      var n := 0;
      while n < |normAll|
        invariant 0 <= n <= |normAll|
        invariant kept == Kept(normAll[..n], support)
      {
        assert normAll[..n + 1][..n] == normAll[..n];
        if support.None? || normAll[n].src * support.value != {} {
          kept := kept + [normAll[n].con];
        }
        n := n + 1;
      }
      assert normAll[..n] == normAll;
      normConstraints := kept;
      boolWires := {};
      n := 0;
      while n < |kept|
        invariant 0 <= n <= |kept|
        invariant normConstraints == kept
        invariant forall v :: v in boolWires <==> IsBit(kept[..n], v, p)
      {
        var c := kept[n];
        var found := set v | v in Wires(c.a) && IsBitConstraint(c, v, p);
        BitWires(kept, n, boolWires, found, p);
        boolWires := boolWires + found;
        n := n + 1;
      }
      assert kept[..n] == kept;
    }

    /** `encode` (encode.py:242-305). */
    method Encode(support: Option<set<nat>>) returns (fs: seq<Formula>, apps: seq<(nat, nat)>)
      requires Valid()
      modifies this`normConstraints, this`boolWires
      ensures Valid()
      ensures normConstraints == Kept(normAll, support)
      ensures forall v :: v in boolWires <==> IsBit(normConstraints, v, p)
      ensures Encodes(fs, normConstraints, boolWires, contradiction, p)
      ensures Lists(apps, fs)
    {
      Select(support);
      fs := EncodeBits(boolWires, p);
      EncodesStart(fs, boolWires, contradiction, p);
      if contradiction {
        NoAtomListed(Truth(false));
        ListsConcat([], [], fs, [Truth(false)]);
        fs := fs + [Truth(false)];
      }
      apps := [];
      var n := 0;
      var cs, bools := normConstraints, boolWires;
      assert cs[..0] == [];
      while n < |cs|
        invariant 0 <= n <= |cs|
        invariant normConstraints == cs && boolWires == bools
        invariant Encodes(fs, cs[..n], bools, contradiction, p) && Lists(apps, fs)
      {
        var gs, more := EncodeConstraint(cs[n], bools, p);
        EncodesStep(fs, gs, cs, n, bools, contradiction, p);
        ListsConcat(apps, more, fs, gs);
        fs, apps, n := fs + gs, apps + more, n + 1;
      }
      assert cs[..n] == cs;
    }
  }

  lemma BitWires(cs: seq<Constraint>, n: nat, before: set<nat>, found: set<nat>, p: int)
    requires p > 0 && n < |cs|
    requires forall v :: v in before <==> IsBit(cs[..n], v, p)
    requires found == set v | v in Wires(cs[n].a) && IsBitConstraint(cs[n], v, p)
    ensures forall v :: v in before + found <==> IsBit(cs[..n + 1], v, p)
  {
    var longer := cs[..n + 1];
    forall v ensures v in before + found <==> IsBit(longer, v, p) {
      if v in before {
        var i :| 0 <= i < n && IsBitConstraint(cs[..n][i], v, p);
        assert IsBitConstraint(longer[i], v, p);
      }
      if v in found { assert IsBitConstraint(longer[n], v, p); }
      if IsBit(longer, v, p) {
        var i :| 0 <= i < n + 1 && IsBitConstraint(longer[i], v, p);
        if i < n { assert IsBitConstraint(cs[..n][i], v, p); } else { assert v in {v}; }
      }
    }
  }

  ghost predicate BitsMean(fs: seq<Formula>, bools: set<nat>, p: int)
    requires p > 0
  {
    forall m: Interp :: BitsMeanAt(fs, bools, m, p)
  }

  ghost predicate BitsMeanAt(fs: seq<Formula>, bools: set<nat>, m: Interp, p: int)
    requires p > 0
  {
    HoldAll(fs, m, p) <==> forall v :: v in bools ==> m.w(v) == 0 || m.w(v) == 1
  }

  /** `Or(v == 0, v == 1)` for every boolean wire. */
  method EncodeBits(bools: set<nat>, p: int) returns (fs: seq<Formula>)
    requires p > 0
    ensures BitsMean(fs, bools, p)
    ensures Lists([], fs)
  {
    fs := [];
    var done: set<nat> := {};
    assert BitsMean(fs, {}, p) by { forall m: Interp ensures BitsMeanAt(fs, {}, m, p) {} }
    while done != bools
      invariant done <= bools
      invariant BitsMean(fs, done, p) && Lists([], fs)
      decreases bools - done
    {
      var v :| v in bools && v !in done;
      BitsStep(fs, done, v, p);
      NoAtomListed(Or([Equals(Var(v), 0), Equals(Var(v), 1)]));
      ListsConcat([], [], fs, [Or([Equals(Var(v), 0), Equals(Var(v), 1)])]);
      fs := fs + [Or([Equals(Var(v), 0), Equals(Var(v), 1)])];
      done := done + {v};
    }
  }

  lemma BitsStep(fs: seq<Formula>, done: set<nat>, v: nat, p: int)
    requires p > 0 && BitsMean(fs, done, p)
    ensures BitsMean(fs + [Or([Equals(Var(v), 0), Equals(Var(v), 1)])], done + {v}, p)
  {
    var f := Or([Equals(Var(v), 0), Equals(Var(v), 1)]);
    var longer, more := fs + [f], done + {v};
    forall m: Interp ensures BitsMeanAt(longer, more, m, p) {
      assert BitsMeanAt(fs, done, m, p);
      HoldConcat(fs, [f], m, p);
      HoldOne(f, m, p);
      HoldsOr(Equals(Var(v), 0), Equals(Var(v), 1), m, p);
    }
  }

  lemma EncodesStart(fs: seq<Formula>, bools: set<nat>, contradiction: bool, p: int)
    requires p > 0 && BitsMean(fs, bools, p)
    ensures Encodes(if contradiction then fs + [Truth(false)] else fs, [], bools, contradiction, p)
  {
    var gs := if contradiction then fs + [Truth(false)] else fs;
    forall m: Interp ensures EncodesAt(gs, [], bools, contradiction, m, p) {
      assert BitsMeanAt(fs, bools, m, p);
      HoldConcat(fs, [Truth(false)], m, p);
      HoldOne(Truth(false), m, p);
    }
  }
}

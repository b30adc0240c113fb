/** The translation of a single normalised constraint. */
module Encoding {
  import opened Arith
  import opened LinComb
  import opened Formulas
  import opened Classes

  // ---- boolean wires ---------------------------------------------------------

  /** X = a*v and Y = b*(v - 1), as dictionaries. */
  predicate BitForm(x: LC, y: LC, v: nat, p: int)
    requires p > 0
  {
    Wires(x) == {v} && v in Wires(y) && Wires(y) == {v} && Coeff(x, 0) == 0 && (y[v] + Coeff(y, 0)) % p == 0
  }

  predicate IsBitConstraint(c: Constraint, v: nat, p: int)
    requires p > 0
  {
    c.c == map[] && (BitForm(c.a, c.b, v, p) || BitForm(c.b, c.a, v, p))
  }

  lemma BitProduct(x: LC, y: LC, v: nat, w: Witness, p: int)
    requires IsPrime(p) && IsWitness(w, p) && Normal(x, p) && Normal(y, p) && BitForm(x, y, v, p)
    ensures (Sum(x, w) * Sum(y, w)) % p == 0 <==> w(v) == 0 || w(v) == 1
  {
    assert v in Wires(x);
    SumSingle(x, v, w);
    SumSingle(y, v, w);
    Euclid(Sum(x, w), Sum(y, w), p);
    Euclid(x[v], w(v), p);
    DivModUnique(x[v], 0, x[v], p);
    DivModUnique(y[v], 0, y[v], p);
    DivModUnique(w(v), 0, w(v), p);
    assert y[v] * (w(v) - 1) == y[v] * w(v) - y[v];
    ModShift(Sum(y, w), y[v] * (w(v) - 1), p);
    Euclid(y[v], w(v) - 1, p);
    if (w(v) - 1) % p == 0 { BitOfResidue(w(v), p); }
  }

  lemma BitOfResidue(v: int, p: int)
    requires p >= 2 && 0 <= v < p && (v - 1) % p == 0
    ensures v == 1
  {
    ResidueUnique(v, 1, p);
  }

  lemma SatProduct(c: Constraint, w: Witness, p: int)
    requires p > 0 && c.c == map[]
    ensures Sat(c, w, p) <==> (Sum(c.a, w) * Sum(c.b, w)) % p == 0
    ensures Sat(c, w, p) <==> (Sum(c.b, w) * Sum(c.a, w)) % p == 0
  {
    assert Sum(c.c, w) == 0;
    assert Sum(c.a, w) * Sum(c.b, w) == Sum(c.b, w) * Sum(c.a, w);
  }

  /** A constraint of this form is satisfied exactly by the bits. */
  lemma BitConstraint(c: Constraint, v: nat, w: Witness, p: int)
    requires IsPrime(p) && IsWitness(w, p) && Normal(c.a, p) && Normal(c.b, p) && IsBitConstraint(c, v, p)
    ensures Sat(c, w, p) <==> w(v) == 0 || w(v) == 1
  {
    SatProduct(c, w, p);
    if BitForm(c.a, c.b, v, p) {
      BitProduct(c.a, c.b, v, w, p);
    } else {
      BitProduct(c.b, c.a, v, w, p);
    }
  }

  // ---- the meaning of an encoded constraint ------------------------------------

  /** `mul` is read as integer multiplication. */
  ghost predicate Multiplies(m: Interp) { forall a, b :: m.mul(a, b) == a * b }

  /** The guard of `encode.py:267`, which emits nothing for the constraint. */
  predicate Skips(c: Constraint, bools: set<nat>) {
    !IsConst(c.a) && !IsConst(c.b) && c.c == map[] && Wires(c.a) == Wires(c.b) && |Wires(c.a)| == 1 && Wires(c.a) <= bools
  }

  /** The formulas for `c` say exactly that it is satisfied, unless it is skipped. */
  ghost predicate Means(fs: seq<Formula>, c: Constraint, bools: set<nat>, p: int)
    requires p > 0
  {
    forall m: Interp :: MeansAt(fs, c, bools, m, p)
  }

  ghost predicate MeansAt(fs: seq<Formula>, c: Constraint, bools: set<nat>, m: Interp, p: int)
    requires p > 0
  {
    Fits(m.w, bools, p) && Multiplies(m) ==> (HoldAll(fs, m, p) <==> Skips(c, bools) || Sat(c, m.w, p))
  }

  lemma HoldOne(f: Formula, m: Interp, p: int)
    requires p > 0
    ensures HoldAll([f], m, p) <==> Holds(f, m, p)
  {
    assert [f][0] == f;
  }

  /** The expression has the residue of the combination. */
  ghost predicate Denotes(e: Expr, l: LC, p: int)
    requires p > 0
  {
    forall m: Interp :: DenotesAt(e, l, m, p)
  }

  ghost predicate DenotesAt(e: Expr, l: LC, m: Interp, p: int)
    requires p > 0
  {
    IsWitness(m.w, p) ==> (Value(e, m) - Sum(l, m.w)) % p == 0
  }

  /** `_lin_expr` (encode.py:235-240). */
  method LinExpr(l: LC, p: int) returns (e: Expr)
    requires p > 0
    ensures Denotes(e, l, p) && Linear(e)
  {
    e := Lit(Signed(Coeff(l, 0), p));
    var done: set<nat> := {0};
    ghost var lo := Signed(Coeff(l, 0), p);
    ghost var hi := lo;
    PartialStart(l, {}, p);
    while l.Keys - done != {}
      invariant 0 in done && done <= l.Keys + {0}
      invariant Partial(e, lo, hi, l, done, {}, p)
      decreases l.Keys - done
    {
      var i :| i in l.Keys - done;
      PartialStep(e, lo, hi, l, done, {}, i, p);
      var c := Signed(l[i], p);
      ghost var (a, b) := Interval(i, {}, p);
      lo, hi := lo + Min(c * a, c * b), hi + Max(c * a, c * b);
      e := Plus(e, Scale(c, Var(i)));
      done := done + {i};
    }
    PartialDenotes(e, lo, hi, l, done, p);
  }

  lemma PartialDenotes(e: Expr, lo: int, hi: int, l: LC, done: set<nat>, p: int)
    requires p > 0 && l.Keys <= done && Partial(e, lo, hi, l, done, {}, p)
    ensures Denotes(e, l, p) && Linear(e)
  {
    assert l - done == map[];
    forall m: Interp ensures DenotesAt(e, l, m, p) {
      assert PartialAt(e, lo, hi, l, done, {}, m, p);
    }
  }

  // ---- the cases of the encoder's loop body --------------------------------------

  /** One factor is constant: a linear equation. */
  lemma MeansLinear(f: Formula, c: Constraint, x: LC, y: LC, l: LC, bools: set<nat>, p: int)
    requires p > 0 && IsConst(x) && ((x, y) == (c.a, c.b) || (x, y) == (c.b, c.a))
    requires IsScaleMinus(l, Coeff(x, 0), y, c.c, p) && Exact(f, l, bools, p)
    ensures Means([f], c, bools, p)
  {
    var fs := [f];
    forall m: Interp ensures MeansAt(fs, c, bools, m, p) {
      HoldOne(f, m, p);
      assert ExactAt(f, l, bools, m, p);
      assert ScaleMinusAt(l, Coeff(x, 0), y, c.c, m.w, p);
      if Fits(m.w, bools, p) {
        SumConst(x, m.w);
        ModShift(Sum(l, m.w), Coeff(x, 0) * Sum(y, m.w) - Sum(c.c, m.w), p);
        assert Sum(c.a, m.w) * Sum(c.b, m.w) == Sum(x, m.w) * Sum(y, m.w);
      }
    }
  }

  /** A product that must vanish: one of the factors does. */
  lemma MeansDisjunction(fa: Formula, fb: Formula, c: Constraint, bools: set<nat>, p: int)
    requires IsPrime(p) && c.c == map[] && !Skips(c, bools)
    requires Exact(fa, c.a, bools, p) && Exact(fb, c.b, bools, p)
    ensures Means([Or([fa, fb])], c, bools, p)
  {
    var f := Or([fa, fb]);
    var fs := [f];
    forall m: Interp ensures MeansAt(fs, c, bools, m, p) {
      HoldOne(f, m, p);
      assert ExactAt(fa, c.a, bools, m, p) && ExactAt(fb, c.b, bools, m, p);
      Euclid(Sum(c.a, m.w), Sum(c.b, m.w), p);
      HoldsOr(fa, fb, m, p);
    }
  }

  lemma HoldsOr(fa: Formula, fb: Formula, m: Interp, p: int)
    requires p > 0
    ensures Holds(Or([fa, fb]), m, p) <==> Holds(fa, m, p) || Holds(fb, m, p)
  {
    var fs := [fa, fb];
    if Holds(fa, m, p) { assert Holds(fs[0], m, p); }
    if Holds(fb, m, p) { assert Holds(fs[1], m, p); }
  }

  /** One factor is c1 * v + c0 with v boolean: split on the value of v. */
  lemma MeansSplit(one: Formula, zero: Formula, c: Constraint, x: LC, y: LC, v: nat, lone: LC, lzero: LC, bools: set<nat>, p: int)
    requires p > 0 && c.c != map[] && ((x, y) == (c.a, c.b) || (x, y) == (c.b, c.a))
    requires v in bools && v in Wires(x) && Wires(x) == {v}
    requires IsScaleMinus(lone, x[v] + Coeff(x, 0), y, c.c, p) && Exact(one, lone, bools, p)
    requires IsScaleMinus(lzero, Coeff(x, 0), y, c.c, p) && Exact(zero, lzero, bools, p)
    ensures Means([IfOne(v, one, zero)], c, bools, p)
  {
    var f := IfOne(v, one, zero);
    var fs := [f];
    forall m: Interp ensures MeansAt(fs, c, bools, m, p) {
      HoldOne(f, m, p);
      if Fits(m.w, bools, p) {
        SumSingle(x, v, m.w);
        assert Sum(c.a, m.w) * Sum(c.b, m.w) == Sum(x, m.w) * Sum(y, m.w);
        assert ExactAt(one, lone, bools, m, p) && ExactAt(zero, lzero, bools, m, p);
        if m.w(v) == 1 {
          BranchSat(c, x, y, lone, x[v] + Coeff(x, 0), m.w, p);
        } else {
          BranchSat(c, x, y, lzero, Coeff(x, 0), m.w, p);
        }
      }
    }
  }

  /** With factor `x` worth `k`, the constraint is the linear equation of the branch. */
  lemma BranchSat(c: Constraint, x: LC, y: LC, l: LC, k: int, w: Witness, p: int)
    requires p > 0 && IsScaleMinus(l, k, y, c.c, p) && Sum(x, w) == k
    requires Sum(c.a, w) * Sum(c.b, w) == Sum(x, w) * Sum(y, w)
    ensures Zero(l, w, p) <==> Sat(c, w, p)
  {
    assert ScaleMinusAt(l, k, y, c.c, w, p);
    ModShift(Sum(l, w), k * Sum(y, w) - Sum(c.c, w), p);
  }

  /** Two one-wire factors: expand around the atom mul(x, y). */
  function AtomExpr(x: nat, y: nat, a1: int, a0: int, b1: int, b0: int, e: Expr): Expr {
    Minus(Plus(Plus(Plus(Scale(a1 * b1, MulAtom(x, y)), Scale(a1 * b0, Var(x))), Scale(a0 * b1, Var(y))), Lit(a0 * b0)), e)
  }

  lemma AtomValue(x: nat, y: nat, a1: int, a0: int, b1: int, b0: int, e: Expr, m: Interp)
    requires Multiplies(m)
    ensures Value(AtomExpr(x, y, a1, a0, b1, b0, e), m) == (a1 * m.w(x) + a0) * (b1 * m.w(y) + b0) - Value(e, m)
  {
    var u, v := m.w(x), m.w(y);
    assert m.mul(u, v) == u * v;
    assert (a1 * u + a0) * (b1 * v + b0) == (a1 * u) * (b1 * v) + (a1 * u) * b0 + a0 * (b1 * v) + a0 * b0;
    assert (a1 * u) * (b1 * v) == (a1 * b1) * (u * v);
    assert (a1 * u) * b0 == (a1 * b0) * u;
    assert a0 * (b1 * v) == (a0 * b1) * v;
    AtomTerms(x, y, a1, a0, b1, b0, e, m);
  }

  lemma AtomTerms(x: nat, y: nat, a1: int, a0: int, b1: int, b0: int, e: Expr, m: Interp)
    ensures Value(AtomExpr(x, y, a1, a0, b1, b0, e), m)
            == (a1 * b1) * m.mul(m.w(x), m.w(y)) + (a1 * b0) * m.w(x) + (a0 * b1) * m.w(y) + a0 * b0 - Value(e, m)
  {
    var t1, t2, t3 := Scale(a1 * b1, MulAtom(x, y)), Scale(a1 * b0, Var(x)), Scale(a0 * b1, Var(y));
    assert Value(t1, m) == (a1 * b1) * Value(MulAtom(x, y), m);
    assert Value(t2, m) == (a1 * b0) * Value(Var(x), m);
    assert Value(t3, m) == (a0 * b1) * Value(Var(y), m);
    assert Value(Plus(t1, t2), m) == Value(t1, m) + Value(t2, m);
    assert Value(Plus(Plus(t1, t2), t3), m) == Value(Plus(t1, t2), m) + Value(t3, m);
    assert Value(Plus(Plus(Plus(t1, t2), t3), Lit(a0 * b0)), m) == Value(Plus(Plus(t1, t2), t3), m) + Value(Lit(a0 * b0), m);
  }

  lemma AffineResidue(c1: int, s1: int, c0: int, s0: int, v: int, p: int)
    requires p > 0 && (c1 - s1) % p == 0 && (c0 - s0) % p == 0
    ensures ((s1 * v + s0) - (c1 * v + c0)) % p == 0
  {
    ModScale(v, c1 - s1, p);
    ModAdd(v * (c1 - s1), c0 - s0, p);
    ModAdd(0, v * (c1 - s1) + (c0 - s0), p);
    assert (s1 * v + s0) - (c1 * v + c0) == 0 - (v * (c1 - s1) + (c0 - s0));
  }

  lemma MeansAtom(c: Constraint, x: nat, y: nat, a1: int, a0: int, b1: int, b0: int, e: Expr, bools: set<nat>, p: int)
    requires p > 0 && c.c != map[] && x in Wires(c.a) && Wires(c.a) == {x} && y in Wires(c.b) && Wires(c.b) == {y}
    requires (c.a[x] - a1) % p == 0 && (Coeff(c.a, 0) - a0) % p == 0
    requires (c.b[y] - b1) % p == 0 && (Coeff(c.b, 0) - b0) % p == 0
    requires Denotes(e, c.c, p)
    ensures Means([ModZero(AtomExpr(x, y, a1, a0, b1, b0, e))], c, bools, p)
  {
    var f := ModZero(AtomExpr(x, y, a1, a0, b1, b0, e));
    var fs := [f];
    forall m: Interp ensures MeansAt(fs, c, bools, m, p) {
      HoldOne(f, m, p);
      if Fits(m.w, bools, p) && Multiplies(m) {
        SumSingle(c.a, x, m.w);
        SumSingle(c.b, y, m.w);
        AtomValue(x, y, a1, a0, b1, b0, e, m);
        AffineResidue(c.a[x], a1, Coeff(c.a, 0), a0, m.w(x), p);
        AffineResidue(c.b[y], b1, Coeff(c.b, 0), b0, m.w(y), p);
        assert DenotesAt(e, c.c, m, p);
        CongruentSat(Sum(c.a, m.w), a1 * m.w(x) + a0, Sum(c.b, m.w), b1 * m.w(y) + b0, Sum(c.c, m.w), Value(e, m), p);
      }
    }
  }

  /** The general product. */
  lemma MeansProduct(c: Constraint, ea: Expr, eb: Expr, ec: Expr, bools: set<nat>, p: int)
    requires p > 0 && c.c != map[] && Denotes(ea, c.a, p) && Denotes(eb, c.b, p) && Denotes(ec, c.c, p)
    ensures Means([ModZero(Minus(Times(ea, eb), ec))], c, bools, p)
  {
    var f := ModZero(Minus(Times(ea, eb), ec));
    var fs := [f];
    forall m: Interp ensures MeansAt(fs, c, bools, m, p) {
      HoldOne(f, m, p);
      if Fits(m.w, bools, p) {
        assert DenotesAt(ea, c.a, m, p) && DenotesAt(eb, c.b, m, p) && DenotesAt(ec, c.c, m, p);
        CongruentSat(Sum(c.a, m.w), Value(ea, m), Sum(c.b, m.w), Value(eb, m), Sum(c.c, m.w), Value(ec, m), p);
        assert Value(Times(ea, eb), m) == Value(ea, m) * Value(eb, m);
      }
    }
  }

  /** Emit the split for factor `x`, if it is affine in one boolean wire. */
  method SplitOnBit(c: Constraint, x: LC, y: LC, bools: set<nat>, p: int) returns (fs: seq<Formula>)
    requires p > 0 && c.c != map[] && ((x, y) == (c.a, c.b) || (x, y) == (c.b, c.a))
    requires |Wires(x)| == 1 && Wires(x) <= bools
    ensures Means(fs, c, bools, p)
    ensures fs != [] && Lists([], fs)
  {
    var v :| v in Wires(x);
    assert Wires(x) == {v} by { assert |Wires(x) - {v}| == 0; }
    var lone := ScaleMinus(x[v] + Coeff(x, 0), y, c.c, p);
    var lzero := ScaleMinus(Coeff(x, 0), y, c.c, p);
    var one := LinZero(lone, bools, p);
    var zero := LinZero(lzero, bools, p);
    MeansSplit(one, zero, c, x, y, v, lone, lzero, bools, p);
    NoAtomListed(IfOne(v, one, zero));
    fs := [IfOne(v, one, zero)];
  }

  /** The product of two factors with one wire each, over a multiplication atom. */
  method AtomProduct(c: Constraint, bools: set<nat>, p: int) returns (fs: seq<Formula>, app: (nat, nat))
    requires p > 0 && c.c != map[] && |Wires(c.a)| == 1 && |Wires(c.b)| == 1
    ensures Means(fs, c, bools, p)
    ensures fs != [] && Lists([app], fs)
  {
    var x :| x in Wires(c.a);
    var y :| y in Wires(c.b);
    assert Wires(c.a) == {x} by { assert |Wires(c.a) - {x}| == 0; }
    assert Wires(c.b) == {y} by { assert |Wires(c.b) - {y}| == 0; }
    var e := LinExpr(c.c, p);
    var a1, a0, b1, b0 := Signed(c.a[x], p), Signed(Coeff(c.a, 0), p), Signed(c.b[y], p), Signed(Coeff(c.b, 0), p);
    MeansAtom(c, x, y, a1, a0, b1, b0, e, bools, p);
    app := (x, y);
    AtomListed(x, y, a1, a0, b1, b0, e);
    fs := [ModZero(AtomExpr(x, y, a1, a0, b1, b0, e))];
  }

  lemma DifferenceMentions(l: Expr, r: Expr, a: (nat, nat))
    ensures Mentions(ModZero(Minus(l, r)), a) <==> Uses(l, a) || Uses(r, a)
  {
    assert Uses(Minus(l, r), a) <==> Uses(l, a) || Uses(r, a);
  }

  lemma NoAtomListed(f: Formula)
    requires AtomFree(f)
    ensures Lists([], [f])
  {
  }

  lemma AtomListed(x: nat, y: nat, a1: int, a0: int, b1: int, b0: int, e: Expr)
    requires Linear(e)
    ensures Lists([(x, y)], [ModZero(AtomExpr(x, y, a1, a0, b1, b0, e))])
  {
    var f := ModZero(AtomExpr(x, y, a1, a0, b1, b0, e));
    var fs := [f];
    assert fs[0] == f;
    forall a ensures Mentions(f, a) <==> a == (x, y) {
      var t1, t2, t3 := Scale(a1 * b1, MulAtom(x, y)), Scale(a1 * b0, Var(x)), Scale(a0 * b1, Var(y));
      assert Uses(t1, a) <==> a == (x, y);
      assert !Uses(t2, a) && !Uses(t3, a);
      assert Uses(Plus(t1, t2), a) <==> a == (x, y);
      assert Uses(Plus(Plus(t1, t2), t3), a) <==> a == (x, y);
      var sum := Plus(Plus(Plus(t1, t2), t3), Lit(a0 * b0));
      assert Uses(sum, a) <==> a == (x, y);
      DifferenceMentions(sum, e, a);
    }
  }

  /** Any other product. */
  method PlainProduct(c: Constraint, bools: set<nat>, p: int) returns (fs: seq<Formula>)
    requires p > 0 && c.c != map[]
    ensures Means(fs, c, bools, p)
    ensures fs != [] && Lists([], fs)
  {
    var ea := LinExpr(c.a, p);
    var eb := LinExpr(c.b, p);
    var ec := LinExpr(c.c, p);
    MeansProduct(c, ea, eb, ec, bools, p);
    forall a ensures !Mentions(ModZero(Minus(Times(ea, eb), ec)), a) { DifferenceMentions(Times(ea, eb), ec, a); }
    NoAtomListed(ModZero(Minus(Times(ea, eb), ec)));
    fs := [ModZero(Minus(Times(ea, eb), ec))];
  }

  /** The body of `encode`'s loop over constraints (encode.py:251-304). */
  method EncodeConstraint(c: Constraint, bools: set<nat>, p: int) returns (fs: seq<Formula>, apps: seq<(nat, nat)>)
    requires IsPrime(p)
    ensures Means(fs, c, bools, p)
    ensures fs == [] <==> Skips(c, bools)
    ensures Lists(apps, fs)
  {
    apps := [];
    if IsConst(c.a) || IsConst(c.b) {
      var (x, y) := if IsConst(c.a) then (c.a, c.b) else (c.b, c.a);
      var l := ScaleMinus(Coeff(x, 0), y, c.c, p);
      var f := LinZero(l, bools, p);
      MeansLinear(f, c, x, y, l, bools, p);
      NoAtomListed(f);
      fs := [f];
    } else if c.c == map[] {
      if Skips(c, bools) {
        fs := [];
      } else {
        var fa := LinZero(c.a, bools, p);
        var fb := LinZero(c.b, bools, p);
        MeansDisjunction(fa, fb, c, bools, p);
        NoAtomListed(Or([fa, fb]));
        fs := [Or([fa, fb])];
      }
    } else if |Wires(c.a)| == 1 && Wires(c.a) <= bools {
      fs := SplitOnBit(c, c.a, c.b, bools, p);
    } else if |Wires(c.b)| == 1 && Wires(c.b) <= bools {
      fs := SplitOnBit(c, c.b, c.a, bools, p);
    } else if |Wires(c.a)| == 1 && |Wires(c.b)| == 1 {
      var app;
      fs, app := AtomProduct(c, bools, p);
      apps := [app];
    } else {
      fs := PlainProduct(c, bools, p);
    }
  }

  // ---- mul_axioms --------------------------------------------------------------------

  /** The range axiom stated for each application of `mul` (encode.py:307-314). */
  ghost predicate MulRange(m: Interp, apps: seq<(nat, nat)>) {
    forall i :: 0 <= i < |apps| ==>
      var (x, y) := apps[i];
      0 <= m.w(x) < U64 && 0 <= m.w(y) < U64 ==> 0 <= m.mul(m.w(x), m.w(y)) <= (U64 - 1) * (U64 - 1)
  }

  /** The integer product satisfies the axiom. */
  lemma ProductInRange(m: Interp, apps: seq<(nat, nat)>)
    requires Multiplies(m)
    ensures MulRange(m, apps)
  {
    forall i | 0 <= i < |apps|
      ensures var (x, y) := apps[i];
              0 <= m.w(x) < U64 && 0 <= m.w(y) < U64 ==> 0 <= m.mul(m.w(x), m.w(y)) <= (U64 - 1) * (U64 - 1)
    {
      var (x, y) := apps[i];
      if 0 <= m.w(x) < U64 && 0 <= m.w(y) < U64 { ProductBound(m.w(x), m.w(y), U64 - 1); }
    }
  }
}

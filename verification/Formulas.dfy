/** The fragment of integer arithmetic the encoder emits, its meaning, and the translation
    of one equation over F_p into a formula over the integers (`lin_zero`). */
module Formulas {
  import opened Arith
  import opened LinComb

  datatype Expr =
    | Lit(n: int)
    | Var(wire: nat)
    | Plus(left: Expr, right: Expr)
    | Minus(left: Expr, right: Expr)
    | Scale(factor: int, arg: Expr)
    | Times(left: Expr, right: Expr)
    | MulAtom(x: nat, y: nat)

  datatype Formula =
    | Truth(value: bool)
    | Equals(e: Expr, n: int)
    | ModZero(e: Expr)
    | Or(fs: seq<Formula>)
    | IfOne(wire: nat, thn: Formula, els: Formula)

  /** A solver's assignment: a value for every wire and a reading of the `mul` symbol. */
  datatype Interp = Interp(w: Witness, mul: (int, int) -> int)

  ghost function Value(e: Expr, m: Interp): int {
    match e
    case Lit(n) => n
    case Var(i) => m.w(i)
    case Plus(l, r) => Value(l, m) + Value(r, m)
    case Minus(l, r) => Value(l, m) - Value(r, m)
    case Scale(c, a) => c * Value(a, m)
    case Times(l, r) => Value(l, m) * Value(r, m)
    case MulAtom(x, y) => m.mul(m.w(x), m.w(y))
  }

  ghost predicate Holds(f: Formula, m: Interp, p: int)
    requires p > 0
  {
    match f
    case Truth(b) => b
    case Equals(e, n) => Value(e, m) == n
    case ModZero(e) => Value(e, m) % p == 0
    case Or(fs) => exists i :: 0 <= i < |fs| && Holds(fs[i], m, p)
    case IfOne(x, thn, els) => if m.w(x) == 1 then Holds(thn, m, p) else Holds(els, m, p)
  }

  ghost predicate HoldAll(fs: seq<Formula>, m: Interp, p: int)
    requires p > 0
  {
    forall i :: 0 <= i < |fs| ==> Holds(fs[i], m, p)
  }

  /** `mul(a.0, a.1)` occurs in the expression. */
  predicate Uses(e: Expr, a: (nat, nat)) {
    match e
    case Lit(_) => false
    case Var(_) => false
    case Plus(l, r) => Uses(l, a) || Uses(r, a)
    case Minus(l, r) => Uses(l, a) || Uses(r, a)
    case Scale(_, arg) => Uses(arg, a)
    case Times(l, r) => Uses(l, a) || Uses(r, a)
    case MulAtom(x, y) => a == (x, y)
  }

  predicate Mentions(f: Formula, a: (nat, nat)) {
    match f
    case Truth(_) => false
    case Equals(e, _) => Uses(e, a)
    case ModZero(e) => Uses(e, a)
    case Or(fs) => exists i :: 0 <= i < |fs| && Mentions(fs[i], a)
    case IfOne(_, thn, els) => Mentions(thn, a) || Mentions(els, a)
  }

  ghost predicate Linear(e: Expr) { forall a :: !Uses(e, a) }

  ghost predicate AtomFree(f: Formula) { forall a :: !Mentions(f, a) }

  /** The listed applications of `mul` are exactly those that occur. */
  ghost predicate Lists(apps: seq<(nat, nat)>, fs: seq<Formula>) {
    forall a :: a in apps <==> exists i :: 0 <= i < |fs| && Mentions(fs[i], a)
  }

  /** Wires are field elements, and the wires marked boolean carry bits. */
  ghost predicate Fits(w: Witness, bools: set<nat>, p: int) {
    IsWitness(w, p) && forall b :: b in bools ==> w(b) == 0 || w(b) == 1
  }

  // ---- signed residues -----------------------------------------------------

  /** `signed`: the representative of least absolute value. */
  function Signed(c: int, p: int): (r: int)
    requires p > 0
    ensures (c - r) % p == 0
    ensures -p < 2 * r <= p
  {
    var m := c % p;
    ModSelf(c, p);
    if m > p / 2 then
      MultipleOf(1, p);
      ModAdd(c - m, p, p);
      m - p
    else m
  }

  /** A linear function on an interval is bounded by its values at the ends. */
  lemma Between(c: int, a: int, b: int, v: int)
    requires a <= v <= b
    ensures Min(c * a, c * b) <= c * v <= Max(c * a, c * b)
  {
    if c >= 0 {
      assert c * (v - a) >= 0 && c * (b - v) >= 0;
    } else {
      assert (-c) * (v - a) >= 0 && (-c) * (b - v) >= 0;
    }
  }

  /** The multiples of `p` in `[lo, hi]` are exactly `p * k` for `k` between the rounded
      quotients `ceil(lo / p)` and `floor(hi / p)`. */
  lemma QuotientRange(v: int, lo: int, hi: int, p: int)
    requires p > 0 && lo <= v <= hi
    ensures v % p == 0 <==> exists k :: -((-lo) / p) <= k <= hi / p && v == p * k
  {
    var kmin, kmax := -((-lo) / p), hi / p;
    if v % p == 0 {
      var k := v / p;
      assert v == p * k;
      assert lo <= p * k <= hi;
      assert -lo == p * ((-lo) / p) + (-lo) % p;
      assert hi == p * kmax + hi % p;
      assert p * (kmin - 1 - k) < 0 by { assert p * kmin == lo + (-lo) % p; assert p * (kmin - 1 - k) == p * kmin - p - p * k; }
      assert p * (k - kmax - 1) < 0 by { assert p * (k - kmax - 1) == p * k - p * kmax - p; }
      NegativeProduct(p, kmin - 1 - k);
      NegativeProduct(p, k - kmax - 1);
      assert kmin <= k <= kmax && v == p * k;
    }
    if k :| kmin <= k <= kmax && v == p * k {
      MultipleOf(k, p);
    }
  }

  // ---- lin_zero --------------------------------------------------------------

  /** The interval the encoder assumes for a wire. */
  function Interval(i: nat, bools: set<nat>, p: int): (int, int) {
    if i in bools then (0, 1) else (0, p - 1)
  }

  /** After the terms in `done`: the expression has the right residue and lies in [lo, hi]. */
  ghost predicate PartialAt(e: Expr, lo: int, hi: int, l: LC, done: set<nat>, bools: set<nat>, m: Interp, p: int)
    requires p > 0
  {
    Fits(m.w, bools, p) ==>
      lo <= Value(e, m) <= hi && (Value(e, m) - (Sum(l, m.w) - Sum(l - done, m.w))) % p == 0
  }

  ghost predicate Partial(e: Expr, lo: int, hi: int, l: LC, done: set<nat>, bools: set<nat>, p: int)
    requires p > 0
  {
    Linear(e) && forall m: Interp :: PartialAt(e, lo, hi, l, done, bools, m, p)
  }

  lemma PartialStart(l: LC, bools: set<nat>, p: int)
    requires p > 0
    ensures Partial(Lit(Signed(Coeff(l, 0), p)), Signed(Coeff(l, 0), p), Signed(Coeff(l, 0), p), l, {0}, bools, p)
  {
    var s := Signed(Coeff(l, 0), p);
    forall m: Interp ensures PartialAt(Lit(s), s, s, l, {0}, bools, m, p) {
      if 0 in l {
        SumRemove(l, 0, m.w);
      } else {
        assert l - {0} == l;
      }
      ModAdd(0, Coeff(l, 0) - s, p);
    }
  }

  lemma StepResidue(v: int, s: int, r: int, r': int, ci: int, c: int, x: int, p: int)
    requires p > 0 && r == ci * x + r'
    requires (v - (s - r)) % p == 0 && (ci - c) % p == 0
    ensures (v + c * x - (s - r')) % p == 0
  {
    ModScale(x, ci - c, p);
    ModAdd(v - (s - r), x * (ci - c), p);
    assert v + c * x - (s - r') == v - (s - r) - x * (ci - c);
  }

  lemma StepBounds(v: int, lo: int, hi: int, c: int, a: int, b: int, x: int)
    requires lo <= v <= hi && a <= x <= b
    ensures lo + Min(c * a, c * b) <= v + c * x <= hi + Max(c * a, c * b)
  {
    Between(c, a, b, x);
  }

  lemma FitsInterval(w: Witness, bools: set<nat>, i: nat, p: int)
    requires Fits(w, bools, p)
    ensures Interval(i, bools, p).0 <= w(i) <= Interval(i, bools, p).1
  {
  }

  lemma PartialStepAt(e: Expr, lo: int, hi: int, l: LC, done: set<nat>, bools: set<nat>, i: nat, c: int, a: int, b: int, m: Interp, p: int)
    requires p > 0 && i in l && i !in done && (l[i] - c) % p == 0 && (a, b) == Interval(i, bools, p)
    requires PartialAt(e, lo, hi, l, done, bools, m, p)
    ensures PartialAt(Plus(e, Scale(c, Var(i))), lo + Min(c * a, c * b), hi + Max(c * a, c * b), l, done + {i}, bools, m, p)
  {
    if Fits(m.w, bools, p) {
      FitsInterval(m.w, bools, i, p);
      StepBounds(Value(e, m), lo, hi, c, a, b, m.w(i));
      SumRest(l, done, i, m.w);
      StepResidue(Value(e, m), Sum(l, m.w), Sum(l - done, m.w), Sum(l - (done + {i}), m.w), l[i], c, m.w(i), p);
      ValueStep(e, c, i, m);
    }
  }

  lemma LinearStep(e: Expr, c: int, i: nat)
    requires Linear(e)
    ensures Linear(Plus(e, Scale(c, Var(i))))
  {
    var t := Scale(c, Var(i));
    forall a ensures !Uses(Plus(e, t), a) { assert !Uses(Var(i), a); assert !Uses(t, a); }
  }

  lemma ValueStep(e: Expr, c: int, i: nat, m: Interp)
    ensures Value(Plus(e, Scale(c, Var(i))), m) == Value(e, m) + c * m.w(i)
  {
    assert Value(Scale(c, Var(i)), m) == c * Value(Var(i), m);
  }

  lemma PartialStep(e: Expr, lo: int, hi: int, l: LC, done: set<nat>, bools: set<nat>, i: nat, p: int)
    requires p > 0 && i in l && i !in done
    requires Partial(e, lo, hi, l, done, bools, p)
    ensures var c := Signed(l[i], p);
            var (a, b) := Interval(i, bools, p);
            Partial(Plus(e, Scale(c, Var(i))), lo + Min(c * a, c * b), hi + Max(c * a, c * b), l, done + {i}, bools, p)
  {
    var c := Signed(l[i], p);
    var (a, b) := Interval(i, bools, p);
    var e', lo', hi', done' := Plus(e, Scale(c, Var(i))), lo + Min(c * a, c * b), hi + Max(c * a, c * b), done + {i};
    LinearStep(e, c, i);
    forall m: Interp ensures PartialAt(e', lo', hi', l, done', bools, m, p) {
      assert PartialAt(e, lo, hi, l, done, bools, m, p);
      PartialStepAt(e, lo, hi, l, done, bools, i, c, a, b, m, p);
    }
  }

  /** The formula says that the combination is zero in F_p, for every fitting assignment. */
  ghost predicate Exact(f: Formula, l: LC, bools: set<nat>, p: int)
    requires p > 0
  {
    forall m: Interp :: ExactAt(f, l, bools, m, p)
  }

  ghost predicate ExactAt(f: Formula, l: LC, bools: set<nat>, m: Interp, p: int)
    requires p > 0
  {
    Fits(m.w, bools, p) ==> (Holds(f, m, p) <==> Zero(l, m.w, p))
  }

  /** `lin_zero` (encode.py:214-233). */
  method LinZero(l: LC, bools: set<nat>, p: int) returns (f: Formula)
    requires p > 0
    ensures Exact(f, l, bools, p) && AtomFree(f)
  {
    if l == map[] {
      return Truth(true);
    }
    var lo := Signed(Coeff(l, 0), p);
    var hi := lo;
    var e := Lit(lo);
    var done: set<nat> := {0};
    PartialStart(l, bools, p);
    while l.Keys - done != {}
      invariant 0 in done && done <= l.Keys + {0}
      invariant Partial(e, lo, hi, l, done, bools, p)
      decreases l.Keys - done
    {
      var i :| i in l.Keys - done;
      PartialStep(e, lo, hi, l, done, bools, i, p);
      var c := Signed(l[i], p);
      var (a, b) := Interval(i, bools, p);
      lo, hi := lo + Min(c * a, c * b), hi + Max(c * a, c * b);
      e := Plus(e, Scale(c, Var(i)));
      done := done + {i};
    }
    LinZeroExact(e, lo, hi, l, done, bools, p);
    f := IsMultiple(e, lo, hi, p);
  }

  /** The three output shapes of `lin_zero` for an expression known to lie in [lo, hi]. */
  function IsMultiple(e: Expr, lo: int, hi: int, p: int): Formula
    requires p > 0
  {
    var kmin, kmax := -((-lo) / p), hi / p;
    if kmin > kmax then Truth(false)
    else if kmax - kmin <= 3 then
      if kmax > kmin then Or(EqualToMultiples(e, kmin, kmax, p)) else Equals(e, p * kmin)
    else ModZero(e)
  }

  /** `[e == P * k for k in range(kmin, kmax + 1)]`. */
  function EqualToMultiples(e: Expr, kmin: int, kmax: int, p: int): (fs: seq<Formula>)
    requires kmin <= kmax + 1
    ensures |fs| == kmax + 1 - kmin
    ensures forall i :: 0 <= i < |fs| ==> fs[i] == Equals(e, p * (kmin + i))
  {
    seq(kmax + 1 - kmin, i => Equals(e, p * (kmin + i)))
  }

  lemma IsMultipleAtomFree(e: Expr, lo: int, hi: int, p: int)
    requires p > 0 && Linear(e)
    ensures AtomFree(IsMultiple(e, lo, hi, p))
  {
  }

  lemma LinZeroExact(e: Expr, lo: int, hi: int, l: LC, done: set<nat>, bools: set<nat>, p: int)
    requires p > 0 && l.Keys <= done
    requires Partial(e, lo, hi, l, done, bools, p)
    ensures Exact(IsMultiple(e, lo, hi, p), l, bools, p) && AtomFree(IsMultiple(e, lo, hi, p))
  {
    IsMultipleAtomFree(e, lo, hi, p);
    var f := IsMultiple(e, lo, hi, p);
    forall m: Interp ensures ExactAt(f, l, bools, m, p) {
      assert PartialAt(e, lo, hi, l, done, bools, m, p);
      if Fits(m.w, bools, p) {
        assert l - done == map[];
        ModShift(Value(e, m), Sum(l, m.w), p);
        IsMultipleHolds(e, lo, hi, m, p);
      }
    }
  }

  /** Whichever shape is chosen, it means "a multiple of p". */
  lemma IsMultipleHolds(e: Expr, lo: int, hi: int, m: Interp, p: int)
    requires p > 0 && lo <= Value(e, m) <= hi
    ensures Holds(IsMultiple(e, lo, hi, p), m, p) <==> Value(e, m) % p == 0
  {
    var kmin, kmax := -((-lo) / p), hi / p;
    QuotientRange(Value(e, m), lo, hi, p);
    if kmin < kmax <= kmin + 3 {
      var fs := EqualToMultiples(e, kmin, kmax, p);
      if Value(e, m) % p == 0 {
        var k :| kmin <= k <= kmax && Value(e, m) == p * k;
        assert fs[k - kmin] == Equals(e, p * k);
        assert Holds(fs[k - kmin], m, p);
      }
      if Holds(Or(fs), m, p) {
        var i :| 0 <= i < |fs| && Holds(fs[i], m, p);
        assert kmin <= kmin + i <= kmax && Value(e, m) == p * (kmin + i);
      }
    }
  }
}

/** What the encoder loses: the guard that is meant to leave out booleanity constraints also
    leaves out any other product of two factors over one boolean wire. */
module SkipGuard {
  import opened Arith
  import opened LinComb
  import opened Formulas
  import opened Classes
  import opened Encoding
  import opened Encoder
  import opened Wrappers

  /** The value of `l` when its one wire `v` carries `x`. */
  function At(l: LC, v: nat, x: int): int { Coeff(l, v) * x + Coeff(l, 0) }

  /** Carrying `x` on `v` satisfies the product, read off the coefficients. */
  predicate Vanishes(c: Constraint, v: nat, x: int, p: int)
    requires p > 0
  {
    (At(c.a, v, x) * At(c.b, v, x)) % p == 0
  }

  /** Both bits satisfy the product: leaving it out loses nothing. */
  predicate Harmless(c: Constraint, p: int)
    requires p > 0
  {
    forall v :: v in Wires(c.a) ==> Vanishes(c, v, 0, p) && Vanishes(c, v, 1, p)
  }

  ghost predicate VanishesUnder(c: Constraint, w: Witness, p: int)
    requires p > 0
  {
    forall v :: v in Wires(c.a) ==> Vanishes(c, v, w(v), p)
  }

  /** A skipped constraint says no more than its coefficients do. */
  lemma SkippedSat(c: Constraint, bools: set<nat>, w: Witness, p: int)
    requires p > 0 && w(0) == 1 && Skips(c, bools)
    ensures Sat(c, w, p) <==> VanishesUnder(c, w, p)
  {
    var v :| v in Wires(c.a);
    SingletonSet(Wires(c.a), v);
    SumSingle(c.a, v, w);
    SumSingle(c.b, v, w);
    assert v in Wires(c.b);
    SatProduct(c, w, p);
  }

  /** `v` carries `x`, every other wire 0. */
  function Only(v: nat, x: int): (w: Witness)
    requires v != 0
    ensures w(0) == 1 && w(v) == x
  {
    i => if i == 0 then 1 else if i == v then x else 0
  }

  ghost predicate SatIfFits(c: Constraint, bools: set<nat>, w: Witness, p: int)
    requires p > 0
  {
    Fits(w, bools, p) ==> Sat(c, w, p)
  }

  lemma BothBits(c: Constraint, v: nat, p: int)
    requires p > 0 && Wires(c.a) == {v} && Vanishes(c, v, 0, p) && Vanishes(c, v, 1, p)
    ensures Harmless(c, p)
  {
  }

  lemma OnlyFits(v: nat, x: int, bools: set<nat>, p: int)
    requires p >= 2 && v != 0 && (x == 0 || x == 1)
    ensures Fits(Only(v, x), bools, p)
  {
  }

  lemma SatShows(c: Constraint, bools: set<nat>, w: Witness, v: nat, p: int)
    requires p > 0 && Skips(c, bools) && w(0) == 1 && v in Wires(c.a) && Sat(c, w, p)
    ensures Vanishes(c, v, w(v), p)
  {
    SkippedSat(c, bools, w, p);
  }

  lemma HarmlessSat(c: Constraint, bools: set<nat>, w: Witness, p: int)
    requires p >= 2 && Skips(c, bools) && Harmless(c, p)
    ensures SatIfFits(c, bools, w, p)
  {
    if Fits(w, bools, p) { SkippedSat(c, bools, w, p); }
  }

  /** A skipped constraint is implied by the bits exactly when its coefficients say so. */
  lemma HarmlessExactly(c: Constraint, bools: set<nat>, p: int)
    requires p >= 2 && Skips(c, bools)
    ensures (forall w: Witness :: SatIfFits(c, bools, w, p)) <==> Harmless(c, p)
  {
    var v :| v in Wires(c.a);
    SingletonSet(Wires(c.a), v);
    if forall w: Witness :: SatIfFits(c, bools, w, p) {
      forall x | x == 0 || x == 1 ensures Vanishes(c, v, x, p) {
        OnlyFits(v, x, bools, p);
        assert SatIfFits(c, bools, Only(v, x), p);
        SatShows(c, bools, Only(v, x), v, p);
      }
      BothBits(c, v, p);
    }
    if Harmless(c, p) {
      forall w: Witness ensures SatIfFits(c, bools, w, p) { HarmlessSat(c, bools, w, p); }
    }
  }

  /** Among normalised products over one wire, the harmless ones are exactly those the encoder
      recognises as booleanity: neither pattern is wider or narrower than it should be. */
  lemma HarmlessIsBit(c: Constraint, v: nat, p: int)
    requires IsPrime(p) && Normal(c.a, p) && Normal(c.b, p) && c.c == map[] && v != 0
    requires Wires(c.a) == {v} && Wires(c.b) == {v}
    ensures Harmless(c, p) <==> IsBitConstraint(c, v, p)
  {
    assert v in Wires(c.a) && v in Wires(c.b);
    NormalNonzero(c.a, v, p);
    NormalNonzero(c.b, v, p);
    NormalCoefficient(c.a, 0, p);
    NormalCoefficient(c.b, 0, p);
    BitsOfProduct(c.a[v], Coeff(c.a, 0), c.b[v], Coeff(c.b, 0), p);
    assert At(c.a, v, 0) == Coeff(c.a, 0) && At(c.b, v, 0) == Coeff(c.b, 0);
  }

  lemma BitsOfProduct(a1: int, a0: int, b1: int, b0: int, p: int)
    requires IsPrime(p) && a1 % p != 0 && b1 % p != 0 && 0 <= a0 < p && 0 <= b0 < p
    ensures (a0 * b0) % p == 0 && ((a1 + a0) * (b1 + b0)) % p == 0 <==> (a0 == 0 && (b1 + b0) % p == 0) || (b0 == 0 && (a1 + a0) % p == 0)
  {
    Euclid(a0, b0, p);
    Euclid(a1 + a0, b1 + b0, p);
    DivModUnique(a0, 0, a0, p);
    DivModUnique(b0, 0, b0, p);
  }

  // ---- whole encodings ---------------------------------------------------------

  /** What the formulas leave open, assignment by assignment. */
  lemma EncodingExact(fs: seq<Formula>, cs: seq<Constraint>, bools: set<nat>, contradiction: bool, m: Interp, p: int)
    requires p > 0 && Encodes(fs, cs, bools, contradiction, p)
    requires IsWitness(m.w, p) && Multiplies(m) && HoldAll(fs, m, p)
    ensures SatAll(cs, m.w, p) <==> forall i :: 0 <= i < |cs| && Skips(cs[i], bools) ==> VanishesUnder(cs[i], m.w, p)
  {
    assert EncodesAt(fs, cs, bools, contradiction, m, p);
    forall i | 0 <= i < |cs| && Skips(cs[i], bools)
      ensures Sat(cs[i], m.w, p) <==> VanishesUnder(cs[i], m.w, p)
    {
      SkippedSat(cs[i], bools, m.w, p);
    }
    if forall i :: 0 <= i < |cs| && Skips(cs[i], bools) ==> VanishesUnder(cs[i], m.w, p) {
      forall i | 0 <= i < |cs| ensures Sat(cs[i], m.w, p) { assert Met(cs[i], bools, m.w, p); }
    }
  }

  /** Every assignment the formulas admit satisfies the encoded constraints. */
  ghost predicate Complete(fs: seq<Formula>, cs: seq<Constraint>, p: int)
    requires p > 0
  {
    forall m: Interp :: CompleteAt(fs, cs, m, p)
  }

  ghost predicate CompleteAt(fs: seq<Formula>, cs: seq<Constraint>, m: Interp, p: int)
    requires p > 0
  {
    IsWitness(m.w, p) && Multiplies(m) && HoldAll(fs, m, p) ==> SatAll(cs, m.w, p)
  }

  /** A slice whose skipped constraints are all harmless is encoded without loss. */
  lemma EncodingComplete(fs: seq<Formula>, norm: seq<Sourced>, support: Option<set<nat>>, bools: set<nat>, contradiction: bool, p: int)
    requires p > 0 && Encodes(fs, Kept(norm, support), bools, contradiction, p)
    requires var cs := Kept(norm, support); forall i :: 0 <= i < |cs| && Skips(cs[i], bools) ==> Harmless(cs[i], p)
    ensures Complete(fs, Kept(norm, support), p)
  {
    var cs := Kept(norm, support);
    forall m: Interp ensures CompleteAt(fs, cs, m, p) {
      assert EncodesAt(fs, cs, bools, contradiction, m, p);
      if IsWitness(m.w, p) && Multiplies(m) && HoldAll(fs, m, p) {
        forall i | 0 <= i < |cs| && Skips(cs[i], bools) ensures VanishesUnder(cs[i], m.w, p) {
          assert Harmless(cs[i], p);
          assert Wires(cs[i].a) <= bools;
        }
        EncodingExact(fs, cs, bools, contradiction, m, p);
      }
    }
  }

  /** A bit constraint and a skipped constraint on the same wire. */
  ghost predicate BitAndSkipped(bit: Constraint, c: Constraint, v: nat, bools: set<nat>, p: int)
    requires p > 0
  {
    && Normal(bit.a, p) && Normal(bit.b, p) && IsBitConstraint(bit, v, p)
    && Skips(c, bools) && v in Wires(c.a)
    && forall u :: u in bools <==> IsBit([bit, c], u, p)
  }

  lemma BitWire(c: Constraint, v: nat, p: int)
    requires p > 0 && IsBitConstraint(c, v, p)
    ensures Wires(c.a) == {v}
  {
  }

  lemma OnlyBool(bit: Constraint, c: Constraint, v: nat, bools: set<nat>, p: int)
    requires p > 0 && BitAndSkipped(bit, c, v, bools, p)
    ensures bools == {v} && Wires(c.a) == {v}
  {
    var cs := [bit, c];
    SingletonSet(Wires(c.a), v);
    BitWire(bit, v, p);
    assert IsBitConstraint(cs[0], v, p) && IsBit(cs, v, p);
    forall u | IsBit(cs, u, p) ensures u == v {
      var i :| 0 <= i < |cs| && IsBitConstraint(cs[i], u, p);
      BitWire(cs[i], u, p);
      assert i == 0 || i == 1;
      assert u in {u};
    }
  }

  lemma PairSat(x: Constraint, y: Constraint, w: Witness, p: int)
    requires p > 0
    ensures SatAll([x, y], w, p) <==> Sat(x, w, p) && Sat(y, w, p)
  {
    var cs := [x, y];
    if SatAll(cs, w, p) { assert Sat(cs[0], w, p) && Sat(cs[1], w, p); }
  }

  lemma PairMet(x: Constraint, y: Constraint, bools: set<nat>, w: Witness, p: int)
    requires p > 0 && (Skips(x, bools) || Sat(x, w, p)) && Skips(y, bools)
    ensures AllMet([x, y], bools, w, p)
  {
  }

  /** Encoded together, they admit every bit, and satisfy the second where it vanishes. */
  lemma PairEncoded(fs: seq<Formula>, bit: Constraint, c: Constraint, v: nat, bools: set<nat>, m: Interp, p: int)
    requires IsPrime(p) && BitAndSkipped(bit, c, v, bools, p) && Encodes(fs, [bit, c], bools, false, p)
    requires IsWitness(m.w, p) && Multiplies(m)
    ensures HoldAll(fs, m, p) <==> m.w(v) == 0 || m.w(v) == 1
    ensures HoldAll(fs, m, p) ==> (SatAll([bit, c], m.w, p) <==> Vanishes(c, v, m.w(v), p))
  {
    OnlyBool(bit, c, v, bools, p);
    assert EncodesAt(fs, [bit, c], bools, false, m, p);
    BitConstraint(bit, v, m.w, p);
    SkippedSat(c, bools, m.w, p);
    PairSat(bit, c, m.w, p);
    if m.w(v) == 0 || m.w(v) == 1 { PairMet(bit, c, bools, m.w, p); }
  }

  lemma CompleteNeeds(fs: seq<Formula>, bit: Constraint, c: Constraint, v: nat, bools: set<nat>, m: Interp, p: int)
    requires IsPrime(p) && BitAndSkipped(bit, c, v, bools, p) && Encodes(fs, [bit, c], bools, false, p)
    requires IsWitness(m.w, p) && Multiplies(m) && (m.w(v) == 0 || m.w(v) == 1) && CompleteAt(fs, [bit, c], m, p)
    ensures Vanishes(c, v, m.w(v), p)
  {
    PairEncoded(fs, bit, c, v, bools, m, p);
  }

  lemma CompleteIsHarmless(fs: seq<Formula>, bit: Constraint, c: Constraint, v: nat, bools: set<nat>, p: int)
    requires IsPrime(p) && BitAndSkipped(bit, c, v, bools, p) && Encodes(fs, [bit, c], bools, false, p)
    requires Complete(fs, [bit, c], p)
    ensures Harmless(c, p)
  {
    OnlyBool(bit, c, v, bools, p);
    forall x | x == 0 || x == 1 ensures Vanishes(c, v, x, p) {
      OnlyFits(v, x, bools, p);
      assert CompleteAt(fs, [bit, c], IntegerReading(Only(v, x)), p);
      CompleteNeeds(fs, bit, c, v, bools, IntegerReading(Only(v, x)), p);
    }
    BothBits(c, v, p);
  }

  lemma HarmlessIsComplete(fs: seq<Formula>, bit: Constraint, c: Constraint, v: nat, bools: set<nat>, m: Interp, p: int)
    requires IsPrime(p) && BitAndSkipped(bit, c, v, bools, p) && Encodes(fs, [bit, c], bools, false, p)
    requires Harmless(c, p)
    ensures CompleteAt(fs, [bit, c], m, p)
  {
    if IsWitness(m.w, p) && Multiplies(m) { PairEncoded(fs, bit, c, v, bools, m, p); }
  }

  /** Put together: if no harmful constraint is skipped, the solutions of the original system
      are exactly the assignments that respect the classes and satisfy the formulas. */
  lemma SolutionsExactly(cs: seq<Constraint>, norm: seq<Sourced>, bools: set<nat>, contradiction: bool,
                         rep: map<nat, nat>, fixed: map<nat, int>, fs: seq<Formula>, w: Witness, p: int)
    requires IsPrime(p) && Encoded(cs, norm, None, bools, contradiction, rep, fixed, fs, p) && IsWitness(w, p)
    requires forall i :: 0 <= i < |norm| && Skips(norm[i].con, bools) ==> Harmless(norm[i].con, p)
    ensures SatAll(cs, w, p) <==> Respects(w, rep, fixed) && HoldAll(fs, IntegerReading(w), p)
  {
    var m := IntegerReading(w);
    KeptAll(norm);
    if SatAll(cs, w, p) { SolutionFits(cs, norm, None, bools, contradiction, rep, fixed, fs, m, p); }
    if Respects(w, rep, fixed) && HoldAll(fs, m, p) {
      EncodingComplete(fs, norm, None, bools, contradiction, p);
      assert CompleteAt(fs, Kept(norm, None), m, p);
      assert EncodesAt(fs, Kept(norm, None), bools, contradiction, m, p);
      assert EquivalentAt(cs, Constraints(norm), contradiction, rep, fixed, w, p);
    }
  }

  /** The condition cannot be weakened constraint by constraint: next to the booleanity of its
      wire, a skipped constraint survives the encoding exactly when it is harmless. */
  lemma CompleteExactly(fs: seq<Formula>, bit: Constraint, c: Constraint, v: nat, bools: set<nat>, p: int)
    requires IsPrime(p) && BitAndSkipped(bit, c, v, bools, p) && Encodes(fs, [bit, c], bools, false, p)
    ensures Complete(fs, [bit, c], p) <==> Harmless(c, p)
  {
    var cs := [bit, c];
    if Complete(fs, cs, p) { CompleteIsHarmless(fs, bit, c, v, bools, p); }
    if Harmless(c, p) {
      forall m: Interp ensures CompleteAt(fs, cs, m, p) { HarmlessIsComplete(fs, bit, c, v, bools, m, p); }
    }
  }

  /** `v * (v - 1) = 0` and `v * (v + 1) = 0`: the bit, and that it is not 1. */
  function Booleanity(v: nat, p: int): Constraint { R1C(map[v := 1], map[v := 1, 0 := p - 1], map[]) }

  function NotOne(v: nat): Constraint { R1C(map[v := 1], map[v := 1, 0 := 1], map[]) }

  lemma ExampleFacts(v: nat, p: int)
    requires IsPrime(p) && p > 2 && v != 0
    ensures var bit, c := Booleanity(v, p), NotOne(v);
            && AllSettled([bit, c], p) && BitAndSkipped(bit, c, v, {v}, p) && !Vanishes(c, v, 1, p)
  {
    var bit, c := Booleanity(v, p), NotOne(v);
    assert Wires(bit.a) == {v} && Wires(bit.b) == {v} && Wires(c.a) == {v} && Wires(c.b) == {v};
    MultipleOf(1, p);
    DivModUnique(2, 0, 2, p);
    assert IsBitConstraint(bit, v, p);
    assert At(c.a, v, 1) == 1 && At(c.b, v, 1) == 2;
    var cs := [bit, c];
    assert IsBitConstraint(cs[0], v, p);
    forall u | IsBit(cs, u, p) ensures u == v {
      var i :| 0 <= i < |cs| && IsBitConstraint(cs[i], u, p);
      assert i == 0 || i == 1;
      assert u in {u};
    }
  }

  lemma KeptPair(norm: seq<Sourced>)
    requires |norm| == 2
    ensures Kept(norm, None) == [norm[0].con, norm[1].con]
  {
    assert Kept(norm[..0], None) == [];
    assert norm[..1][..0] == norm[..0];
    assert Kept(norm[..1], None) == [norm[0].con];
  }

  lemma ExampleLoses(fs: seq<Formula>, norm: seq<Sourced>, bools: set<nat>, v: nat, p: int)
    requires IsPrime(p) && p > 2 && v != 0 && Verbatim(norm, [Booleanity(v, p), NotOne(v)], 2)
    requires (forall u :: u in bools <==> IsBit(Kept(norm, None), u, p)) && Encodes(fs, Kept(norm, None), bools, false, p)
    ensures HoldAll(fs, IntegerReading(Only(v, 1)), p)
    ensures IsWitness(Only(v, 1), p) && !SatAll([Booleanity(v, p), NotOne(v)], Only(v, 1), p)
  {
    KeptPair(norm);
    ExampleFacts(v, p);
    PairEncoded(fs, Booleanity(v, p), NotOne(v), v, bools, IntegerReading(Only(v, 1)), p);
  }

  /** Run through the compiler, the second equation is lost: the formulas admit v = 1, an
      assignment that respects the classes. */
  method SkipLosesConstraint(v: nat, p: int) returns (fs: seq<Formula>, apps: seq<(nat, nat)>, ghost rep: map<nat, nat>, ghost fixed: map<nat, int>)
    requires IsPrime(p) && p > 2 && v != 0
    ensures Respects(Only(v, 1), rep, fixed)
    ensures HoldAll(fs, IntegerReading(Only(v, 1)), p)
    ensures IsWitness(Only(v, 1), p) && !SatAll([Booleanity(v, p), NotOne(v)], Only(v, 1), p)
  {
    ExampleFacts(v, p);
    var model := new Model.Build(p, [Booleanity(v, p), NotOne(v)]);
    fs, apps := model.Encode(None);
    rep, fixed := model.rep, model.fixed;
    ExampleLoses(fs, model.normAll, model.boolWires, v, p);
  }
}

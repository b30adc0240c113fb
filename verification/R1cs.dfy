/** The witness checker of the differential tests: what it means to satisfy a system. */
module R1cs {
  import opened Arith
  import opened LinComb

  /** `lc_eval` (differential.py:44-45). */
  method LcEval(l: LC, w: Witness, p: int) returns (r: int)
    requires p > 0
    ensures r == Sum(l, w) % p
  {
    var total := 0;
    var done: set<nat> := {};
    assert l - done == l;
    while done != l.Keys
      invariant done <= l.Keys && total + Sum(l - done, w) == Sum(l, w)
      decreases l.Keys - done
    {
      var i :| i in l.Keys && i !in done;
      SumRest(l, done, i, w);
      total := total + l[i] * w(i);
      done := done + {i};
    }
    assert l - done == map[];
    r := total % p;
  }

  lemma ResidueProduct(a: int, b: int, c: int, p: int)
    requires p > 0
    ensures ((a % p) * (b % p) - c % p) % p == 0 <==> (a * b - c) % p == 0
  {
    ModSelf(a, p);
    ModSelf(b, p);
    ModSelf(c, p);
    ModProduct(a, a % p, b, b % p, p);
    ModAdd(a * b - (a % p) * (b % p), c - c % p, p);
    ModShift(a * b - c, (a % p) * (b % p) - c % p, p);
  }

  method Violated(c: Constraint, w: Witness, p: int) returns (bad: bool)
    requires p > 0
    ensures bad <==> !Sat(c, w, p)
  {
    var a := LcEval(c.a, w, p);
    var b := LcEval(c.b, w, p);
    var z := LcEval(c.c, w, p);
    ResidueProduct(Sum(c.a, w), Sum(c.b, w), Sum(c.c, w), p);
    bad := (a * b - z) % p != 0;
  }

  ghost function Violations(cs: seq<Constraint>, w: Witness, p: int): nat
    requires p > 0
  {
    if cs == [] then 0
    else Violations(cs[..|cs| - 1], w, p) + (if Sat(cs[|cs| - 1], w, p) then 0 else 1)
  }

  lemma {:induction false} NoViolations(cs: seq<Constraint>, w: Witness, p: int)
    requires p > 0
    ensures Violations(cs, w, p) == 0 <==> SatAll(cs, w, p)
  {
    if cs != [] {
      var n := |cs| - 1;
      NoViolations(cs[..n], w, p);
      assert SatAll(cs, w, p) <==> SatAll(cs[..n], w, p) && Sat(cs[n], w, p) by {
        if SatAll(cs[..n], w, p) && Sat(cs[n], w, p) {
          forall i | 0 <= i < |cs| ensures Sat(cs[i], w, p) {
            if i < n { assert Sat(cs[..n][i], w, p); }
          }
        }
      }
    }
  }

  /** `r1cs_ok` (differential.py:48-53): the number of violated constraints, zero exactly for
      the witnesses of the system. */
  method R1csOk(cs: seq<Constraint>, w: Witness, p: int) returns (bad: nat)
    requires p > 0
    ensures bad == Violations(cs, w, p)
    ensures bad == 0 <==> SatAll(cs, w, p)
  {
    bad := 0;
    var n := 0;
    while n < |cs|
      invariant n <= |cs| && bad == Violations(cs[..n], w, p)
    {
      var violated := Violated(cs[n], w, p);
      if violated { bad := bad + 1; }
      assert cs[..n + 1][..n] == cs[..n];
      n := n + 1;
    }
    assert cs[..n] == cs;
    NoViolations(cs, w, p);
  }
}

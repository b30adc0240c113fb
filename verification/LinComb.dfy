/** Linear combinations of wires and rank-1 constraints over F_p.

    A combination is the tools' dictionary wire -> coefficient; wire 0 is the constant
    wire, whose value is 1 in every witness. */
module LinComb {
  import opened Arith

  type LC = map<nat, int>
  datatype Constraint = R1C(a: LC, b: LC, c: LC)

  /** A witness assigns a value to every wire. */
  type Witness = nat -> int

  /** Values are field elements and the constant wire carries 1. */
  ghost predicate IsWitness(w: Witness, p: int) {
    w(0) == 1 && forall i: nat :: 0 <= w(i) < p
  }

  /** The integer value of a combination, before reduction. */
  ghost function Sum(l: LC, w: Witness): int {
    if l == map[] then 0
    else
      var k :| k in l;
      l[k] * w(k) + Sum(l - {k}, w)
  }

  ghost predicate Zero(l: LC, w: Witness, p: int)
    requires p > 0
  {
    Sum(l, w) % p == 0
  }

  /** R1CS satisfaction of one constraint: A*B - C is a multiple of the prime. */
  ghost predicate Sat(c: Constraint, w: Witness, p: int)
    requires p > 0
  {
    (Sum(c.a, w) * Sum(c.b, w) - Sum(c.c, w)) % p == 0
  }

  ghost predicate SatAll(cs: seq<Constraint>, w: Witness, p: int)
    requires p > 0
  {
    forall i :: 0 <= i < |cs| ==> Sat(cs[i], w, p)
  }

  function Coeff(l: LC, k: nat): int { if k in l then l[k] else 0 }

  predicate IsConst(l: LC) { forall k :: k in l ==> k == 0 }

  /** The wires of a combination, without the constant one. */
  function Wires(l: LC): (s: set<nat>)
    ensures forall k :: k in s <==> k in l && k != 0
  {
    l.Keys - {0}
  }

  function AllWires(c: Constraint): set<nat> { Wires(c.a) + Wires(c.b) + Wires(c.c) }

  function UnionWires(cs: seq<Constraint>): set<nat> {
    if cs == [] then {} else AllWires(cs[0]) + UnionWires(cs[1..])
  }

  lemma {:induction false} UnionWiresCovers(cs: seq<Constraint>)
    ensures 0 !in UnionWires(cs)
    ensures forall i :: 0 <= i < |cs| ==> AllWires(cs[i]) <= UnionWires(cs)
  {
    if cs != [] { UnionWiresCovers(cs[1..]); }
  }

  predicate Normal(l: LC, p: int) { forall k :: k in l ==> 0 < l[k] < p }

  // ---- summation ----------------------------------------------------------

  /** The sum does not depend on the order in which terms are taken. */
  lemma {:induction false} SumRemove(l: LC, k: nat, w: Witness)
    requires k in l
    ensures Sum(l, w) == l[k] * w(k) + Sum(l - {k}, w)
    decreases |l|
  {
    var j :| j in l && Sum(l, w) == l[j] * w(j) + Sum(l - {j}, w);
    if j != k {
      SumRemove(l - {j}, k, w);
      SumRemove(l - {k}, j, w);
      assert l - {j} - {k} == l - {k} - {j};
    }
  }

  lemma SumPut(l: LC, k: nat, c: int, w: Witness)
    ensures Sum(l[k := c], w) == Sum(l, w) + (c - Coeff(l, k)) * w(k)
  {
    SumRemove(l[k := c], k, w);
    assert l[k := c] - {k} == l - {k};
    if k in l {
      SumRemove(l, k, w);
      assert c * w(k) == l[k] * w(k) + (c - l[k]) * w(k);
    } else {
      assert l - {k} == l;
    }
  }

  /** A combination over the constant wire alone has a known value. */
  lemma SumConst(l: LC, w: Witness)
    requires IsConst(l) && w(0) == 1
    ensures Sum(l, w) == Coeff(l, 0)
  {
    if 0 in l {
      SumRemove(l, 0, w);
      assert l - {0} == map[];
    } else {
      assert l == map[];
    }
  }

  /** One wire and possibly a constant. */
  lemma SumSingle(l: LC, x: nat, w: Witness)
    requires Wires(l) == {x} && w(0) == 1
    ensures Sum(l, w) == l[x] * w(x) + Coeff(l, 0)
  {
    assert x in Wires(l);
    SumRemove(l, x, w);
    assert forall k :: k in l - {x} && k != 0 ==> k in Wires(l);
    SumConst(l - {x}, w);
  }

  /** Two wires and possibly a constant. */
  lemma SumDouble(l: LC, x: nat, y: nat, w: Witness)
    requires Wires(l) == {x, y} && x != y && w(0) == 1
    ensures Sum(l, w) == l[x] * w(x) + l[y] * w(y) + Coeff(l, 0)
  {
    assert x in Wires(l) && y in Wires(l);
    SumRemove(l, x, w);
    assert Wires(l - {x}) == {y};
    SumSingle(l - {x}, y, w);
  }

  /** `{w: c for w, c in l.items() if c % P}`, the coefficients already being residues. */
  function DropZeros(l: LC): (r: LC)
    ensures forall k :: k in r <==> k in l && l[k] != 0
    ensures forall k :: k in r ==> r[k] == l[k]
  {
    map k | k in l && l[k] != 0 :: l[k]
  }

  lemma {:induction false} SumDropZeros(l: LC, w: Witness)
    ensures Sum(DropZeros(l), w) == Sum(l, w)
    decreases |l|
  {
    if l == map[] {
      assert DropZeros(l) == map[];
    } else {
      var k :| k in l;
      SumRemove(l, k, w);
      SumDropZeros(l - {k}, w);
      DropZerosRemove(l, k);
      if l[k] != 0 { SumRemove(DropZeros(l), k, w); }
    }
  }

  lemma DropZerosRemove(l: LC, k: nat)
    requires k in l
    ensures DropZeros(l - {k}) == DropZeros(l) - {k}
    ensures l[k] == 0 ==> DropZeros(l) - {k} == DropZeros(l)
  {
  }

  lemma SingletonSet(s: set<nat>, x: nat)
    requires |s| == 1 && x in s
    ensures s == {x}
  {
    assert |s - {x}| == 0;
  }

  /** The part of `l` not yet visited by a loop. */
  lemma SumRest(l: LC, done: set<nat>, k: nat, w: Witness)
    requires k in l && k !in done
    ensures Sum(l - done, w) == l[k] * w(k) + Sum(l - (done + {k}), w)
  {
    SumRemove(l - done, k, w);
    assert l - done - {k} == l - (done + {k});
  }

  // ---- the dictionary-merging loop ----------------------------------------

  /** Adding `c` to entry `k` with reduction changes the value by `c * w(k)`. */
  lemma SumAccumulate(l: LC, k: nat, c: int, w: Witness, p: int)
    requires p > 0
    ensures (Sum(l[k := (Coeff(l, k) + c) % p], w) - Sum(l, w) - c * w(k)) % p == 0
  {
    var c' := (Coeff(l, k) + c) % p;
    SumPut(l, k, c', w);
    ReducedTerm(Coeff(l, k), c, c', w(k), p);
  }

  lemma ReducedTerm(before: int, c: int, after: int, x: int, p: int)
    requires p > 0 && after == (before + c) % p
    ensures ((after - before) * x - c * x) % p == 0
  {
    ModSelf(before + c, p);
    ModScale(-x, before + c - after, p);
    assert -x * (before + c - after) == (after - before) * x - c * x;
  }

  /** `acc` is `start` plus `k` times the terms of `y` visited so far. */
  ghost predicate Accumulated(acc: LC, start: LC, k: int, y: LC, done: set<nat>, p: int)
    requires p > 0
  {
    forall w: Witness :: AccumulatedAt(acc, start, k, y, done, w, p)
  }

  ghost predicate AccumulatedAt(acc: LC, start: LC, k: int, y: LC, done: set<nat>, w: Witness, p: int)
    requires p > 0
  {
    (Sum(acc, w) - Sum(start, w) - k * (Sum(y, w) - Sum(y - done, w))) % p == 0
  }

  lemma AccumulateArith(n: int, a: int, s0: int, k: int, s: int, t: int, u: int, c: int, v: int, p: int)
    requires p > 0 && t == c * v + u
    requires (n - a - (k * c) * v) % p == 0 && (a - s0 - k * (s - t)) % p == 0
    ensures (n - s0 - k * (s - u)) % p == 0
  {
    ModAdd(n - a - (k * c) * v, a - s0 - k * (s - t), p);
    assert k * (s - u) == k * (s - t) + (k * c) * v;
  }

  lemma AccumulateAt(acc: LC, start: LC, k: int, y: LC, done: set<nat>, i: nat, w: Witness, p: int)
    requires p > 0 && i in y && i !in done
    requires AccumulatedAt(acc, start, k, y, done, w, p)
    ensures AccumulatedAt(acc[i := (Coeff(acc, i) + k * y[i]) % p], start, k, y, done + {i}, w, p)
  {
    SumAccumulate(acc, i, k * y[i], w, p);
    SumRest(y, done, i, w);
    AccumulateArith(Sum(acc[i := (Coeff(acc, i) + k * y[i]) % p], w), Sum(acc, w), Sum(start, w), k,
                    Sum(y, w), Sum(y - done, w), Sum(y - (done + {i}), w), y[i], w(i), p);
  }

  lemma AccumulateStep(acc: LC, start: LC, k: int, y: LC, done: set<nat>, i: nat, p: int)
    requires p > 0 && i in y && i !in done
    requires Accumulated(acc, start, k, y, done, p)
    ensures Accumulated(acc[i := (Coeff(acc, i) + k * y[i]) % p], start, k, y, done + {i}, p)
  {
    var next, visited := acc[i := (Coeff(acc, i) + k * y[i]) % p], done + {i};
    forall w: Witness ensures AccumulatedAt(next, start, k, y, visited, w, p) {
      AccumulateAt(acc, start, k, y, done, i, w, p);
    }
  }

  /** One accumulating loop: `acc[w] = (acc.get(w, 0) + k * c) % P`. */
  method AddScaled(start: LC, k: int, y: LC, p: int) returns (acc: LC)
    requires p > 0
    requires forall i :: i in start ==> 0 <= start[i] < p
    ensures forall i :: i in acc ==> 0 <= acc[i] < p
    ensures acc.Keys == start.Keys + y.Keys
    ensures Accumulated(acc, start, k, y, y.Keys, p)
    ensures forall i :: i in acc ==> acc[i] == AddedTerm(Coeff(start, i), k, Coeff(y, i), p)
  {
    acc := start;
    var done: set<nat> := {};
    assert y - {} == y;
    assert Accumulated(acc, start, k, y, done, p) by {
      forall w: Witness ensures AccumulatedAt(acc, start, k, y, done, w, p) {
        assert k * (Sum(y, w) - Sum(y - done, w)) == 0;
      }
    }
    while done != y.Keys
      invariant done <= y.Keys
      invariant acc.Keys == start.Keys + done
      invariant forall i :: i in acc ==> 0 <= acc[i] < p
      invariant Accumulated(acc, start, k, y, done, p)
      invariant Added(acc, start, k, y, done, p)
      decreases y.Keys - done
    {
      var i :| i in y.Keys && i !in done;
      AccumulateStep(acc, start, k, y, done, i, p);
      AddedStep(acc, start, k, y, done, i, p);
      acc := acc[i := (Coeff(acc, i) + k * y[i]) % p];
      done := done + {i};
    }
    AddedEnd(acc, start, k, y, p);
  }

  /** Entry by entry: the terms visited have been added. */
  ghost predicate Added(acc: LC, start: LC, k: int, y: LC, done: set<nat>, p: int)
    requires p > 0
  {
    forall i :: i in acc ==> acc[i] == if i in done && i in y then (Coeff(start, i) + k * y[i]) % p else Coeff(start, i)
  }

  lemma AddedStep(acc: LC, start: LC, k: int, y: LC, done: set<nat>, i: nat, p: int)
    requires p > 0 && i in y && i !in done && acc.Keys == start.Keys + done && done <= y.Keys
    requires Added(acc, start, k, y, done, p)
    ensures Added(acc[i := (Coeff(acc, i) + k * y[i]) % p], start, k, y, done + {i}, p)
  {
    assert Coeff(acc, i) == Coeff(start, i);
  }

  function AddedTerm(s: int, k: int, c: int, p: int): int
    requires p > 0
  {
    (s + k * c) % p
  }

  lemma AddedEnd(acc: LC, start: LC, k: int, y: LC, p: int)
    requires p > 0 && (forall i :: i in start ==> 0 <= start[i] < p) && acc.Keys == start.Keys + y.Keys
    requires Added(acc, start, k, y, y.Keys, p)
    ensures forall i :: i in acc ==> acc[i] == AddedTerm(Coeff(start, i), k, Coeff(y, i), p)
  {
    forall i | i in acc ensures acc[i] == AddedTerm(Coeff(start, i), k, Coeff(y, i), p) {
      if i !in y {
        assert k * Coeff(y, i) == 0;
        DivModUnique(start[i], 0, start[i], p);
      }
    }
  }

  /** `l` has the value `k * y - c` in F_p, whatever the witness. */
  ghost predicate IsScaleMinus(l: LC, k: int, y: LC, c: LC, p: int)
    requires p > 0
  {
    forall w: Witness :: ScaleMinusAt(l, k, y, c, w, p)
  }

  ghost predicate ScaleMinusAt(l: LC, k: int, y: LC, c: LC, w: Witness, p: int)
    requires p > 0
  {
    (Sum(l, w) - (k * Sum(y, w) - Sum(c, w))) % p == 0
  }

  lemma ScaleMinusSum(acc1: LC, acc2: LC, k: int, y: LC, c: LC, p: int)
    requires p > 0
    requires Accumulated(acc1, map[], k, y, y.Keys, p) && Accumulated(acc2, acc1, -1, c, c.Keys, p)
    ensures IsScaleMinus(DropZeros(acc2), k, y, c, p)
  {
    var l := DropZeros(acc2);
    forall w: Witness ensures ScaleMinusAt(l, k, y, c, w, p) {
      SumDropZeros(acc2, w);
      assert y - y.Keys == map[] && c - c.Keys == map[];
      assert AccumulatedAt(acc1, map[], k, y, y.Keys, w, p) && AccumulatedAt(acc2, acc1, -1, c, c.Keys, w, p);
      ModAdd(Sum(acc1, w) - 0 - k * (Sum(y, w) - 0), Sum(acc2, w) - Sum(acc1, w) - -1 * (Sum(c, w) - 0), p);
    }
  }

  function CombinedTerm(k: int, y: int, c: int, p: int): int
    requires p > 0
  {
    (k * y - c) % p
  }

  /** k*Y - C, entry by entry, without zeros. */
  function Combined(k: int, y: LC, c: LC, p: int): (l: LC)
    requires p > 0
  {
    map i | i in y.Keys + c.Keys && CombinedTerm(k, Coeff(y, i), Coeff(c, i), p) != 0 :: CombinedTerm(k, Coeff(y, i), Coeff(c, i), p)
  }

  lemma CombinedEntry(k: int, y: int, c: int, p: int)
    requires p > 0
    ensures AddedTerm(AddedTerm(0, k, y, p), -1, c, p) == CombinedTerm(k, y, c, p)
    ensures AddedTerm(0, k, 0, p) == 0
  {
    var t := k * y;
    var q, s := t / p, (t - c) / p;
    assert (s - q) * p == s * p - q * p;
    DivModUnique(t % p + -1 * c, s - q, (t - c) % p, p);
    DivModUnique(0, 0, 0, p);
    assert k * 0 == 0;
  }

  lemma CombinedEntries(acc1: LC, acc2: LC, k: int, y: LC, c: LC, p: int)
    requires p > 0 && acc1.Keys == y.Keys && acc2.Keys == y.Keys + c.Keys
    requires forall i :: i in acc1 ==> acc1[i] == AddedTerm(0, k, Coeff(y, i), p)
    requires forall i :: i in acc2 ==> acc2[i] == AddedTerm(Coeff(acc1, i), -1, Coeff(c, i), p)
    ensures DropZeros(acc2) == Combined(k, y, c, p)
  {
    forall i | i in acc2 ensures acc2[i] == CombinedTerm(k, Coeff(y, i), Coeff(c, i), p) {
      CombinedEntry(k, Coeff(y, i), Coeff(c, i), p);
    }
  }

  /** The loops that form k*Y - C as one dictionary without zero entries
      (encode.py:113-118, 256-261, 277-286). */
  method ScaleMinus(k: int, y: LC, c: LC, p: int) returns (l: LC)
    requires p > 0
    ensures Normal(l, p)
    ensures Wires(l) <= Wires(y) + Wires(c)
    ensures IsScaleMinus(l, k, y, c, p)
    ensures l == Combined(k, y, c, p)
  {
    var acc1 := AddScaled(map[], k, y, p);
    var acc2 := AddScaled(acc1, -1, c, p);
    ScaleMinusSum(acc1, acc2, k, y, c, p);
    CombinedEntries(acc1, acc2, k, y, c, p);
    l := DropZeros(acc2);
  }
}

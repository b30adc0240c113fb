/** The solver's hash symbols: uninterpreted functions with an inverse per argument and an
    arity tag, assumed only for the calls of a circuit. */
module HashModel {
  import opened LinComb

  /** One abstracted Poseidon instance: its input wires and its output wire. */
  datatype HashCall = HashCall(ins: seq<nat>, out: nat)

  /** A hash function on argument lists; the arity is the length. */
  type HashFunction = seq<int> -> int

  function Arguments(w: Witness, ins: seq<nat>): (r: seq<int>)
    ensures |r| == |ins| && forall i :: 0 <= i < |ins| ==> r[i] == w(ins[i])
  {
    seq(|ins|, i requires 0 <= i < |ins| => w(ins[i]))
  }

  /** Every output wire is the hash of its input wires. */
  ghost predicate Obeys(w: Witness, hs: seq<HashCall>, h: HashFunction) {
    forall i :: 0 <= i < |hs| ==> w(hs[i].out) == h(Arguments(w, hs[i].ins))
  }

  /** The arguments of every call. */
  function Calls(w: Witness, hs: seq<HashCall>): (r: seq<seq<int>>)
    ensures |r| == |hs| && forall i :: 0 <= i < |hs| ==> r[i] == Arguments(w, hs[i].ins)
  {
    seq(|hs|, i requires 0 <= i < |hs| => Arguments(w, hs[i].ins))
  }

  /** A reading of the solver's symbols: the hash, the tag and the inverses (arity, argument). */
  datatype Symbols = Symbols(h: HashFunction, tag: int -> int, inv: (nat, nat, int) -> int)

  /** `hash_axioms` (encode.py:198-207) for one call. */
  predicate CallAxioms(s: Symbols, args: seq<int>, p: int) {
    var v := s.h(args);
    && 0 <= v < p && s.tag(v) == |args|
    && forall i :: 0 <= i < |args| ==> s.inv(|args|, i, v) == args[i]
  }

  ghost predicate HashAxioms(s: Symbols, calls: seq<seq<int>>, p: int) {
    forall k :: 0 <= k < |calls| ==> CallAxioms(s, calls[k], p)
  }

  ghost predicate InRange(h: HashFunction, calls: seq<seq<int>>, p: int) {
    forall k :: 0 <= k < |calls| ==> 0 <= h(calls[k]) < p
  }

  lemma OutputsInRange(w: Witness, hs: seq<HashCall>, h: HashFunction, p: int)
    requires Obeys(w, hs, h) && IsWitness(w, p)
    ensures InRange(h, Calls(w, hs), p)
  {
    forall k | 0 <= k < |hs| ensures 0 <= h(Calls(w, hs)[k]) < p { assert 0 <= w(hs[k].out) < p; }
  }

  /** No two of the calls have one output for different arguments. */
  ghost predicate CollisionFree(h: HashFunction, calls: seq<seq<int>>) {
    forall i, j :: 0 <= i < |calls| && 0 <= j < |calls| && h(calls[i]) == h(calls[j]) ==> calls[i] == calls[j]
  }

  /** The arguments of the last call with this output. */
  function Preimage(h: HashFunction, calls: seq<seq<int>>, v: int): seq<int> {
    if calls == [] then []
    else if h(calls[|calls| - 1]) == v then calls[|calls| - 1]
    else Preimage(h, calls[..|calls| - 1], v)
  }

  lemma {:induction false} PreimageFound(h: HashFunction, calls: seq<seq<int>>, k: nat)
    requires k < |calls|
    ensures exists j :: 0 <= j < |calls| && calls[j] == Preimage(h, calls, h(calls[k])) && h(calls[j]) == h(calls[k])
  {
    var n := |calls| - 1;
    if h(calls[n]) != h(calls[k]) {
      PreimageFound(h, calls[..n], k);
      var j :| 0 <= j < n && calls[..n][j] == Preimage(h, calls[..n], h(calls[k])) && h(calls[..n][j]) == h(calls[k]);
      assert calls[j] == calls[..n][j];
    }
  }

  function ArgumentAt(args: seq<int>, i: nat): int { if i < |args| then args[i] else 0 }

  /** Tag and inverses read off the calls themselves. */
  function SymbolsOf(h: HashFunction, calls: seq<seq<int>>): (s: Symbols)
    ensures s.h == h
  {
    Symbols(h, v => |Preimage(h, calls, v)|,
            (n: nat, i: nat, v: int) => ArgumentAt(Preimage(h, calls, v), i))
  }

  /** The axioms assume neither an injective hash nor anything beyond the calls: for a given
      hash they can be satisfied if and only if the calls do not collide. */
  lemma AxiomsExactly(h: HashFunction, calls: seq<seq<int>>, p: int)
    requires InRange(h, calls, p)
    ensures (exists s: Symbols :: s.h == h && HashAxioms(s, calls, p)) <==> CollisionFree(h, calls)
    ensures CollisionFree(h, calls) ==> HashAxioms(SymbolsOf(h, calls), calls, p)
  {
    if s: Symbols :| s.h == h && HashAxioms(s, calls, p) {
      forall i, j | 0 <= i < |calls| && 0 <= j < |calls| && h(calls[i]) == h(calls[j]) ensures calls[i] == calls[j] {
        assert CallAxioms(s, calls[i], p) && CallAxioms(s, calls[j], p);
      }
    }
    if CollisionFree(h, calls) {
      forall k | 0 <= k < |calls| ensures CallAxioms(SymbolsOf(h, calls), calls[k], p) {
        PreimageFound(h, calls, k);
        assert Preimage(h, calls, h(calls[k])) == calls[k];
      }
      var s := SymbolsOf(h, calls);
      assert s.h == h && HashAxioms(s, calls, p);
    }
  }
}

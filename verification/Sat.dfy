/** Propositional logic over signed variable numbers: the meaning the solver's
    verdicts are stated in. */
module Sat {

  /** The variable of a literal. */
  function Var(l: int): nat {
    if l < 0 then -l else l
  }

  predicate LitOk(n: nat, l: int) {
    1 <= Var(l) <= n
  }

  predicate ClauseOk(n: nat, c: seq<int>) {
    forall l | l in c :: LitOk(n, l)
  }

  /** A valuation of all the variables: the set of those that are true. */
  type Model = set<int>

  predicate HoldsLit(m: Model, l: int) {
    if l > 0 then l in m else -l !in m
  }

  ghost predicate HoldsClause(m: Model, c: seq<int>) {
    exists l | l in c :: HoldsLit(m, l)
  }

  ghost predicate HoldsAll(m: Model, f: seq<seq<int>>) {
    forall i | 0 <= i < |f| :: HoldsClause(m, f[i])
  }

  ghost predicate HoldsLits(m: Model, ls: seq<int>) {
    forall l | l in ls :: HoldsLit(m, l)
  }

  /** Every valuation of the formula satisfies the clause. */
  ghost predicate Entails(f: seq<seq<int>>, c: seq<int>) {
    forall m: Model | HoldsAll(m, f) :: HoldsClause(m, c)
  }

  /** The literals `ls` cannot all hold in a valuation of the formula. */
  ghost predicate Refutes(f: seq<seq<int>>, ls: seq<int>) {
    forall m: Model | HoldsAll(m, f) :: !HoldsLits(m, ls)
  }

  /** Two valuations agree on the variables 1..n. */
  predicate Agree(n: nat, m: Model, m': Model) {
    forall v | 1 <= v <= n :: v in m <==> v in m'
  }

  lemma HoldsAllAppend(m: Model, f: seq<seq<int>>, c: seq<int>)
    ensures HoldsAll(m, f + [c]) <==> HoldsAll(m, f) && HoldsClause(m, c)
  {
    var g := f + [c];
    if HoldsAll(m, g) {
      assert HoldsClause(m, g[|f|]);
      forall i | 0 <= i < |f| ensures HoldsClause(m, f[i]) { assert g[i] == f[i]; }
    }
  }

  lemma AgreeClause(n: nat, m: Model, m': Model, c: seq<int>)
    requires Agree(n, m, m') && ClauseOk(n, c)
    ensures HoldsClause(m, c) <==> HoldsClause(m', c)
  {
    forall l | l in c ensures HoldsLit(m, l) <==> HoldsLit(m', l) {
      assert LitOk(n, l);
    }
  }

  lemma AgreeAll(n: nat, m: Model, m': Model, f: seq<seq<int>>)
    requires Agree(n, m, m') && forall i | 0 <= i < |f| :: ClauseOk(n, f[i])
    ensures HoldsAll(m, f) <==> HoldsAll(m', f)
  {
    forall i | 0 <= i < |f| ensures HoldsClause(m, f[i]) <==> HoldsClause(m', f[i]) {
      AgreeClause(n, m, m', f[i]);
    }
  }

  /** A clause's literals as a set: what the solver treats as one clause. */
  function LitSet(c: seq<int>): set<int> {
    set l | l in c
  }

  function Vars(n: nat): (vs: set<int>)
    ensures forall v :: v in vs <==> 1 <= v <= n
  {
    if n == 0 then {} else var v: int := n; Vars(n - 1) + {v}
  }

  function Literals(n: nat): (ls: set<int>)
    ensures forall l :: l in ls <==> LitOk(n, l)
  {
    if n == 0 then {} else var v: int := n; Literals(n - 1) + {v, -v}
  }

  /** All the clauses over n variables, as literal sets. */
  ghost function AllClauses(n: nat): set<set<int>> {
    set c | c <= Literals(n)
  }
}

/** Substituting the definitions that equalities give: variables chased to their ends, arguments
    rewritten, and which equalities that uses. */
module Substitution {
  import opened Sets
  import opened Circuit
  import opened Trail
  import opened Terms
  import opened BitBlast

  /** The variable and the term that an equality defines, given the variables defined already. */
  function Defines(a: Eq, done: set<Name>): Option<(Name, Term)> {
    if a.t1.Var? && a.t1.name !in done then Some((a.t1.name, a.t2))
    else if a.t2.Var? && a.t2.name !in done then Some((a.t2.name, a.t1))
    else None
  }

  /** The definitions that the first `k` atoms give: the first equality that defines a
      variable wins. */
  function Definitions(atoms: seq<Eq>, assign: seq<bool>, k: nat): map<Name, Term>
    requires k <= |atoms| == |assign|
  {
    if k == 0 then map[]
    else
      var before := Definitions(atoms, assign, k - 1);
      var d := Defines(atoms[k - 1], before.Keys);
      if assign[k - 1] && d.Some? then before[d.value.0 := d.value.1] else before
  }

  /** The equalities that give those definitions. */
  function Sources(atoms: seq<Eq>, assign: seq<bool>, k: nat): map<Name, int>
    requires k <= |atoms| == |assign|
  {
    if k == 0 then map[]
    else
      var before := Sources(atoms, assign, k - 1);
      var d := Defines(atoms[k - 1], before.Keys);
      if assign[k - 1] && d.Some? then before[d.value.0 := k] else before
  }

  lemma {:induction false} SameKeys(atoms: seq<Eq>, assign: seq<bool>, k: nat)
    requires k <= |atoms| == |assign|
    ensures Sources(atoms, assign, k).Keys == Definitions(atoms, assign, k).Keys
  {
    if k > 0 {
      SameKeys(atoms, assign, k - 1);
    }
  }

  /** The end of the chain var := var := ... := term, each variable followed once. */
  function Chased(subst: map<Name, Term>, t: Term, seen: set<Name>): Term
    decreases subst.Keys - seen
  {
    if t.Var? && t.name in subst && t.name !in seen then Chased(subst, subst[t.name], seen + {t.name}) else t
  }

  /** Substituting into `t` needs a recursion of at most this depth. */
  predicate Ends(subst: map<Name, Term>, t: Term, depth: nat)
    decreases depth, 0
  {
    depth > 0 && match Chased(subst, t, {})
      case Neg(a) => Ends(subst, a, depth - 1)
      case Sub(a, b) => Ends(subst, a, depth - 1) && Ends(subst, b, depth - 1)
      case Mul(a, b) => Ends(subst, a, depth - 1) && Ends(subst, b, depth - 1)
      case Add(ts) => AllEnd(subst, ts, depth - 1)
      case _ => true
  }

  predicate AllEnd(subst: map<Name, Term>, ts: seq<Term>, depth: nat)
    decreases depth, 1
  {
    forall k | 0 <= k < |ts| :: Ends(subst, ts[k], depth)
  }

  /** The term with the definitions substituted all the way down. */
  function Applied(subst: map<Name, Term>, t: Term, depth: nat): Term
    requires Ends(subst, t, depth)
    decreases depth, 0
  {
    match Chased(subst, t, {})
    case Neg(a) => Neg(Applied(subst, a, depth - 1))
    case Sub(a, b) => Sub(Applied(subst, a, depth - 1), Applied(subst, b, depth - 1))
    case Mul(a, b) => Mul(Applied(subst, a, depth - 1), Applied(subst, b, depth - 1))
    case Add(ts) => Add(AppliedAll(subst, ts, depth - 1))
    case u => u
  }

  function AppliedAll(subst: map<Name, Term>, ts: seq<Term>, depth: nat): seq<Term>
    requires AllEnd(subst, ts, depth)
    decreases depth, 1
  {
    seq(|ts|, k requires 0 <= k < |ts| => Applied(subst, ts[k], depth))
  }

  /** The equalities followed from `t` to the end of its chain. */
  function ChasedUses(subst: map<Name, Term>, eqs: map<Name, int>, t: Term, seen: set<Name>): set<int>
    requires subst.Keys == eqs.Keys
    decreases subst.Keys - seen
  {
    if t.Var? && t.name in subst && t.name !in seen then
      {eqs[t.name]} + ChasedUses(subst, eqs, subst[t.name], seen + {t.name})
    else {}
  }

  /** The equalities that substituting into `t` uses. */
  function Uses(subst: map<Name, Term>, eqs: map<Name, int>, t: Term, depth: nat): set<int>
    requires subst.Keys == eqs.Keys && Ends(subst, t, depth)
    decreases depth, 0
  {
    ChasedUses(subst, eqs, t, {}) + match Chased(subst, t, {})
      case Neg(a) => Uses(subst, eqs, a, depth - 1)
      case Sub(a, b) => Uses(subst, eqs, a, depth - 1) + Uses(subst, eqs, b, depth - 1)
      case Mul(a, b) => Uses(subst, eqs, a, depth - 1) + Uses(subst, eqs, b, depth - 1)
      case Add(ts) => assert AllEnd(subst, ts, depth - 1); UsesAll(subst, eqs, ts, |ts|, depth - 1)
      case _ => {}
  }

  /** The equalities that substituting into the first `n` terms uses. */
  function UsesAll(subst: map<Name, Term>, eqs: map<Name, int>, ts: seq<Term>, n: nat, depth: nat): set<int>
    requires subst.Keys == eqs.Keys && n <= |ts| && forall k | 0 <= k < n :: Ends(subst, ts[k], depth)
    decreases depth, 1, n
  {
    if n == 0 then {} else UsesAll(subst, eqs, ts, n - 1, depth) + Uses(subst, eqs, ts[n - 1], depth)
  }

  /** One step of the substitution, by the kind of term the chain ends in. */
  lemma StepIs(subst: map<Name, Term>, t0: Term, t: Term, depth: nat)
    requires depth > 0 && t == Chased(subst, t0, {})
    ensures t.Neg? ==>
      && (Ends(subst, t0, depth) <==> Ends(subst, t.arg, depth - 1))
      && (Ends(subst, t0, depth) ==> Applied(subst, t0, depth) == Neg(Applied(subst, t.arg, depth - 1)))
    ensures t.Sub? ==>
      && (Ends(subst, t0, depth) <==> Ends(subst, t.left, depth - 1) && Ends(subst, t.right, depth - 1))
      && (Ends(subst, t0, depth) ==>
          Applied(subst, t0, depth) == Sub(Applied(subst, t.left, depth - 1), Applied(subst, t.right, depth - 1)))
    ensures t.Mul? ==>
      && (Ends(subst, t0, depth) <==> Ends(subst, t.fst, depth - 1) && Ends(subst, t.snd, depth - 1))
      && (Ends(subst, t0, depth) ==>
          Applied(subst, t0, depth) == Mul(Applied(subst, t.fst, depth - 1), Applied(subst, t.snd, depth - 1)))
    ensures t.Add? ==>
      && (Ends(subst, t0, depth) <==> AllEnd(subst, t.terms, depth - 1))
      && (Ends(subst, t0, depth) ==> Applied(subst, t0, depth) == Add(AppliedAll(subst, t.terms, depth - 1)))
    ensures !t.Neg? && !t.Sub? && !t.Mul? && !t.Add? ==> Ends(subst, t0, depth) && Applied(subst, t0, depth) == t
  {
  }

  ghost predicate UsesTwo(subst: map<Name, Term>, eqs: map<Name, int>, t0: Term, a: Term, b: Term, depth: nat) {
    && depth > 0 && subst.Keys == eqs.Keys && Ends(subst, t0, depth) && Ends(subst, a, depth - 1)
        && Ends(subst, b, depth - 1)
    && Uses(subst, eqs, t0, depth) ==
        ChasedUses(subst, eqs, t0, {}) + (Uses(subst, eqs, a, depth - 1) + Uses(subst, eqs, b, depth - 1))
  }

  /** What one step of the substitution uses, by the kind of term the chain ends in. */
  lemma UsesAre(subst: map<Name, Term>, eqs: map<Name, int>, t0: Term, t: Term, depth: nat)
    requires subst.Keys == eqs.Keys && Ends(subst, t0, depth) && t == Chased(subst, t0, {})
    ensures t.Neg? ==>
        Uses(subst, eqs, t0, depth) == ChasedUses(subst, eqs, t0, {}) + Uses(subst, eqs, t.arg, depth - 1)
    ensures t.Sub? ==> UsesTwo(subst, eqs, t0, t.left, t.right, depth)
    ensures t.Mul? ==> UsesTwo(subst, eqs, t0, t.fst, t.snd, depth)
    ensures t.Add? ==>
      && AllEnd(subst, t.terms, depth - 1)
      && Uses(subst, eqs, t0, depth) ==
          ChasedUses(subst, eqs, t0, {}) + UsesAll(subst, eqs, t.terms, |t.terms|, depth - 1)
    ensures !t.Neg? && !t.Sub? && !t.Mul? && !t.Add? ==> Uses(subst, eqs, t0, depth) == ChasedUses(subst, eqs, t0, {})
  {
  }

  // ---- when a depth is enough -----------------------------------------------------------------

  /** The definitions can be ranked: each mentions only variables of lower rank. */
  ghost predicate Ranked(subst: map<Name, Term>, rank: Name -> nat) {
    forall x, y | x in subst && y in VarNames(subst[x]) && y in subst :: rank(y) < rank(x)
  }

  /** Only variables below `r` are left to follow. */
  ghost predicate Below(subst: map<Name, Term>, rank: Name -> nat, t: Term, r: nat) {
    forall y | y in VarNames(t) && y in subst :: rank(y) < r
  }

  lemma {:induction false} EndsMore(subst: map<Name, Term>, t: Term, d: nat, more: nat)
    requires Ends(subst, t, d) && d <= more
    ensures Ends(subst, t, more)
    decreases d
  {
    match Chased(subst, t, {})
    case Neg(a) => EndsMore(subst, a, d - 1, more - 1);
    case Sub(a, b) =>
      EndsMore(subst, a, d - 1, more - 1);
      EndsMore(subst, b, d - 1, more - 1);
    case Mul(a, b) =>
      EndsMore(subst, a, d - 1, more - 1);
      EndsMore(subst, b, d - 1, more - 1);
    case Add(ts) =>
      forall k | 0 <= k < |ts| ensures Ends(subst, ts[k], more - 1) { EndsMore(subst, ts[k], d - 1, more - 1); }
    case _ =>
  }

  /** Following a chain stays below the rank it started below, whatever was seen. */
  lemma {:induction false} ChasedBelow(subst: map<Name, Term>, rank: Name -> nat, t: Term, seen: set<Name>, r: nat)
    requires Ranked(subst, rank) && Below(subst, rank, t, r) && forall x | x in seen && x in subst :: rank(x) >= r
    ensures Below(subst, rank, Chased(subst, t, seen), r)
    ensures Chased(subst, t, seen) == t
        || exists x :: x in subst && rank(x) < r && Below(subst, rank, Chased(subst, t, seen), rank(x))
    ensures Chased(subst, t, seen).Var? ==> Chased(subst, t, seen).name !in subst
    decreases subst.Keys - seen
  {
    if t.Var? && t.name in subst {
      assert t.name in VarNames(t);
      assert Below(subst, rank, subst[t.name], rank(t.name));
      ChasedBelow(subst, rank, subst[t.name], seen + {t.name}, rank(t.name));
    }
  }

  /** The variables of `R` can be ranked through the compound terms their chains end in. */
  ghost predicate Grounded(subst: map<Name, Term>, rank: Name -> nat, R: Name -> bool) {
    forall x | R(x) :: GroundedAt(subst, rank, R, x)
  }

  ghost predicate GroundedAt(subst: map<Name, Term>, rank: Name -> nat, R: Name -> bool, x: Name) {
    var u := Chased(subst, Var(x), {});
    !u.Var? ==> forall y | y in VarNames(u) :: R(y) && rank(y) < rank(x)
  }

  /** The variables of the term are ranked, below `r`. */
  ghost predicate Under(t: Term, rank: Name -> nat, R: Name -> bool, r: nat) {
    forall y | y in VarNames(t) :: R(y) && rank(y) < r
  }

  /** Ranked variables: every term can be rewritten within some depth. */
  lemma {:induction false} GroundedEnds(subst: map<Name, Term>, rank: Name -> nat, R: Name -> bool, t: Term, r: nat)
      returns (d: nat)
    requires Grounded(subst, rank, R) && Under(t, rank, R, r)
    ensures Ends(subst, t, d)
    decreases r, t, 1
  {
    match t
    case Var(x) =>
      var u := Chased(subst, t, {});
      assert x in VarNames(t) && GroundedAt(subst, rank, R, x);
      if u.Var? {
        d := 1;
      } else {
        d := GroundedEnds(subst, rank, R, u, rank(x));
        EndsFrom(subst, t, u, d);
      }
    case Neg(a) =>
      d := GroundedEnds(subst, rank, R, a, r);
      d := d + 1;
    case Sub(a, b) => d := GroundedTwo(subst, rank, R, t, a, b, r);
    case Mul(a, b) => d := GroundedTwo(subst, rank, R, t, a, b, r);
    case Add(ts) =>
      d := 0;
      var i := 0;
      while i < |ts|
        invariant i <= |ts| && forall k | 0 <= k < i :: Ends(subst, ts[k], d)
      {
        assert forall y | y in VarNames(ts[i]) :: y in VarNames(t);
        var di := GroundedEnds(subst, rank, R, ts[i], r);
        forall k | 0 <= k <= i ensures Ends(subst, ts[k], d + di) {
          EndsMore(subst, ts[k], if k < i then d else di, d + di);
        }
        d, i := d + di, i + 1;
      }
      assert AllEnd(subst, ts, d);
      d := d + 1;
    case _ => d := 1;
  }

  lemma GroundedTwo(subst: map<Name, Term>, rank: Name -> nat, R: Name -> bool, t: Term, a: Term, b: Term, r: nat)
      returns (d: nat)
    requires Grounded(subst, rank, R) && Under(t, rank, R, r) && (t == Sub(a, b) || t == Mul(a, b))
    ensures Ends(subst, t, d)
    decreases r, t, 0
  {
    var x := GroundedEnds(subst, rank, R, a, r);
    var y := GroundedEnds(subst, rank, R, b, r);
    EndsMore(subst, a, x, x + y);
    EndsMore(subst, b, y, x + y);
    d := x + y + 1;
  }

  lemma Bound(ns: set<Name>, rank: Name -> nat) returns (r: nat)
    ensures forall y | y in ns :: rank(y) < r
  {
    var rest := ns;
    r := 0;
    while rest != {}
      invariant rest <= ns && forall x | x in ns && x !in rest :: rank(x) < r
      decreases rest
    {
      var x := Pick(rest);
      rest := rest - {x};
      r := r + rank(x) + 1;
    }
  }

  /** A rank that puts the variables without definition at the bottom. */
  ghost function Raised(subst: map<Name, Term>, rank: Name -> nat): Name -> nat {
    (x: Name) => if x in subst then rank(x) + 1 else 0
  }

  lemma RankedGrounded(subst: map<Name, Term>, rank: Name -> nat)
    requires Ranked(subst, rank)
    ensures Grounded(subst, Raised(subst, rank), x => true)
  {
    hide VarNames;
    var up, all := Raised(subst, rank), (x: Name) => true;
    forall x | all(x) ensures GroundedAt(subst, up, all, x) {
      if x in subst {
        OwnName(x);
        ChasedBelow(subst, rank, Var(x), {}, rank(x) + 1);
        var u := Chased(subst, Var(x), {});
        if !u.Var? {
          var z :| z in subst && rank(z) < rank(x) + 1 && Below(subst, rank, u, rank(z));
        }
      }
    }
  }

  lemma OwnName(x: Name)
    ensures VarNames(Var(x)) == {x}
  {
  }

  /** Acyclic definitions: every term can be rewritten within some depth. */
  lemma EnoughDepth(subst: map<Name, Term>, rank: Name -> nat, t: Term) returns (d: nat)
    requires Ranked(subst, rank)
    ensures Ends(subst, t, d)
  {
    RankedGrounded(subst, rank);
    var r := Bound(VarNames(t), Raised(subst, rank));
    d := GroundedEnds(subst, Raised(subst, rank), x => true, t, r);
  }

  lemma EndsFrom(subst: map<Name, Term>, t: Term, u: Term, d: nat)
    requires Chased(subst, t, {}) == Chased(subst, u, {}) && Ends(subst, u, d)
    ensures Ends(subst, t, d)
  {
  }
}

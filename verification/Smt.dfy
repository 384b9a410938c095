/** DPLL(T): the SAT solver proposes, the word-level theory disposes. */
module Smt {
  import opened Sat
  import opened Circuit
  import opened Cdcl
  import opened Trail
  import opened Search
  import opened Terms
  import opened Coefficients
  import opened NormalForm
  import opened BitBlast
  import opened Substitution

  // ---- the theory check -------------------------------------------------------------------

  /** The equalities used all hold. */
  ghost predicate Using(atoms: seq<Eq>, used: set<int>, v: Valuation, w: nat) {
    forall i | i in used :: 1 <= i <= |atoms| && Holds(atoms[i - 1], v, w)
  }

  /** x := term, each from an equality asserted true. */
  ghost predicate SubstOk(atoms: seq<Eq>, assign: seq<bool>, subst: map<Name, Term>, eqs: map<Name, int>)
    requires |assign| == |atoms|
  {
    subst.Keys == eqs.Keys && forall x | x in subst ::
      && 1 <= eqs[x] <= |atoms| && assign[eqs[x] - 1] && Lowerable(subst[x])
      && (atoms[eqs[x] - 1] == Eq(Var(x), subst[x]) || atoms[eqs[x] - 1] == Eq(subst[x], Var(x)))
  }

  /** The substitution table. */
  method Substitutions(atoms: seq<Eq>, assign: seq<bool>) returns (subst: map<Name, Term>, eqs: map<Name, int>)
    requires |assign| == |atoms| && forall k | 0 <= k < |atoms| :: AtomOk(atoms[k])
    ensures SubstOk(atoms, assign, subst, eqs) && subst == Definitions(atoms, assign, |atoms|)
        && eqs == Sources(atoms, assign, |atoms|) && subst.Keys == eqs.Keys
  {
    hide SubstOk, AtomOk;
    subst, eqs := map[], map[];
    NoSubst(atoms, assign);
    var i := 1;
    while i <= |atoms|
      invariant 1 <= i <= |atoms| + 1 && SubstOk(atoms, assign, subst, eqs)
          && subst == Definitions(atoms, assign, i - 1)
      invariant eqs == Sources(atoms, assign, i - 1) && subst.Keys == eqs.Keys
    {
      var atom := atoms[i - 1];
      if assign[i - 1] && atom.t1.Var? && atom.t1.name !in subst {
        SubstAdd(atoms, assign, subst, eqs, i, atom.t1.name, atom.t2);
        subst, eqs := subst[atom.t1.name := atom.t2], eqs[atom.t1.name := i];
      } else if assign[i - 1] && atom.t2.Var? && atom.t2.name !in subst {
        SubstAdd(atoms, assign, subst, eqs, i, atom.t2.name, atom.t1);
        subst, eqs := subst[atom.t2.name := atom.t1], eqs[atom.t2.name := i];
      }
      i := i + 1;
    }
  }

  lemma NoSubst(atoms: seq<Eq>, assign: seq<bool>)
    requires |assign| == |atoms|
    ensures SubstOk(atoms, assign, map[], map[])
  {
  }

  lemma SubstAdd(atoms: seq<Eq>, assign: seq<bool>, subst: map<Name, Term>, eqs: map<Name, int>, i: int, x: Name,
      t: Term)
    requires |assign| == |atoms| && SubstOk(atoms, assign, subst, eqs) && 1 <= i <= |atoms| && assign[i - 1]
        && AtomOk(atoms[i - 1])
    requires atoms[i - 1] == Eq(Var(x), t) || atoms[i - 1] == Eq(t, Var(x))
    ensures SubstOk(atoms, assign, subst[x := t], eqs[x := i])
  {
    hide Lowerable;
  }

  /** Under the equalities used, `r` has the value of `t`. */
  ghost predicate Equal(atoms: seq<Eq>, used: set<int>, t: Term, r: Term, w: nat) {
    forall v | Using(atoms, used, v, w) :: Val(r, v, w) == Val(t, v, w)
  }

  lemma EqualMore(atoms: seq<Eq>, used: set<int>, more: set<int>, t: Term, r: Term, w: nat)
    requires Equal(atoms, used, t, r, w) && used <= more
    ensures Equal(atoms, more, t, r, w)
  {
    forall v | Using(atoms, more, v, w) ensures Val(r, v, w) == Val(t, v, w) {
      assert Using(atoms, used, v, w);
    }
  }

  /** Atoms asserted true. */
  ghost predicate AllTrue(assign: seq<bool>, used: set<int>) {
    forall i | i in used :: 1 <= i <= |assign| && assign[i - 1]
  }

  /** Chase var := var := ... := term. */
  method Chase(atoms: seq<Eq>, assign: seq<bool>, subst: map<Name, Term>, eqs: map<Name, int>, t0: Term,
      used0: set<int>, w: nat)
    returns (t: Term, used: set<int>)
    requires |assign| == |atoms| && subst.Keys == eqs.Keys && SubstOk(atoms, assign, subst, eqs)
        && AllTrue(assign, used0) && Lowerable(t0)
    ensures used0 <= used && AllTrue(assign, used) && Lowerable(t) && Equal(atoms, used, t0, t, w)
    ensures t == Chased(subst, t0, {}) && used == used0 + ChasedUses(subst, eqs, t0, {})
  {
    hide Lowerable, Val;
    t, used := t0, used0;
    var seen: set<Name> := {};
    while t.Var? && t.name in subst && t.name !in seen
      invariant used0 <= used && AllTrue(assign, used) && Lowerable(t) && Equal(atoms, used, t0, t, w)
      invariant seen <= subst.Keys && Chased(subst, t, seen) == Chased(subst, t0, {})
      invariant used + ChasedUses(subst, eqs, t, seen) == used0 + ChasedUses(subst, eqs, t0, {})
      decreases subst.Keys - seen
    {
      ghost var x, t1 := t.name, t;
      seen := seen + {t.name};
      EqualMore(atoms, used, used + {eqs[t.name]}, t0, t, w);
      used := used + {eqs[t.name]};
      t := subst[t.name];
      forall v | Using(atoms, used, v, w) ensures Val(t, v, w) == Val(t0, v, w) {
        assert Holds(atoms[eqs[x] - 1], v, w) && Val(t1, v, w) == Val(t0, v, w);
      }
    }
  }

  /** apply: chase, then rewrite the arguments. `depth` bounds the recursion: a cyclic
      substitution through compound terms runs into it. */
  method Apply(atoms: seq<Eq>, assign: seq<bool>, subst: map<Name, Term>, eqs: map<Name, int>, t0: Term,
      used0: set<int>, w: nat, depth: nat)
    returns (r: Option<Term>, used: set<int>)
    requires |assign| == |atoms| && subst.Keys == eqs.Keys && SubstOk(atoms, assign, subst, eqs)
        && AllTrue(assign, used0) && Lowerable(t0)
    ensures used0 <= used && AllTrue(assign, used)
    ensures r.Some? ==> Lowerable(r.value) && Equal(atoms, used, t0, r.value, w)
    ensures (r.Some? <==> Ends(subst, t0, depth)) && (r.Some? ==> r.value == Applied(subst, t0, depth))
    ensures r.Some? ==> used == used0 + Uses(subst, eqs, t0, depth)
    decreases depth, 0
  {
    hide Val, SubstOk, AllTrue, Equal, Uses, Ends, Applied, AllEnd, AppliedAll;
    NoDepth(subst, t0);
    if depth == 0 {
      return None, used0;
    }
    var t;
    t, used := Chase(atoms, assign, subst, eqs, t0, used0, w);
    StepIs(subst, t0, t, depth);
    ghost var used1 := used;
    match t
    case Neg(a) =>
      var x;
      x, used := Apply(atoms, assign, subst, eqs, a, used, w, depth - 1);
      if x.None? { return None, used; }
      NegEqual(atoms, used, a, x.value, w);
      r := Some(Neg(x.value));
      UsesAre(subst, eqs, t0, t, depth);
      Chain(atoms, used1, used, t0, t, r.value, w);
    case Sub(a, b) =>
      var x, y;
      x, y, used := ApplyTwo(atoms, assign, subst, eqs, a, b, used, w, depth - 1);
      if x.None? || y.None? { return None, used; }
      SubEqual(atoms, used, a, x.value, b, y.value, w);
      r := Some(Sub(x.value, y.value));
      UsesAre(subst, eqs, t0, t, depth);
      Chain(atoms, used1, used, t0, t, r.value, w);
    case Mul(a, b) =>
      var x, y;
      x, y, used := ApplyTwo(atoms, assign, subst, eqs, a, b, used, w, depth - 1);
      if x.None? || y.None? { return None, used; }
      MulEqual(atoms, used, a, x.value, b, y.value, w);
      r := Some(Mul(x.value, y.value));
      UsesAre(subst, eqs, t0, t, depth);
      Chain(atoms, used1, used, t0, t, r.value, w);
    case Add(ts) =>
      var xs;
      xs, used := ApplyAll(atoms, assign, subst, eqs, ts, used, w, depth - 1);
      if xs.None? { return None, used; }
      AddEqual(atoms, used, ts, xs.value, w);
      r := Some(Add(xs.value));
      UsesAre(subst, eqs, t0, t, depth);
      Chain(atoms, used1, used, t0, t, r.value, w);
    case _ =>
      r := Some(t);
      UsesAre(subst, eqs, t0, t, depth);
  }

  lemma NoDepth(subst: map<Name, Term>, t: Term)
    ensures !Ends(subst, t, 0)
  {
  }

  /** Two arguments, the second only if the first comes out. */
  method ApplyTwo(atoms: seq<Eq>, assign: seq<bool>, subst: map<Name, Term>, eqs: map<Name, int>, a: Term, b: Term,
      used0: set<int>, w: nat, depth: nat)
    returns (x: Option<Term>, y: Option<Term>, used: set<int>)
    requires |assign| == |atoms| && subst.Keys == eqs.Keys && SubstOk(atoms, assign, subst, eqs)
        && AllTrue(assign, used0)
    requires Lowerable(a) && Lowerable(b)
    ensures used0 <= used && AllTrue(assign, used)
    ensures x.Some? && y.Some? ==>
      && Lowerable(x.value) && Equal(atoms, used, a, x.value, w) && Lowerable(y.value)
          && Equal(atoms, used, b, y.value, w)
    ensures x.Some? && y.Some? <==> Ends(subst, a, depth) && Ends(subst, b, depth)
    ensures x.Some? && y.Some? ==> x.value == Applied(subst, a, depth) && y.value == Applied(subst, b, depth)
    ensures x.Some? && y.Some? ==> used == used0 + (Uses(subst, eqs, a, depth) + Uses(subst, eqs, b, depth))
    decreases depth, 1
  {
    hide Val, SubstOk, AllTrue, Equal, Uses, Applied, Ends, Lowerable;
    y := None;
    x, used := Apply(atoms, assign, subst, eqs, a, used0, w, depth);
    if x.Some? {
      ghost var before := used;
      y, used := Apply(atoms, assign, subst, eqs, b, used, w, depth);
      if y.Some? {
        EqualMore(atoms, before, used, a, x.value, w);
      }
    }
  }

  ghost predicate AllEqual(atoms: seq<Eq>, used: set<int>, ts: seq<Term>, xs: seq<Term>, w: nat) {
    |xs| <= |ts| && forall k | 0 <= k < |xs| :: Lowerable(xs[k]) && Equal(atoms, used, ts[k], xs[k], w)
  }

  method ApplyAll(atoms: seq<Eq>, assign: seq<bool>, subst: map<Name, Term>, eqs: map<Name, int>, ts: seq<Term>,
      used0: set<int>, w: nat, depth: nat)
    returns (xs: Option<seq<Term>>, used: set<int>)
    requires |assign| == |atoms| && subst.Keys == eqs.Keys && SubstOk(atoms, assign, subst, eqs)
        && AllTrue(assign, used0)
    requires forall k | 0 <= k < |ts| :: Lowerable(ts[k])
    ensures used0 <= used && AllTrue(assign, used)
    ensures xs.Some? ==> |xs.value| == |ts| && AllEqual(atoms, used, ts, xs.value, w)
    ensures (xs.Some? <==> AllEnd(subst, ts, depth)) && (xs.Some? ==> xs.value == AppliedAll(subst, ts, depth))
    ensures xs.Some? ==> used == used0 + UsesAll(subst, eqs, ts, |ts|, depth)
    decreases depth, 1
  {
    hide Val, SubstOk, AllTrue, Equal, Lowerable, Ends, Applied, Uses;
    used := used0;
    var out: seq<Term> := [];
    while |out| < |ts|
      invariant |out| <= |ts| && used0 <= used && AllTrue(assign, used) && AllEqual(atoms, used, ts, out, w)
      invariant forall k | 0 <= k < |out| :: Ends(subst, ts[k], depth) && out[k] == Applied(subst, ts[k], depth)
      invariant used == used0 + UsesAll(subst, eqs, ts, |out|, depth)
    {
      ghost var before := used;
      var x;
      x, used := Apply(atoms, assign, subst, eqs, ts[|out|], used, w, depth);
      if x.None? {
        return None, used;
      }
      forall k | 0 <= k < |out| ensures Equal(atoms, used, ts[k], out[k], w) {
        EqualMore(atoms, before, used, ts[k], out[k], w);
      }
      out := out + [x.value];
    }
    xs := Some(out);
  }

  lemma Chain(atoms: seq<Eq>, used: set<int>, more: set<int>, a: Term, b: Term, c: Term, w: nat)
    requires Equal(atoms, used, a, b, w) && Equal(atoms, more, b, c, w) && used <= more
    ensures Equal(atoms, more, a, c, w)
  {
    EqualMore(atoms, used, more, a, b, w);
  }

  lemma NegEqual(atoms: seq<Eq>, used: set<int>, a: Term, x: Term, w: nat)
    requires Equal(atoms, used, a, x, w)
    ensures Equal(atoms, used, Neg(a), Neg(x), w)
  {
  }

  lemma SubEqual(atoms: seq<Eq>, used: set<int>, a: Term, x: Term, b: Term, y: Term, w: nat)
    requires Equal(atoms, used, a, x, w) && Equal(atoms, used, b, y, w)
    ensures Equal(atoms, used, Sub(a, b), Sub(x, y), w)
  {
  }

  lemma MulEqual(atoms: seq<Eq>, used: set<int>, a: Term, x: Term, b: Term, y: Term, w: nat)
    requires Equal(atoms, used, a, x, w) && Equal(atoms, used, b, y, w)
    ensures Equal(atoms, used, Mul(a, b), Mul(x, y), w)
  {
    forall v | Using(atoms, used, v, w) ensures Val(Mul(a, b), v, w) == Val(Mul(x, y), v, w) {
      ProductVal(a, b, v, w, Val(a, v, w), Val(b, v, w));
      ProductVal(x, y, v, w, Val(x, v, w), Val(y, v, w));
    }
  }

  lemma AddEqual(atoms: seq<Eq>, used: set<int>, ts: seq<Term>, xs: seq<Term>, w: nat)
    requires |xs| == |ts| && AllEqual(atoms, used, ts, xs, w)
    ensures Equal(atoms, used, Add(ts), Add(xs), w)
  {
    forall v | Using(atoms, used, v, w) ensures Val(Add(xs), v, w) == Val(Add(ts), v, w) {
      forall k | 0 <= k < |ts| ensures Val(xs[k], v, w) == Val(ts[k], v, w) {
        assert Equal(atoms, used, ts[k], xs[k], w);
      }
      SumsEqual(ts, xs, |ts|, v, w);
    }
  }

  lemma {:induction false} SumsEqual(ts: seq<Term>, xs: seq<Term>, k: nat, v: Valuation, w: nat)
    requires |xs| == |ts| && k <= |ts| && forall j | 0 <= j < k :: Val(xs[j], v, w) == Val(ts[j], v, w)
    ensures SumVal(Add(xs), k, v, w) == SumVal(Add(ts), k, v, w)
    decreases k
  {
    if k > 0 {
      SumsEqual(ts, xs, k - 1, v, w);
    }
  }

  datatype Verdict =
    | Consistent
    | Conflict(atoms: set<int>)
    | TooDeep

  /** Every side of every disequality can be rewritten within the depth. */
  ghost predicate DeepEnough(atoms: seq<Eq>, assign: seq<bool>, depth: nat)
    requires |assign| == |atoms|
  {
    var subst := Definitions(atoms, assign, |atoms|);
    forall i | 0 <= i < |atoms| && !assign[i] :: Ends(subst, atoms[i].t1, depth) && Ends(subst, atoms[i].t2, depth)
  }

  /** Atom `i` is a disequality between what the equalities make the same polynomial. */
  ghost predicate Clash(atoms: seq<Eq>, assign: seq<bool>, i: int, depth: nat, w: nat)
    requires |assign| == |atoms|
  {
    var subst := Definitions(atoms, assign, |atoms|);
    && 1 <= i <= |atoms| && !assign[i - 1]
    && Ends(subst, atoms[i - 1].t1, depth) && Ends(subst, atoms[i - 1].t2, depth)
    && SamePolynomial(Applied(subst, atoms[i - 1].t1, depth), Applied(subst, atoms[i - 1].t2, depth), w)
  }

  /** The sides of every disequality before atom `i` can be rewritten within the depth, and are
      different polynomials then. */
  ghost predicate ApartBefore(atoms: seq<Eq>, assign: seq<bool>, i: int, depth: nat, w: nat)
    requires |assign| == |atoms|
  {
    var subst := Definitions(atoms, assign, |atoms|);
    && (forall j | 0 <= j < |atoms| && j < i - 1 && !assign[j] ::
          Ends(subst, atoms[j].t1, depth) && Ends(subst, atoms[j].t2, depth))
    && forall j | 1 <= j < i :: !Clash(atoms, assign, j, depth, w)
  }

  /** Rewriting goes deeper than the limit at the disequality `i`, and nothing clashes before. */
  ghost predicate StopsAt(atoms: seq<Eq>, assign: seq<bool>, i: int, depth: nat, w: nat)
    requires |assign| == |atoms|
  {
    var subst := Definitions(atoms, assign, |atoms|);
    && 1 <= i <= |atoms| && !assign[i - 1] && ApartBefore(atoms, assign, i, depth, w)
    && !(Ends(subst, atoms[i - 1].t1, depth) && Ends(subst, atoms[i - 1].t2, depth))
  }

  /** The theory check finds nothing wrong. */
  ghost predicate CheckedOut(atoms: seq<Eq>, assign: seq<bool>, depth: nat, w: nat)
    requires |assign| == |atoms|
  {
    DeepEnough(atoms, assign, depth) && forall i :: !Clash(atoms, assign, i, depth, w)
  }

  /** The first clash is at atom `i`, and `blame` is that disequality with exactly the equalities
      that substituting into its sides uses. */
  ghost predicate Blames(atoms: seq<Eq>, assign: seq<bool>, i: int, depth: nat, w: nat, blame: set<int>)
    requires |assign| == |atoms|
  {
    && Clash(atoms, assign, i, depth, w) && blame == {i} + UsedBy(atoms, assign, i, depth, w)
    && ApartBefore(atoms, assign, i, depth, w)
  }

  ghost function UsedBy(atoms: seq<Eq>, assign: seq<bool>, i: int, depth: nat, w: nat): set<int>
    requires |assign| == |atoms| && Clash(atoms, assign, i, depth, w)
  {
    var subst, eqs := Definitions(atoms, assign, |atoms|), Sources(atoms, assign, |atoms|);
    SameKeys(atoms, assign, |atoms|);
    Uses(subst, eqs, atoms[i - 1].t1, depth) + Uses(subst, eqs, atoms[i - 1].t2, depth)
  }

  /** With acyclic definitions some recursion depth is enough for the whole check. */
  lemma AcyclicEnough(atoms: seq<Eq>, assign: seq<bool>, rank: Name -> nat) returns (depth: nat)
    requires |assign| == |atoms| && Ranked(Definitions(atoms, assign, |atoms|), rank)
    ensures DeepEnough(atoms, assign, depth)
  {
    hide Ends, Definitions;
    var subst := Definitions(atoms, assign, |atoms|);
    depth := 0;
    var i := 0;
    while i < |atoms|
      invariant i <= |atoms|
          && forall k | 0 <= k < i :: Ends(subst, atoms[k].t1, depth) && Ends(subst, atoms[k].t2, depth)
    {
      var x := EnoughDepth(subst, rank, atoms[i].t1);
      var y := EnoughDepth(subst, rank, atoms[i].t2);
      forall k | 0 <= k <= i
          ensures Ends(subst, atoms[k].t1, depth + x + y) && Ends(subst, atoms[k].t2, depth + x + y) {
        EndsMore(subst, atoms[k].t1, if k < i then depth else x, depth + x + y);
        EndsMore(subst, atoms[k].t2, if k < i then depth else y, depth + x + y);
      }
      depth, i := depth + x + y, i + 1;
    }
  }

  /** theory_check: a disequality whose sides the equalities make provably equal. */
  method TheoryCheck(atoms: seq<Eq>, assign: seq<bool>, w: nat, depth: nat) returns (r: Verdict)
    requires |assign| == |atoms| && forall k | 0 <= k < |atoms| :: AtomOk(atoms[k])
    ensures r.Conflict? ==> Refuted(atoms, assign, r.atoms, w)
    ensures r.TooDeep? ==> exists i :: StopsAt(atoms, assign, i, depth, w)
    ensures r.Conflict? ==> exists i :: Blames(atoms, assign, i, depth, w, r.atoms)
    ensures r.Consistent? ==> CheckedOut(atoms, assign, depth, w)
  {
    hide SubstOk, Val, Equal, Lowerable, Ends, Definitions, Sources, Applied, Uses, SamePolynomial;
    var subst, eqs := Substitutions(atoms, assign);
    var i := 1;
    while i <= |atoms|
      invariant 1 <= i <= |atoms| + 1
      invariant forall j | 0 <= j < i - 1 && !assign[j] ::
          Ends(subst, atoms[j].t1, depth) && Ends(subst, atoms[j].t2, depth)
      invariant forall j | 1 <= j < i :: !Clash(atoms, assign, j, depth, w)
    {
      if !assign[i - 1] {
        AtomParts(atoms[i - 1]);
        var t1, used := Apply(atoms, assign, subst, eqs, atoms[i - 1].t1, {}, w, depth);
        if t1.None? {
          assert StopsAt(atoms, assign, i, depth, w);
          return TooDeep;
        }
        ghost var used1 := used;
        var t2;
        t2, used := Apply(atoms, assign, subst, eqs, atoms[i - 1].t2, used, w, depth);
        if t2.None? {
          assert StopsAt(atoms, assign, i, depth, w);
          return TooDeep;
        }
        LowerableFree(t1.value);
        LowerableFree(t2.value);
        var equal := ProvablyEqual(t1.value, t2.value, w);
        if equal {
          ConflictFound(atoms, assign, i, used1, used, t1.value, t2.value, w);
          assert Blames(atoms, assign, i, depth, w, {i} + used);
          return Conflict({i} + used);
        }
      }
      i := i + 1;
    }
    r := Consistent;
  }

  lemma AtomParts(a: Eq)
    requires AtomOk(a)
    ensures Lowerable(a.t1) && Lowerable(a.t2)
  {
  }

  lemma {:induction false} LowerableFree(t: Term)
    requires Lowerable(t)
    ensures ArrayFree(t)
    decreases t
  {
    match t
    case Neg(a) => LowerableFree(a);
    case Add(ts) =>
      forall k | 0 <= k < |ts| ensures ArrayFree(ts[k]) { LowerableFree(ts[k]); }
    case Sub(a, b) =>
      LowerableFree(a);
      LowerableFree(b);
    case Mul(a, b) =>
      LowerableFree(a);
      LowerableFree(b);
    case Var(_) =>
    case Const(_) =>
  }

  /** Atom `i` is not as assigned. */
  ghost predicate Differs(atoms: seq<Eq>, assign: seq<bool>, i: int, v: Valuation, w: nat)
    requires |assign| == |atoms|
  {
    1 <= i <= |atoms| && Holds(atoms[i - 1], v, w) != assign[i - 1]
  }

  ghost predicate SomeDiffers(atoms: seq<Eq>, assign: seq<bool>, conflict: set<int>, v: Valuation, w: nat)
    requires |assign| == |atoms|
  {
    exists i :: i in conflict && Differs(atoms, assign, i, v, w)
  }

  /** No valuation gives these atoms their assigned truth values. */
  ghost predicate Refuted(atoms: seq<Eq>, assign: seq<bool>, conflict: set<int>, w: nat)
    requires |assign| == |atoms|
  {
    && (forall i | i in conflict :: 1 <= i <= |atoms|)
    && forall v :: SomeDiffers(atoms, assign, conflict, v, w)
  }

  lemma ConflictFound(atoms: seq<Eq>, assign: seq<bool>, i: int, used1: set<int>, used: set<int>, t1: Term, t2: Term,
      w: nat)
    requires |assign| == |atoms| && 1 <= i <= |atoms| && !assign[i - 1] && AllTrue(assign, used) && used1 <= used
    requires Equal(atoms, used1, atoms[i - 1].t1, t1, w) && Equal(atoms, used, atoms[i - 1].t2, t2, w)
    requires forall v :: Val(t1, v, w) == Val(t2, v, w)
    ensures Refuted(atoms, assign, {i} + used, w)
  {
    hide Val;
    EqualMore(atoms, used1, used, atoms[i - 1].t1, t1, w);
    forall v ensures SomeDiffers(atoms, assign, {i} + used, v, w) {
      if Using(atoms, used, v, w) {
        assert i in {i} + used && Differs(atoms, assign, i, v, w);
      } else {
        var j :| j in used && !(1 <= j <= |atoms| && Holds(atoms[j - 1], v, w));
        assert j in {i} + used && Differs(atoms, assign, j, v, w);
      }
    }
  }

  // ---- the loop -------------------------------------------------------------------------------

  datatype Outcome =
    | Unsat(lemmas: seq<seq<int>>)
    | SatSkeleton(assign: seq<bool>)
    | SatWitness(words: map<Name, nat>)
    | RecursionLimit

  /** The truth values of the atoms under a valuation, as a propositional model. */
  ghost function Truth(atoms: seq<Eq>, v: Valuation, w: nat): Model {
    set i: int | 1 <= i <= |atoms| && IsTrue(atoms, i, v, w)
  }

  ghost predicate IsTrue(atoms: seq<Eq>, i: int, v: Valuation, w: nat) {
    1 <= i <= |atoms| && Holds(atoms[i - 1], v, w)
  }

  /** The valuation satisfies the clauses over the atoms. */
  ghost predicate Satisfies(atoms: seq<Eq>, cnf: seq<seq<int>>, v: Valuation, w: nat) {
    HoldsAll(Truth(atoms, v, w), cnf)
  }

  /** Every clause added to the skeleton holds under every valuation. */
  ghost predicate Valid(atoms: seq<Eq>, lemmas: seq<seq<int>>, w: nat) {
    forall v :: Satisfies(atoms, lemmas, v, w)
  }

  ghost function Chosen(assign: seq<bool>): Model {
    set i: int | 1 <= i <= |assign| && IsChosen(assign, i)
  }

  ghost predicate IsChosen(assign: seq<bool>, i: int) {
    1 <= i <= |assign| && assign[i - 1]
  }

  /** The negation of the assigned literals of these atoms, in some order. */
  method Blocking(assign: seq<bool>, conflict: set<int>) returns (c: seq<int>)
    requires forall i | i in conflict :: 1 <= i <= |assign|
    ensures Negates(c, assign, conflict)
  {
    c := [];
    var i := 1;
    while i <= |assign|
      invariant 1 <= i <= |assign| + 1
      invariant forall l :: l in c <==> exists j :: j in conflict && 1 <= j < i && l == Blocked(assign, j)
    {
      if i in conflict {
        c := c + [Blocked(assign, i)];
      }
      i := i + 1;
    }
  }

  function Blocked(assign: seq<bool>, i: int): int
    requires 1 <= i <= |assign|
  {
    if assign[i - 1] then -i else i
  }

  /** The lemma holds under every valuation, and the assignment falsifies it. */
  lemma BlockingLemma(atoms: seq<Eq>, assign: seq<bool>, conflict: set<int>, c: seq<int>, w: nat)
    requires |assign| == |atoms| && Refuted(atoms, assign, conflict, w)
    requires Negates(c, assign, conflict)
    ensures ClauseOk(|atoms|, c) && !HoldsClause(Chosen(assign), c)
    ensures forall v :: HoldsClause(Truth(atoms, v, w), c)
  {
    hide Holds;
    forall v ensures HoldsClause(Truth(atoms, v, w), c) {
      assert SomeDiffers(atoms, assign, conflict, v, w);
      var i :| i in conflict && Differs(atoms, assign, i, v, w);
      assert Blocked(assign, i) in c && HoldsLit(Truth(atoms, v, w), Blocked(assign, i));
    }
    forall l | l in c ensures !HoldsLit(Chosen(assign), l) {
      var i :| i in conflict && 1 <= i <= |assign| && l == Blocked(assign, i);
    }
  }

  // ---- the solver's models over the atoms --------------------------------------------------------

  /** The models of the skeleton, over the atoms only. */
  ghost function Open(n: nat, f: seq<seq<int>>): set<Model> {
    set m: Model | m <= Vars(n) && HoldsAll(m, f)
  }

  lemma ChosenOpen(n: nat, f: seq<seq<int>>, m: Model, assign: seq<bool>)
    requires |assign| == n && HoldsAll(m, f) && forall i | 0 <= i < |f| :: ClauseOk(n, f[i])
    requires forall i | 1 <= i <= n :: assign[i - 1] == (i in m)
    ensures HoldsAll(Chosen(assign), f) && Chosen(assign) in Open(n, f)
  {
    forall i | 1 <= i <= n ensures i in Chosen(assign) <==> i in m {
      assert IsChosen(assign, i) == assign[i - 1];
    }
    AgreeAll(n, m, Chosen(assign), f);
  }

  lemma FewerOpen(n: nat, f: seq<seq<int>>, c: seq<int>, m: Model)
    requires m in Open(n, f) && !HoldsClause(m, c)
    ensures Open(n, f + [c]) < Open(n, f)
  {
    forall x | x in Open(n, f + [c]) ensures x in Open(n, f) { HoldsAllAppend(x, f, c); }
    HoldsAllAppend(m, f, c);
    assert m !in Open(n, f + [c]);
  }

  /** A theory lemma removes no valuation. */
  lemma StillSatisfied(atoms: seq<Eq>, cnf: seq<seq<int>>, f: seq<seq<int>>, c: seq<int>, w: nat)
    requires forall v | Satisfies(atoms, cnf, v, w) :: Satisfies(atoms, f, v, w)
    requires forall v :: HoldsClause(Truth(atoms, v, w), c)
    ensures forall v | Satisfies(atoms, cnf, v, w) :: Satisfies(atoms, f + [c], v, w)
  {
    forall v | Satisfies(atoms, cnf, v, w) ensures Satisfies(atoms, f + [c], v, w) {
      HoldsAllAppend(Truth(atoms, v, w), f, c);
    }
  }

  /** A whole assignment the bit-level refutes. */
  lemma WholeRefuted(atoms: seq<Eq>, assign: seq<bool>, all: set<int>, w: nat)
    requires |assign| == |atoms| && (forall v :: !Matches(atoms, assign, v, w))
    requires forall i :: i in all <==> 1 <= i <= |atoms|
    ensures Refuted(atoms, assign, all, w)
  {
    forall v ensures SomeDiffers(atoms, assign, all, v, w) {
      assert !Matches(atoms, assign, v, w);
      var k :| 0 <= k < |atoms| && Holds(atoms[k], v, w) != assign[k];
      assert k + 1 in all && Differs(atoms, assign, k + 1, v, w);
    }
  }

  /** The witness gives the atoms the truth values of the skeleton's model. */
  lemma WitnessSatisfies(atoms: seq<Eq>, assign: seq<bool>, cnf: seq<seq<int>>, f: seq<seq<int>>, v: Valuation, w: nat)
    requires |assign| == |atoms| && Matches(atoms, assign, v, w) && HoldsAll(Chosen(assign), f) && cnf <= f
    ensures Satisfies(atoms, cnf, v, w)
  {
    hide Holds;
    forall i: int ensures i in Truth(atoms, v, w) <==> i in Chosen(assign) {
      if 1 <= i <= |atoms| { assert Holds(atoms[i - 1], v, w) == assign[i - 1]; }
    }
    assert Truth(atoms, v, w) == Chosen(assign);
    Encoding.PrefixHolds(Chosen(assign), cnf, f);
  }

  method ReadAssign(s: Solver, n: nat) returns (assign: seq<bool>)
    ensures |assign| == n && forall i | 1 <= i <= n :: assign[i - 1] == (i in TrueVars(s.A()))
  {
    assign := [];
    while |assign| < n
      invariant |assign| <= n && forall i | 1 <= i <= |assign| :: assign[i - 1] == (i in TrueVars(s.A()))
    {
      assign := assign + [s.GetValue(|assign| + 1)];
    }
  }

  /** A solver with a variable for each atom and the clauses over them. */
  method Skeleton(n: nat, cnf: seq<seq<int>>) returns (s: Solver)
    requires forall i | 0 <= i < |cnf| :: ClauseOk(n, cnf[i])
    ensures fresh(s) && s.Valid() && s.nVars == n && s.formula == cnf
  {
    hide Solver.Valid;
    s := new Solver();
    var k := 0;
    while k < n
      invariant k <= n && s.Valid() && s.nVars == k && s.formula == [] && fresh(s)
    {
      var _ := s.NewVar();
      k := k + 1;
    }
    Encoding.AddAll(s, cnf);
    assert [] + cnf == cnf;
  }

  method AllAtoms(n: nat) returns (all: set<int>)
    ensures forall i :: i in all <==> 1 <= i <= n
  {
    all := {};
    var i := 0;
    while i < n
      invariant i <= n && forall j :: j in all <==> 1 <= j <= i
    {
      i := i + 1;
      all := all + {i};
    }
  }

  // ---- what an answer rests on ----------------------------------------------------------------

  /** The truth values of the atoms, as an assignment. */
  ghost function AssignOf(atoms: seq<Eq>, v: Valuation, w: nat): (assign: seq<bool>)
    ensures |assign| == |atoms| && Matches(atoms, assign, v, w)
  {
    seq(|atoms|, i requires 0 <= i < |atoms| => Holds(atoms[i], v, w))
  }

  lemma MatchesOne(atoms: seq<Eq>, assign: seq<bool>, v: Valuation, w: nat)
    requires |assign| == |atoms| && Matches(atoms, assign, v, w)
    ensures AssignOf(atoms, v, w) == assign
  {
    hide Holds;
  }

  /** The clause is the negation of the assigned literals of these atoms. */
  ghost predicate Negates(c: seq<int>, assign: seq<bool>, blame: set<int>) {
    forall l :: l in c <==> exists i :: i in blame && 1 <= i <= |assign| && l == Blocked(assign, i)
  }

  /** These atoms of the assignment are what the theory check blames, or all of them, when the check
      finds nothing wrong and bit-blasting no valuation. */
  ghost predicate Blocks(atoms: seq<Eq>, assign: seq<bool>, blame: set<int>, w: nat, allowBitblast: bool, depth: nat)
    requires |assign| == |atoms|
  {
    || (exists i :: Blames(atoms, assign, i, depth, w, blame))
    || (&& allowBitblast && CheckedOut(atoms, assign, depth, w) && (forall v :: !Matches(atoms, assign, v, w))
        && forall i :: i in blame <==> 1 <= i <= |atoms|)
  }

  /** The lemma blocks an assignment that the clauses allowed. */
  ghost predicate LemmaOf(atoms: seq<Eq>, f: seq<seq<int>>, c: seq<int>, w: nat, allowBitblast: bool, depth: nat) {
    exists assign: seq<bool>, blame: set<int> :: BlockedBy(atoms, f, c, w, allowBitblast, depth, assign, blame)
  }

  ghost predicate BlockedBy(atoms: seq<Eq>, f: seq<seq<int>>, c: seq<int>, w: nat, allowBitblast: bool, depth: nat,
      assign: seq<bool>, blame: set<int>) {
    && |assign| == |atoms| && HoldsAll(Chosen(assign), f) && Negates(c, assign, blame)
    && Blocks(atoms, assign, blame, w, allowBitblast, depth)
  }

  ghost predicate LemmasOf(atoms: seq<Eq>, cnf: seq<seq<int>>, lemmas: seq<seq<int>>, w: nat, allowBitblast: bool,
      depth: nat) {
    forall k | 0 <= k < |lemmas| :: LemmaOf(atoms, cnf + lemmas[..k], lemmas[k], w, allowBitblast, depth)
  }

  /** The assignment satisfies the clauses, and the theory check goes too deep on it. */
  ghost predicate Stops(atoms: seq<Eq>, cnf: seq<seq<int>>, assign: seq<bool>, w: nat, depth: nat) {
    && |assign| == |atoms| && HoldsAll(Chosen(assign), cnf)
    && exists i :: StopsAt(atoms, assign, i, depth, w)
  }

  /** What each answer of the loop over these atoms and clauses rests on. */
  ghost predicate Answers(atoms: seq<Eq>, cnf: seq<seq<int>>, w: nat, allowBitblast: bool, depth: nat, r: Outcome) {
    match r
    case Unsat(lemmas) =>
      Refutes(cnf + lemmas, []) && LemmasOf(atoms, cnf, lemmas, w, allowBitblast, depth)
    case SatSkeleton(assign) =>
      !allowBitblast && |assign| == |atoms| && HoldsAll(Chosen(assign), cnf) && CheckedOut(atoms, assign, depth, w)
    case SatWitness(words) =>
      && allowBitblast && Satisfies(atoms, cnf, OfWitness(words), w) && WitnessOf(atoms, words, w)
      && CheckedOut(atoms, AssignOf(atoms, OfWitness(words), w), depth, w)
    case RecursionLimit => exists assign :: Stops(atoms, cnf, assign, w, depth)
  }

  lemma NoLemmasYet(atoms: seq<Eq>, cnf: seq<seq<int>>, w: nat, allowBitblast: bool, depth: nat)
    ensures Valid(atoms, [], w) && LemmasOf(atoms, cnf, [], w, allowBitblast, depth)
  {
  }

  lemma OneMoreLemma(atoms: seq<Eq>, cnf: seq<seq<int>>, lemmas: seq<seq<int>>, c: seq<int>, w: nat,
      allowBitblast: bool, depth: nat)
    requires LemmasOf(atoms, cnf, lemmas, w, allowBitblast, depth)
    requires LemmaOf(atoms, cnf + lemmas, c, w, allowBitblast, depth)
    ensures LemmasOf(atoms, cnf, lemmas + [c], w, allowBitblast, depth)
  {
    hide LemmaOf;
    forall k | 0 <= k < |lemmas + [c]|
        ensures LemmaOf(atoms, cnf + (lemmas + [c])[..k], (lemmas + [c])[k], w, allowBitblast, depth) {
      assert (lemmas + [c])[..k] == if k < |lemmas| then lemmas[..k] else lemmas;
    }
  }

  lemma CheckBlocks(atoms: seq<Eq>, assign: seq<bool>, blame: set<int>, w: nat, allowBitblast: bool, depth: nat)
    requires |assign| == |atoms| && exists i :: Blames(atoms, assign, i, depth, w, blame)
    ensures Blocks(atoms, assign, blame, w, allowBitblast, depth)
  {
  }

  lemma WholeBlocks(atoms: seq<Eq>, assign: seq<bool>, blame: set<int>, w: nat, depth: nat)
    requires |assign| == |atoms| && CheckedOut(atoms, assign, depth, w) && (forall v :: !Matches(atoms, assign, v, w))
    requires forall i :: i in blame <==> 1 <= i <= |atoms|
    ensures Blocks(atoms, assign, blame, w, true, depth)
  {
    hide Matches, CheckedOut;
  }

  /** solve, for atoms without arrays. `depth` is the recursion limit. */
  method SolveAtoms(atoms: seq<Eq>, cnf: seq<seq<int>>, w: nat, allowBitblast: bool, depth: nat) returns (r: Outcome)
    requires forall k | 0 <= k < |atoms| :: AtomOk(atoms[k])
    requires forall i | 0 <= i < |cnf| :: ClauseOk(|atoms|, cnf[i])
    ensures Answers(atoms, cnf, w, allowBitblast, depth, r)
    ensures r.Unsat? ==> (forall v :: !Satisfies(atoms, cnf, v, w)) && Valid(atoms, r.lemmas, w)
  {
    hide Solver.Valid, AtomOk, Holds, Refuted, Chosen, Open, Matches, Valid, Satisfies, Truth, CheckedOut, StopsAt,
        Blames, LemmasOf, LemmaOf, Refutes, Blocks, Negates, AssignOf, WitnessOf;
    var s := Skeleton(|atoms|, cnf);
    var lemmas: seq<seq<int>> := [];
    NoLemmasYet(atoms, cnf, w, allowBitblast, depth);
    assert cnf + [] == cnf;
    while true
      invariant s.Valid() && s.nVars == |atoms| && s.formula == cnf + lemmas && fresh(s)
      invariant forall v | Satisfies(atoms, cnf, v, w) :: Satisfies(atoms, s.formula, v, w)
      invariant Valid(atoms, lemmas, w) && LemmasOf(atoms, cnf, lemmas, w, allowBitblast, depth)
      decreases Open(|atoms|, s.formula)
    {
      var sat := s.Solve([]);
      if !sat {
        Unsatisfied(atoms, s.formula, w);
        return Unsat(lemmas);
      }
      var assign := ReadAssign(s, |atoms|);
      s.ClausesOk();
      ChosenOpen(|atoms|, s.formula, TrueVars(s.A()), assign);
      Encoding.PrefixHolds(Chosen(assign), cnf, s.formula);
      var conflict := TheoryCheck(atoms, assign, w, depth);
      if conflict.TooDeep? {
        assert Stops(atoms, cnf, assign, w, depth);
        return RecursionLimit;
      }
      var blame: set<int>;
      if conflict.Consistent? {
        if !allowBitblast {
          return SatSkeleton(assign);
        }
        var wit := BitblastAll(atoms, assign, w);
        if wit.Some? {
          WitnessSatisfies(atoms, assign, cnf, s.formula, OfWitness(wit.value), w);
          MatchesOne(atoms, assign, OfWitness(wit.value), w);
          return SatWitness(wit.value);
        }
        blame := AllAtoms(|atoms|);
        WholeRefuted(atoms, assign, blame, w);
        WholeBlocks(atoms, assign, blame, w, depth);
      } else {
        blame := conflict.atoms;
        CheckBlocks(atoms, assign, blame, w, allowBitblast, depth);
      }
      RefutedOk(atoms, assign, blame, w);
      var c := Blocking(assign, blame);
      BlockingLemma(atoms, assign, blame, c, w);
      LemmaBlocks(atoms, s.formula, c, w, allowBitblast, depth, assign, blame);
      FewerOpen(|atoms|, s.formula, c, Chosen(assign));
      StillSatisfied(atoms, cnf, s.formula, c, w);
      MoreLemmas(atoms, lemmas, c, w);
      OneMoreLemma(atoms, cnf, lemmas, c, w, allowBitblast, depth);
      var _ := s.AddClause(c);
      assert cnf + lemmas + [c] == cnf + (lemmas + [c]);
      lemmas := lemmas + [c];
    }
  }

  lemma LemmaBlocks(atoms: seq<Eq>, f: seq<seq<int>>, c: seq<int>, w: nat, allowBitblast: bool, depth: nat,
      assign: seq<bool>, blame: set<int>)
    requires |assign| == |atoms| && HoldsAll(Chosen(assign), f) && Blocks(atoms, assign, blame, w, allowBitblast, depth)
    requires Negates(c, assign, blame)
    ensures LemmaOf(atoms, f, c, w, allowBitblast, depth)
  {
    hide Blocks, Negates;
    assert BlockedBy(atoms, f, c, w, allowBitblast, depth, assign, blame);
  }

  lemma RefutedOk(atoms: seq<Eq>, assign: seq<bool>, blame: set<int>, w: nat)
    requires |assign| == |atoms| && Refuted(atoms, assign, blame, w)
    ensures forall i | i in blame :: 1 <= i <= |assign|
  {
  }

  lemma MoreLemmas(atoms: seq<Eq>, lemmas: seq<seq<int>>, c: seq<int>, w: nat)
    requires Valid(atoms, lemmas, w) && forall v :: HoldsClause(Truth(atoms, v, w), c)
    ensures Valid(atoms, lemmas + [c], w)
  {
    forall v ensures Satisfies(atoms, lemmas + [c], v, w) {
      assert Satisfies(atoms, lemmas, v, w);
      HoldsAllAppend(Truth(atoms, v, w), lemmas, c);
    }
  }

  lemma Unsatisfied(atoms: seq<Eq>, f: seq<seq<int>>, w: nat)
    requires Refutes(f, [])
    ensures forall v :: !Satisfies(atoms, f, v, w)
  {
    forall v ensures !Satisfies(atoms, f, v, w) {
      assert HoldsLits(Truth(atoms, v, w), []);
    }
  }
}

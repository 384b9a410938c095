/** What the theory check blames: when none of it can be left out, and when substitution ends. */
module Blame {
  import opened Sets
  import opened Circuit
  import opened Modular
  import opened Terms
  import opened Coefficients
  import opened BitBlast
  import opened Substitution
  import opened Chains
  import opened Smt

  // ---- solutions of the definitions -----------------------------------------------------------

  ghost predicate Solves(subst: map<Name, Term>, v: Valuation, w: nat) {
    forall x | x in subst :: Val(Term.Var(x), v, w) == Val(subst[x], v, w)
  }

  lemma {:induction false} ChasedVal(subst: map<Name, Term>, t: Term, seen: set<Name>, v: Valuation, w: nat)
    requires Solves(subst, v, w)
    ensures Val(Chased(subst, t, seen), v, w) == Val(t, v, w)
    decreases subst.Keys - seen
  {
    hide Val;
    if t.Var? && t.name in subst && t.name !in seen {
      ChasedVal(subst, subst[t.name], seen + {t.name}, v, w);
    }
  }

  /** Substituting keeps the value in every solution. */
  lemma {:induction false} AppliedVal(subst: map<Name, Term>, t: Term, d: nat, v: Valuation, w: nat)
    requires Solves(subst, v, w) && Ends(subst, t, d)
    ensures Val(Applied(subst, t, d), v, w) == Val(t, v, w)
    decreases d
  {
    hide Solves, Pow2;
    ChasedVal(subst, t, {}, v, w);
    match Chased(subst, t, {})
    case Neg(a) => AppliedVal(subst, a, d - 1, v, w);
    case Sub(a, b) =>
      AppliedVal(subst, a, d - 1, v, w);
      AppliedVal(subst, b, d - 1, v, w);
    case Mul(a, b) =>
      AppliedVal(subst, a, d - 1, v, w);
      AppliedVal(subst, b, d - 1, v, w);
    case Add(ts) =>
      assert AllEnd(subst, ts, d - 1);
      var xs := AppliedAll(subst, ts, d - 1);
      forall k | 0 <= k < |ts| ensures Val(xs[k], v, w) == Val(ts[k], v, w) { AppliedVal(subst, ts[k], d - 1, v, w); }
      SumsEqual(ts, xs, |ts|, v, w);
    case _ =>
  }

  /** More depth changes nothing. */
  lemma {:induction false} AppliedMore(subst: map<Name, Term>, t: Term, d: nat, more: nat)
    requires Ends(subst, t, d) && d <= more
    ensures Ends(subst, t, more) && Applied(subst, t, more) == Applied(subst, t, d)
    decreases d
  {
    hide Chased;
    EndsMore(subst, t, d, more);
    match Chased(subst, t, {})
    case Neg(a) => AppliedMore(subst, a, d - 1, more - 1);
    case Sub(a, b) =>
      AppliedMore(subst, a, d - 1, more - 1);
      AppliedMore(subst, b, d - 1, more - 1);
    case Mul(a, b) =>
      AppliedMore(subst, a, d - 1, more - 1);
      AppliedMore(subst, b, d - 1, more - 1);
    case Add(ts) =>
      assert AllEnd(subst, ts, d - 1) && AllEnd(subst, ts, more - 1);
      forall k | 0 <= k < |ts| ensures Applied(subst, ts[k], more - 1) == Applied(subst, ts[k], d - 1) {
        AppliedMore(subst, ts[k], d - 1, more - 1);
      }
      assert AppliedAll(subst, ts, more - 1) == AppliedAll(subst, ts, d - 1);
    case _ =>
  }

  lemma AppliedSame(subst: map<Name, Term>, t: Term, d: nat, d': nat)
    requires Ends(subst, t, d) && Ends(subst, t, d')
    ensures Applied(subst, t, d) == Applied(subst, t, d')
  {
    hide Ends, Applied;
    AppliedMore(subst, t, d, d + d');
    AppliedMore(subst, t, d', d + d');
  }

  /** The valuation in which every defined variable has the value of its substituted definition. */
  ghost function Solution(subst: map<Name, Term>, v: Valuation, depth: nat, w: nat): Valuation {
    Valuation((x: Name) => if x in subst && Ends(subst, Term.Var(x), depth)
        then Val(Applied(subst, Term.Var(x), depth), v, w) else v.words(x),
              v.arrays)
  }

  ghost predicate AllDefined(subst: map<Name, Term>, depth: nat) {
    forall x | x in subst :: Ends(subst, Term.Var(x), depth)
  }

  lemma {:induction false} SolutionVal(subst: map<Name, Term>, t: Term, d: nat, depth: nat, v: Valuation, w: nat)
    requires Ends(subst, t, d) && AllDefined(subst, depth) && ArrayFree(t)
    ensures Val(t, Solution(subst, v, depth, w), w) == Val(Applied(subst, t, d), v, w)
    decreases t
  {
    var s := Solution(subst, v, depth, w);
    match t
    case Var(x) =>
      if x in subst {
        AppliedSame(subst, t, d, depth);
        var n := Val(Applied(subst, t, depth), v, w);
        assert s.words(x) == n;
        Remainder(n, Pow2(w), 0, n);
      }
    case Const(_) =>
    case Neg(a) => SolutionVal(subst, a, d - 1, depth, v, w);
    case Sub(a, b) =>
      SolutionVal(subst, a, d - 1, depth, v, w);
      SolutionVal(subst, b, d - 1, depth, v, w);
    case Mul(a, b) =>
      SolutionVal(subst, a, d - 1, depth, v, w);
      SolutionVal(subst, b, d - 1, depth, v, w);
    case Add(ts) =>
      assert AllEnd(subst, ts, d - 1);
      var xs := AppliedAll(subst, ts, d - 1);
      forall k | 0 <= k < |ts|
          ensures Val(ts[k], s, w) == Val(xs[k], v, w) { SolutionVal(subst, ts[k], d - 1, depth, v, w); }
      SumsAlike(ts, xs, |ts|, s, v, w);
  }

  lemma {:induction false} SumsAlike(ts: seq<Term>, xs: seq<Term>, k: nat, s: Valuation, v: Valuation, w: nat)
    requires |xs| == |ts| && k <= |ts| && forall j | 0 <= j < k :: Val(ts[j], s, w) == Val(xs[j], v, w)
    ensures SumVal(Add(ts), k, s, w) == SumVal(Add(xs), k, v, w)
    decreases k
  {
    if k > 0 {
      SumsAlike(ts, xs, k - 1, s, v, w);
    }
  }

  /** What was seen does not matter while ranks fall. */
  lemma {:induction false} SeenAlike(subst: map<Name, Term>, rank: Name -> nat, t: Term, seen: set<Name>,
      seen': set<Name>, r: nat)
    requires Ranked(subst, rank) && Below(subst, rank, t, r)
    requires forall x | x in seen + seen' && x in subst :: rank(x) >= r
    ensures Chased(subst, t, seen) == Chased(subst, t, seen')
    decreases r
  {
    if t.Var? && t.name in subst {
      assert t.name in VarNames(t);
      assert Below(subst, rank, subst[t.name], rank(t.name));
      SeenAlike(subst, rank, subst[t.name], seen + {t.name}, seen' + {t.name}, rank(t.name));
    }
  }

  lemma StepAlike(subst: map<Name, Term>, rank: Name -> nat, x: Name)
    requires Ranked(subst, rank) && x in subst
    ensures Chased(subst, Term.Var(x), {}) == Chased(subst, subst[x], {})
  {
    assert Below(subst, rank, subst[x], rank(x));
    SeenAlike(subst, rank, subst[x], {x}, {}, rank(x));
    assert {} + {x} == {x};
  }

  lemma SameEnd(subst: map<Name, Term>, t: Term, u: Term, d: nat)
    requires Chased(subst, t, {}) == Chased(subst, u, {}) && Ends(subst, t, d)
    ensures Ends(subst, u, d) && Applied(subst, u, d) == Applied(subst, t, d)
  {
  }

  /** It is a solution. */
  lemma SolutionSolves(subst: map<Name, Term>, rank: Name -> nat, depth: nat, v: Valuation, w: nat)
    requires Ranked(subst, rank) && AllDefined(subst, depth) && forall x | x in subst :: ArrayFree(subst[x])
    ensures Solves(subst, Solution(subst, v, depth, w), w)
  {
    hide Val, Ends, Applied, Chased, Solution;
    var s := Solution(subst, v, depth, w);
    forall x | x in subst ensures Val(Term.Var(x), s, w) == Val(subst[x], s, w) {
      StepAlike(subst, rank, x);
      SameEnd(subst, Term.Var(x), subst[x], depth);
      SolutionVal(subst, Term.Var(x), depth, depth, v, w);
      SolutionVal(subst, subst[x], depth, depth, v, w);
    }
  }

  lemma OneDepth(subst: map<Name, Term>, rank: Name -> nat, t: Term, u: Term) returns (d: nat)
    requires Ranked(subst, rank)
    ensures AllDefined(subst, d) && Ends(subst, t, d) && Ends(subst, u, d)
  {
    hide Ends, Ranked;
    var a := EnoughDepth(subst, rank, t);
    var b := EnoughDepth(subst, rank, u);
    d := a + b;
    EndsMore(subst, t, a, d);
    EndsMore(subst, u, b, d);
    var rest := subst.Keys;
    while rest != {}
      invariant rest <= subst.Keys && forall x | x in subst && x !in rest :: Ends(subst, Term.Var(x), d)
      invariant Ends(subst, t, d) && Ends(subst, u, d)
      decreases rest
    {
      var x := Pick(rest);
      var c := EnoughDepth(subst, rank, Term.Var(x));
      forall y | y in subst && y !in rest
          ensures Ends(subst, Term.Var(y), d + c) { EndsMore(subst, Term.Var(y), d, d + c); }
      EndsMore(subst, Term.Var(x), c, d + c);
      EndsMore(subst, t, d, d + c);
      EndsMore(subst, u, d, d + c);
      rest := rest - {x};
      d := d + c;
    }
  }

  // ---- which equalities are needed ------------------------------------------------------------

  /** Substituting the definitions makes the terms the same function mod 2^w. */
  ghost predicate SameFunction(subst: map<Name, Term>, t: Term, u: Term, w: nat) {
    exists d: nat :: SameAt(subst, t, u, d, w)
  }

  ghost predicate SameAt(subst: map<Name, Term>, t: Term, u: Term, d: nat, w: nat) {
    && Ends(subst, t, d) && Ends(subst, u, d)
    && forall v :: Val(Applied(subst, t, d), v, w) == Val(Applied(subst, u, d), v, w)
  }

  /** In every solution the terms are equal just when substituting makes them the same function. */
  lemma SolutionsEqual(subst: map<Name, Term>, rank: Name -> nat, t: Term, u: Term, w: nat)
    requires Ranked(subst, rank) && ArrayFree(t) && ArrayFree(u) && forall x | x in subst :: ArrayFree(subst[x])
    ensures (forall v | Solves(subst, v, w) :: Val(t, v, w) == Val(u, v, w)) <==> SameFunction(subst, t, u, w)
  {
    hide Val, Ends, Applied, Solves, Ranked, Solution, ArrayFree, AllDefined;
    if forall v | Solves(subst, v, w) :: Val(t, v, w) == Val(u, v, w) {
      var d := OneDepth(subst, rank, t, u);
      forall v ensures Val(Applied(subst, t, d), v, w) == Val(Applied(subst, u, d), v, w) {
        SolutionSolves(subst, rank, d, v, w);
        SolutionVal(subst, t, d, d, v, w);
        SolutionVal(subst, u, d, d, v, w);
      }
      assert SameAt(subst, t, u, d, w);
    }
    if SameFunction(subst, t, u, w) {
      var d: nat :| SameAt(subst, t, u, d, w);
      forall v | Solves(subst, v, w) ensures Val(t, v, w) == Val(u, v, w) {
        AppliedVal(subst, t, d, v, w);
        AppliedVal(subst, u, d, v, w);
      }
    }
  }

  /** The definitions that these equalities give. */
  ghost function Only(subst: map<Name, Term>, eqs: map<Name, int>, ws: set<int>): map<Name, Term>
    requires subst.Keys == eqs.Keys
  {
    map x | x in subst && eqs[x] in ws :: subst[x]
  }

  ghost function Given(atoms: seq<Eq>, assign: seq<bool>, ws: set<int>): map<Name, Term>
    requires |assign| == |atoms|
  {
    SameKeys(atoms, assign, |atoms|);
    Only(Definitions(atoms, assign, |atoms|), Sources(atoms, assign, |atoms|), ws)
  }

  lemma {:induction false} DefinitionsOk(atoms: seq<Eq>, assign: seq<bool>, k: nat)
    requires k <= |atoms| == |assign| && forall j | 0 <= j < |atoms| :: AtomOk(atoms[j])
    ensures SubstOk(atoms, assign, Definitions(atoms, assign, k), Sources(atoms, assign, k))
  {
    hide AtomOk, SubstOk;
    SameKeys(atoms, assign, k);
    if k == 0 {
      NoSubst(atoms, assign);
    } else {
      DefinitionsOk(atoms, assign, k - 1);
      SameKeys(atoms, assign, k - 1);
      var subst, eqs := Definitions(atoms, assign, k - 1), Sources(atoms, assign, k - 1);
      var d := Defines(atoms[k - 1], subst.Keys);
      if assign[k - 1] && d.Some? {
        SubstAdd(atoms, assign, subst, eqs, k, d.value.0, d.value.1);
      }
    }
  }

  /** An equality that gives a definition holds just when the definition does. */
  lemma SourceHolds(atoms: seq<Eq>, assign: seq<bool>, subst: map<Name, Term>, eqs: map<Name, int>, x: Name,
      v: Valuation, w: nat)
    requires |assign| == |atoms| && SubstOk(atoms, assign, subst, eqs) && x in subst
    ensures 1 <= eqs[x] <= |atoms| && assign[eqs[x] - 1]
    ensures Holds(atoms[eqs[x] - 1], v, w) <==> Val(Term.Var(x), v, w) == Val(subst[x], v, w)
  {
    hide Val, Lowerable;
  }

  ghost predicate AllSources(eqs: map<Name, int>, ws: set<int>) {
    forall j | j in ws :: exists x :: x in eqs && eqs[x] == j
  }

  /** The equalities `ws` hold just in the solutions of their definitions. */
  lemma HoldTogether(atoms: seq<Eq>, assign: seq<bool>, subst: map<Name, Term>, eqs: map<Name, int>, ws: set<int>,
      v: Valuation, w: nat)
    requires |assign| == |atoms| && subst.Keys == eqs.Keys && SubstOk(atoms, assign, subst, eqs) && AllSources(eqs, ws)
    ensures Using(atoms, ws, v, w) <==> Solves(Only(subst, eqs, ws), v, w)
  {
    hide Val, SubstOk, Holds;
    var only := Only(subst, eqs, ws);
    if Using(atoms, ws, v, w) {
      forall x | x in only ensures Val(Term.Var(x), v, w) == Val(only[x], v, w) {
        SourceHolds(atoms, assign, subst, eqs, x, v, w);
      }
    }
    if Solves(only, v, w) {
      forall j | j in ws ensures 1 <= j <= |atoms| && Holds(atoms[j - 1], v, w) {
        var x :| x in eqs && eqs[x] == j;
        SourceHolds(atoms, assign, subst, eqs, x, v, w);
        assert x in only;
      }
    }
  }

  /** The disequality with the equalities `ws` cannot have their assigned truth values together. */
  lemma RefutedMeans(atoms: seq<Eq>, assign: seq<bool>, i: int, ws: set<int>, w: nat)
    requires |assign| == |atoms| && 1 <= i <= |atoms| && !assign[i - 1]
    requires forall j | j in ws :: 1 <= j <= |atoms| && assign[j - 1]
    ensures Refuted(atoms, assign, {i} + ws, w) <==> forall v | Using(atoms, ws, v, w) :: Holds(atoms[i - 1], v, w)
  {
    hide Holds;
    var all := {i} + ws;
    if Refuted(atoms, assign, all, w) {
      forall v | Using(atoms, ws, v, w) ensures Holds(atoms[i - 1], v, w) {
        assert SomeDiffers(atoms, assign, all, v, w);
        var j :| j in all && Differs(atoms, assign, j, v, w);
      }
    }
    if forall v | Using(atoms, ws, v, w) :: Holds(atoms[i - 1], v, w) {
      forall v ensures SomeDiffers(atoms, assign, all, v, w) {
        if Using(atoms, ws, v, w) {
          assert i in all && Differs(atoms, assign, i, v, w);
        } else {
          var j :| j in ws && !(1 <= j <= |atoms| && Holds(atoms[j - 1], v, w));
          assert j in all && Differs(atoms, assign, j, v, w);
        }
      }
    }
  }

  /** With definitions that can be ranked, a disequality and some of the defining equalities are
      inconsistent if and only if substituting just those definitions makes its sides the same
      function. */
  lemma RankedRefuted(atoms: seq<Eq>, assign: seq<bool>, i: int, ws: set<int>, rank: Name -> nat, w: nat)
    requires |assign| == |atoms| && (forall j | 0 <= j < |atoms| :: AtomOk(atoms[j])) && 1 <= i <= |atoms|
        && !assign[i - 1]
    requires Ranked(Given(atoms, assign, ws), rank) && AllSources(Sources(atoms, assign, |atoms|), ws)
    ensures Refuted(atoms, assign, {i} + ws, w) <==>
        SameFunction(Given(atoms, assign, ws), atoms[i - 1].t1, atoms[i - 1].t2, w)
  {
    hide Definitions, Sources, SubstOk, AtomOk, Val, SameFunction, Refuted, Using, Solves;
    var subst, eqs := Definitions(atoms, assign, |atoms|), Sources(atoms, assign, |atoms|);
    SameKeys(atoms, assign, |atoms|);
    DefinitionsOk(atoms, assign, |atoms|);
    var only := Only(subst, eqs, ws);
    SourcesTrue(atoms, assign, subst, eqs, ws);
    RefutedMeans(atoms, assign, i, ws, w);
    forall v ensures Using(atoms, ws, v, w) <==> Solves(only, v, w) {
      HoldTogether(atoms, assign, subst, eqs, ws, v, w);
    }
    DefinedFree(atoms, assign, subst, eqs);
    AtomFree(atoms[i - 1]);
    SolutionsEqual(only, rank, atoms[i - 1].t1, atoms[i - 1].t2, w);
  }

  lemma SourcesTrue(atoms: seq<Eq>, assign: seq<bool>, subst: map<Name, Term>, eqs: map<Name, int>, ws: set<int>)
    requires |assign| == |atoms| && SubstOk(atoms, assign, subst, eqs) && AllSources(eqs, ws)
    ensures forall j | j in ws :: 1 <= j <= |atoms| && assign[j - 1]
  {
    hide Lowerable;
  }

  lemma DefinedFree(atoms: seq<Eq>, assign: seq<bool>, subst: map<Name, Term>, eqs: map<Name, int>)
    requires |assign| == |atoms| && SubstOk(atoms, assign, subst, eqs)
    ensures forall x | x in subst :: ArrayFree(subst[x])
  {
    forall x | x in subst ensures ArrayFree(subst[x]) { LowerableFree(subst[x]); }
  }

  lemma AtomFree(a: Eq)
    requires AtomOk(a)
    ensures ArrayFree(a.t1) && ArrayFree(a.t2)
  {
    LowerableFree(a.t1);
    LowerableFree(a.t2);
  }

  // ---- when nothing can be left out ---------------------------------------------------------------

  lemma {:induction false} ChasedUsesIn(subst: map<Name, Term>, eqs: map<Name, int>, t: Term, seen: set<Name>)
    requires subst.Keys == eqs.Keys
    ensures AllSources(eqs, ChasedUses(subst, eqs, t, seen))
    decreases subst.Keys - seen
  {
    if t.Var? && t.name in subst && t.name !in seen {
      ChasedUsesIn(subst, eqs, subst[t.name], seen + {t.name});
    }
  }

  /** Only equalities that give definitions are used. */
  lemma {:induction false} UsesIn(subst: map<Name, Term>, eqs: map<Name, int>, t: Term, depth: nat)
    requires subst.Keys == eqs.Keys && Ends(subst, t, depth)
    ensures AllSources(eqs, Uses(subst, eqs, t, depth))
    decreases depth, 0
  {
    ChasedUsesIn(subst, eqs, t, {});
    match Chased(subst, t, {})
    case Neg(a) => UsesIn(subst, eqs, a, depth - 1);
    case Sub(a, b) =>
      UsesIn(subst, eqs, a, depth - 1);
      UsesIn(subst, eqs, b, depth - 1);
    case Mul(a, b) =>
      UsesIn(subst, eqs, a, depth - 1);
      UsesIn(subst, eqs, b, depth - 1);
    case Add(ts) =>
      assert AllEnd(subst, ts, depth - 1);
      UsesAllIn(subst, eqs, ts, |ts|, depth - 1);
    case _ =>
  }

  lemma {:induction false} UsesAllIn(subst: map<Name, Term>, eqs: map<Name, int>, ts: seq<Term>, n: nat, depth: nat)
    requires subst.Keys == eqs.Keys && n <= |ts| && forall k | 0 <= k < n :: Ends(subst, ts[k], depth)
    ensures AllSources(eqs, UsesAll(subst, eqs, ts, n, depth))
    decreases depth, 1, n
  {
    if n > 0 {
      UsesAllIn(subst, eqs, ts, n - 1, depth);
      UsesIn(subst, eqs, ts[n - 1], depth);
    }
  }

  lemma UsedSources(atoms: seq<Eq>, assign: seq<bool>, i: int, depth: nat, w: nat)
    requires |assign| == |atoms| && Clash(atoms, assign, i, depth, w)
    ensures AllSources(Sources(atoms, assign, |atoms|), UsedBy(atoms, assign, i, depth, w))
  {
    hide Definitions, Sources, Ends, Uses;
    var subst, eqs := Definitions(atoms, assign, |atoms|), Sources(atoms, assign, |atoms|);
    SameKeys(atoms, assign, |atoms|);
    UsesIn(subst, eqs, atoms[i - 1].t1, depth);
    UsesIn(subst, eqs, atoms[i - 1].t2, depth);
  }

  /** The defining equalities alone are consistent. */
  lemma Together(atoms: seq<Eq>, assign: seq<bool>, ws: set<int>, rank: Name -> nat, w: nat)
    requires |assign| == |atoms| && forall j | 0 <= j < |atoms| :: AtomOk(atoms[j])
    requires Ranked(Given(atoms, assign, ws), rank) && AllSources(Sources(atoms, assign, |atoms|), ws)
    ensures !Refuted(atoms, assign, ws, w)
  {
    hide Definitions, Sources, SubstOk, AtomOk, Val, Solves, Ends, Solution, Holds;
    var subst, eqs := Definitions(atoms, assign, |atoms|), Sources(atoms, assign, |atoms|);
    SameKeys(atoms, assign, |atoms|);
    DefinitionsOk(atoms, assign, |atoms|);
    DefinedFree(atoms, assign, subst, eqs);
    var only := Only(subst, eqs, ws);
    var any := Valuation(x => 0, x => j => 0);
    var d := OneDepth(only, rank, Term.Const(0), Term.Const(0));
    SolutionSolves(only, rank, d, any, w);
    var v := Solution(only, any, d, w);
    HoldTogether(atoms, assign, subst, eqs, ws, v, w);
    SourcesTrue(atoms, assign, subst, eqs, ws);
    assert !SomeDiffers(atoms, assign, ws, v, w);
  }

  lemma RefutedMore(atoms: seq<Eq>, assign: seq<bool>, b: set<int>, c: set<int>, w: nat)
    requires |assign| == |atoms| && Refuted(atoms, assign, b, w) && b <= c && forall j | j in c :: 1 <= j <= |atoms|
    ensures Refuted(atoms, assign, c, w)
  {
    forall v ensures SomeDiffers(atoms, assign, c, v, w) {
      assert SomeDiffers(atoms, assign, b, v, w);
      var j :| j in b && Differs(atoms, assign, j, v, w);
      assert j in c && Differs(atoms, assign, j, v, w);
    }
  }

  /** Without the equality `u` among those used, the others still make the sides the same function. */
  ghost predicate Spare(atoms: seq<Eq>, assign: seq<bool>, i: int, used: set<int>, u: int, w: nat)
    requires |assign| == |atoms| && 1 <= i <= |atoms|
  {
    SameFunction(Given(atoms, assign, used - {u}), atoms[i - 1].t1, atoms[i - 1].t2, w)
  }

  lemma MinimalRanked(atoms: seq<Eq>, assign: seq<bool>, i: int, depth: nat, rank: Name -> nat, w: nat, blame: set<int>)
    requires |assign| == |atoms| && (forall j | 0 <= j < |atoms| :: AtomOk(atoms[j]))
        && Blames(atoms, assign, i, depth, w, blame)
    requires Ranked(Given(atoms, assign, UsedBy(atoms, assign, i, depth, w)), rank)
    ensures (forall b | b < blame :: !Refuted(atoms, assign, b, w)) <==>
            forall u | u in UsedBy(atoms, assign, i, depth, w) ::
                !Spare(atoms, assign, i, UsedBy(atoms, assign, i, depth, w), u, w)
  {
    hide Definitions, Sources, AtomOk, Refuted, SameFunction, UsedBy, Clash, AllSources;
    var used := UsedBy(atoms, assign, i, depth, w);
    UsedSources(atoms, assign, i, depth, w);
    ClashAt(atoms, assign, i, depth, w);
    if forall b | b < blame :: !Refuted(atoms, assign, b, w) {
      forall u | u in used ensures !Spare(atoms, assign, i, used, u, w) {
        SpareRefutes(atoms, assign, i, used, u, rank, w);
        assert {i} + (used - {u}) < blame;
      }
    }
    if forall u | u in used :: !Spare(atoms, assign, i, used, u, w) {
      forall b | b < blame ensures !Refuted(atoms, assign, b, w) {
        Less(atoms, assign, i, used, b, rank, w);
      }
    }
  }

  // ---- equalities on a cycle of variables ---------------------------------------------------------

  lemma {:induction false} SourcesInjective(atoms: seq<Eq>, assign: seq<bool>, k: nat)
    requires k <= |atoms| == |assign|
    ensures Injective(Sources(atoms, assign, k))
        && forall x | x in Sources(atoms, assign, k) :: Sources(atoms, assign, k)[x] <= k
    decreases k
  {
    hide Defines;
    if k > 0 {
      SourcesInjective(atoms, assign, k - 1);
      SameKeys(atoms, assign, k - 1);
    }
  }

  /** The chains from the equalities used go on among them. */
  lemma UsedClosed(atoms: seq<Eq>, assign: seq<bool>, i: int, depth: nat, w: nat)
    requires |assign| == |atoms| && Clash(atoms, assign, i, depth, w)
    ensures Sources(atoms, assign, |atoms|).Keys == Definitions(atoms, assign, |atoms|).Keys
        && Injective(Sources(atoms, assign, |atoms|))
    ensures Closed(Definitions(atoms, assign, |atoms|), Sources(atoms, assign, |atoms|),
        UsedBy(atoms, assign, i, depth, w))
  {
    hide Definitions, Sources, Ends, Uses, Closed, Injective;
    var subst, eqs := Definitions(atoms, assign, |atoms|), Sources(atoms, assign, |atoms|);
    SameKeys(atoms, assign, |atoms|);
    SourcesInjective(atoms, assign, |atoms|);
    UsesClosed(subst, eqs, atoms[i - 1].t1, depth);
    UsesClosed(subst, eqs, atoms[i - 1].t2, depth);
    ClosedBoth(subst, eqs, Uses(subst, eqs, atoms[i - 1].t1, depth), Uses(subst, eqs, atoms[i - 1].t2, depth));
  }

  ghost predicate Rankable(defs: map<Name, Term>) {
    exists rank: Name -> nat :: Ranked(defs, rank)
  }

  /** No chain from a definition used comes back to it. */
  ghost predicate NoCycle(atoms: seq<Eq>, assign: seq<bool>, used: set<int>)
    requires |assign| == |atoms|
  {
    SameKeys(atoms, assign, |atoms|);
    Straight(Definitions(atoms, assign, |atoms|), Sources(atoms, assign, |atoms|), used)
  }

  /** The definitions used can be ranked if and only if none is on a cycle of variables. */
  lemma RankableIff(atoms: seq<Eq>, assign: seq<bool>, i: int, depth: nat, w: nat)
    requires |assign| == |atoms| && (forall j | 0 <= j < |atoms| :: AtomOk(atoms[j]))
        && Clash(atoms, assign, i, depth, w)
    ensures Rankable(Given(atoms, assign, UsedBy(atoms, assign, i, depth, w))) <==>
            NoCycle(atoms, assign, UsedBy(atoms, assign, i, depth, w))
  {
    hide Clash, UsedBy, Definitions, Sources, Ranked, Loops, Straight;
    var used := UsedBy(atoms, assign, i, depth, w);
    if NoCycle(atoms, assign, used) {
      var d := StraightRanked(atoms, assign, i, depth, w);
    }
    if Rankable(Given(atoms, assign, used)) {
      var rank: Name -> nat :| Ranked(Given(atoms, assign, used), rank);
      RankedStraight(atoms, assign, i, depth, w, rank);
    }
  }

  lemma StraightRanked(atoms: seq<Eq>, assign: seq<bool>, i: int, depth: nat, w: nat) returns (rank: Name -> nat)
    requires |assign| == |atoms| && (forall j | 0 <= j < |atoms| :: AtomOk(atoms[j]))
        && Clash(atoms, assign, i, depth, w)
    requires NoCycle(atoms, assign, UsedBy(atoms, assign, i, depth, w))
    ensures Ranked(Given(atoms, assign, UsedBy(atoms, assign, i, depth, w)), rank)
  {
    hide Definitions, Sources, Ends, Uses, Loops, Straight, Injective, VarNames, Closed, AtomOk, Lowerable, ChainRank,
        SamePolynomial;
    var subst, eqs := Definitions(atoms, assign, |atoms|), Sources(atoms, assign, |atoms|);
    var used := UsedBy(atoms, assign, i, depth, w);
    UsedClosed(atoms, assign, i, depth, w);
    DefinitionsLowerable(atoms, assign);
    rank := ChainRank(subst, depth);
    var only := Given(atoms, assign, used);
    forall x, y | x in only && y in VarNames(only[x]) && y in only ensures rank(y) < rank(x) {
      UsedEnds(subst, eqs, if eqs[x] in Uses(subst, eqs, atoms[i - 1].t1, depth) then atoms[i - 1].t1
          else atoms[i - 1].t2, depth, x);
      UsedStraight(subst, eqs, used, x);
      ChainFalls(subst, depth, x, y);
    }
  }

  lemma UsedStraight(subst: map<Name, Term>, eqs: map<Name, int>, used: set<int>, x: Name)
    requires subst.Keys == eqs.Keys && Straight(subst, eqs, used) && x in subst && eqs[x] in used
    ensures !Loops(subst, x)
  {
  }

  lemma RankedStraight(atoms: seq<Eq>, assign: seq<bool>, i: int, depth: nat, w: nat, rank: Name -> nat)
    requires |assign| == |atoms| && Clash(atoms, assign, i, depth, w)
    requires Ranked(Given(atoms, assign, UsedBy(atoms, assign, i, depth, w)), rank)
    ensures NoCycle(atoms, assign, UsedBy(atoms, assign, i, depth, w))
  {
    hide Definitions, Sources, Clash, UsedBy, Closed, Injective, VarNames, Followed, Ranked;
    var subst, eqs := Definitions(atoms, assign, |atoms|), Sources(atoms, assign, |atoms|);
    var used := UsedBy(atoms, assign, i, depth, w);
    UsedClosed(atoms, assign, i, depth, w);
    var only := Given(atoms, assign, used);
    forall x | x in subst && eqs[x] in used ensures !Loops(subst, x) {
      if Loops(subst, x) {
        OnCycle(subst, eqs, used, x);
        assert Below(only, rank, subst[x], rank(x)) by { RankedBelow(only, rank, x); }
        FollowedBelow(subst, only, rank, subst[x], {}, rank(x), x);
      }
    }
  }

  lemma RankedBelow(only: map<Name, Term>, rank: Name -> nat, x: Name)
    requires Ranked(only, rank) && x in only
    ensures Below(only, rank, only[x], rank(x))
  {
  }

  /** The chain from a definition used stays among them. */
  lemma OnCycle(subst: map<Name, Term>, eqs: map<Name, int>, used: set<int>, x: Name)
    requires subst.Keys == eqs.Keys && Closed(subst, eqs, used) && x in subst && eqs[x] in used
    ensures forall y | y in Followed(subst, subst[x], {}) :: y in subst && eqs[y] in used
  {
    hide Followed;
    StaysClosed(subst, eqs, used, subst[x], {});
  }

  /** An equality on a cycle of variables follows from the others on it. */
  lemma CycleSpare(atoms: seq<Eq>, assign: seq<bool>, subst: map<Name, Term>, eqs: map<Name, int>, ws: set<int>,
      x: Name, v: Valuation, w: nat)
    requires |assign| == |atoms| && subst.Keys == eqs.Keys && SubstOk(atoms, assign, subst, eqs) && Injective(eqs)
    requires x in Only(subst, eqs, ws) && Loops(Only(subst, eqs, ws), x)
    ensures Using(atoms, ws - {eqs[x]}, v, w) <==> Using(atoms, ws, v, w)
  {
    hide Val, SubstOk, Holds, Followed;
    var only := Only(subst, eqs, ws);
    if Using(atoms, ws - {eqs[x]}, v, w) {
      FollowedKeys(only, only[x], {});
      forall y | y in Followed(only, only[x], {}) && y != x
          ensures y in only && Val(Term.Var(y), v, w) == Val(only[y], v, w) {
        SourceHolds(atoms, assign, subst, eqs, y, v, w);
        assert eqs[y] in ws - {eqs[x]};
      }
      FollowedVal(only, only[x], {}, x, v, w);
      SourceHolds(atoms, assign, subst, eqs, x, v, w);
      forall j | j in ws ensures 1 <= j <= |atoms| && Holds(atoms[j - 1], v, w) {
        if j != eqs[x] { assert j in ws - {eqs[x]}; }
      }
    }
  }

  /** What the sides use ends at the depth they end at. */
  lemma UsedDefined(atoms: seq<Eq>, assign: seq<bool>, i: int, depth: nat, w: nat)
    requires |assign| == |atoms| && Clash(atoms, assign, i, depth, w)
    ensures AllDefined(Given(atoms, assign, UsedBy(atoms, assign, i, depth, w)), depth)
  {
    hide Definitions, Sources, Ends, Uses, Closed, Injective, SamePolynomial;
    var subst, eqs := Definitions(atoms, assign, |atoms|), Sources(atoms, assign, |atoms|);
    UsedClosed(atoms, assign, i, depth, w);
    var only := Given(atoms, assign, UsedBy(atoms, assign, i, depth, w));
    forall x | x in only ensures Ends(only, Term.Var(x), depth) {
      UsedEnds(subst, eqs, if eqs[x] in Uses(subst, eqs, atoms[i - 1].t1, depth) then atoms[i - 1].t1
          else atoms[i - 1].t2, depth, x);
      FewerEnds(subst, only, Term.Var(x), depth);
    }
  }

  /** A cycle through a definition used is one among the definitions used. */
  lemma CycleWithin(subst: map<Name, Term>, eqs: map<Name, int>, used: set<int>, x: Name)
    requires subst.Keys == eqs.Keys && Closed(subst, eqs, used) && x in subst && eqs[x] in used && Loops(subst, x)
    ensures x in Only(subst, eqs, used) && Loops(Only(subst, eqs, used), x)
  {
    hide Closed, Followed;
    OnCycle(subst, eqs, used, x);
    FollowedWithin(subst, Only(subst, eqs, used), subst[x], {});
  }

  /** So what is blamed is inconsistent without it. */
  lemma CycleRefutes(atoms: seq<Eq>, assign: seq<bool>, i: int, depth: nat, w: nat)
    requires |assign| == |atoms| && (forall j | 0 <= j < |atoms| :: AtomOk(atoms[j]))
        && Clash(atoms, assign, i, depth, w)
    requires Refuted(atoms, assign, {i} + UsedBy(atoms, assign, i, depth, w), w)
    requires !NoCycle(atoms, assign, UsedBy(atoms, assign, i, depth, w))
    ensures exists b :: b < {i} + UsedBy(atoms, assign, i, depth, w) && Refuted(atoms, assign, b, w)
  {
    hide Definitions, Sources, Clash, UsedBy, Closed, Injective, Loops, SubstOk, AtomOk, Refuted, Using, Holds;
    var subst, eqs := Definitions(atoms, assign, |atoms|), Sources(atoms, assign, |atoms|);
    var used := UsedBy(atoms, assign, i, depth, w);
    UsedClosed(atoms, assign, i, depth, w);
    DefinitionsOk(atoms, assign, |atoms|);
    ClashAt(atoms, assign, i, depth, w);
    var x :| x in subst && eqs[x] in used && Loops(subst, x);
    var fewer := used - {eqs[x]};
    CycleWithin(subst, eqs, used, x);
    RefutedMeans(atoms, assign, i, used, w);
    RefutedMeans(atoms, assign, i, fewer, w);
    forall v | Using(atoms, fewer, v, w) ensures Holds(atoms[i - 1], v, w) {
      CycleSpare(atoms, assign, subst, eqs, used, x, v, w);
    }
    assert {i} + fewer < {i} + used by { assert eqs[x] in used && eqs[x] != i; }
  }

  /** Without the equalities on its cycles, a choice of equalities whose definitions end can be
      ranked, and holds as before. */
  lemma {:induction false} Straighten(atoms: seq<Eq>, assign: seq<bool>, ws: set<int>, depth: nat)
      returns (core: set<int>)
    requires |assign| == |atoms| && forall j | 0 <= j < |atoms| :: AtomOk(atoms[j])
    requires AllDefined(Given(atoms, assign, ws), depth)
    ensures core <= ws && Rankable(Given(atoms, assign, core))
    ensures forall v, w :: Using(atoms, core, v, w) <==> Using(atoms, ws, v, w)
    decreases ws
  {
    hide Definitions, Sources, Injective, Loops, SubstOk, AtomOk, Using, Only, AllDefined, Ends, ChainRank, VarNames,
        Lowerable;
    var subst, eqs := Definitions(atoms, assign, |atoms|), Sources(atoms, assign, |atoms|);
    SameKeys(atoms, assign, |atoms|);
    SourcesInjective(atoms, assign, |atoms|);
    var only := Only(subst, eqs, ws);
    if x :| x in only && Loops(only, x) {
      OnlyFrom(subst, eqs, ws, x);
      var fewer := ws - {eqs[x]};
      FewerDefined(subst, eqs, ws, fewer, depth);
      core := Straighten(atoms, assign, fewer, depth);
      DefinitionsOk(atoms, assign, |atoms|);
      forall v, w: nat ensures Using(atoms, fewer, v, w) <==> Using(atoms, ws, v, w) {
        CycleSpare(atoms, assign, subst, eqs, ws, x, v, w);
      }
    } else {
      core := ws;
      DefinitionsLowerable(atoms, assign);
      AllRanked(subst, eqs, ws, depth);
    }
  }

  lemma OnlyFrom(subst: map<Name, Term>, eqs: map<Name, int>, ws: set<int>, x: Name)
    requires subst.Keys == eqs.Keys && x in Only(subst, eqs, ws)
    ensures x in eqs && eqs[x] in ws
  {
  }

  lemma FewerDefined(subst: map<Name, Term>, eqs: map<Name, int>, ws: set<int>, fewer: set<int>, depth: nat)
    requires subst.Keys == eqs.Keys && AllDefined(Only(subst, eqs, ws), depth) && fewer <= ws
    ensures AllDefined(Only(subst, eqs, fewer), depth)
  {
    hide Ends;
    var only, less := Only(subst, eqs, ws), Only(subst, eqs, fewer);
    forall x | x in less ensures Ends(less, Term.Var(x), depth) { FewerEnds(only, less, Term.Var(x), depth); }
  }

  lemma AllRanked(subst: map<Name, Term>, eqs: map<Name, int>, ws: set<int>, depth: nat)
    requires subst.Keys == eqs.Keys && AllDefined(Only(subst, eqs, ws), depth)
        && forall x | x in subst :: Lowerable(subst[x])
    requires forall x | x in Only(subst, eqs, ws) :: !Loops(Only(subst, eqs, ws), x)
    ensures Rankable(Only(subst, eqs, ws))
  {
    hide Ends, Loops, VarNames, Lowerable, ChainRank;
    var only := Only(subst, eqs, ws);
    var rank := ChainRank(only, depth);
    forall x, y | x in only && y in VarNames(only[x]) && y in only ensures rank(y) < rank(x) {
      ChainFalls(only, depth, x, y);
    }
    assert Ranked(only, rank);
  }

  /** A disequality and defining equalities whose definitions end are inconsistent if and only if
      substituting some of the definitions, which can be ranked, makes its sides the same function. */
  lemma RefutedIff(atoms: seq<Eq>, assign: seq<bool>, i: int, ws: set<int>, depth: nat, w: nat)
    requires |assign| == |atoms| && (forall j | 0 <= j < |atoms| :: AtomOk(atoms[j])) && 1 <= i <= |atoms|
        && !assign[i - 1]
    requires AllDefined(Given(atoms, assign, ws), depth) && AllSources(Sources(atoms, assign, |atoms|), ws)
    ensures Refuted(atoms, assign, {i} + ws, w) <==> exists core :: core <= ws && MadeSame(atoms, assign, i, core, w)
  {
    hide Definitions, Sources, AtomOk, Refuted, Using, AllDefined, Given, SameFunction, SubstOk, Holds, Ranked;
    var subst, eqs := Definitions(atoms, assign, |atoms|), Sources(atoms, assign, |atoms|);
    SameKeys(atoms, assign, |atoms|);
    DefinitionsOk(atoms, assign, |atoms|);
    SourcesTrue(atoms, assign, subst, eqs, ws);
    if Refuted(atoms, assign, {i} + ws, w) {
      var core := Straighten(atoms, assign, ws, depth);
      FewerSources(eqs, ws, core);
      RefutedMeans(atoms, assign, i, ws, w);
      RefutedMeans(atoms, assign, i, core, w);
      var rank: Name -> nat :| Ranked(Given(atoms, assign, core), rank);
      RankedRefuted(atoms, assign, i, core, rank, w);
      assert MadeSame(atoms, assign, i, core, w);
    }
    if core :| core <= ws && MadeSame(atoms, assign, i, core, w) {
      var rank: Name -> nat :| Ranked(Given(atoms, assign, core), rank);
      FewerSources(eqs, ws, core);
      RankedRefuted(atoms, assign, i, core, rank, w);
      RefutedMore(atoms, assign, {i} + core, {i} + ws, w);
    }
  }

  /** Substituting these definitions, which can be ranked, makes the sides the same function. */
  ghost predicate MadeSame(atoms: seq<Eq>, assign: seq<bool>, i: int, core: set<int>, w: nat)
    requires |assign| == |atoms| && 1 <= i <= |atoms|
  {
    Rankable(Given(atoms, assign, core))
        && SameFunction(Given(atoms, assign, core), atoms[i - 1].t1, atoms[i - 1].t2, w)
  }

  // ---- when nothing can be left out, for every conflict -------------------------------------------

  /** What the check blames is a minimal inconsistent set if and only if the definitions used can be
      ranked and no equality used is spare: substituting without it leaves the sides of the
      disequality different functions mod 2^w. */
  lemma MinimalIff(atoms: seq<Eq>, assign: seq<bool>, i: int, depth: nat, w: nat, blame: set<int>)
    requires |assign| == |atoms| && (forall j | 0 <= j < |atoms| :: AtomOk(atoms[j]))
    requires Blames(atoms, assign, i, depth, w, blame) && Refuted(atoms, assign, blame, w)
    ensures (forall b | b < blame :: !Refuted(atoms, assign, b, w)) <==>
            && Rankable(Given(atoms, assign, UsedBy(atoms, assign, i, depth, w)))
            && forall u | u in UsedBy(atoms, assign, i, depth, w) ::
                !Spare(atoms, assign, i, UsedBy(atoms, assign, i, depth, w), u, w)
  {
    hide Clash, UsedBy, AtomOk, Ranked, Spare, Refuted, Given, NoCycle;
    RankableIff(atoms, assign, i, depth, w);
    if Rankable(Given(atoms, assign, UsedBy(atoms, assign, i, depth, w))) {
      var rank: Name -> nat :| Ranked(Given(atoms, assign, UsedBy(atoms, assign, i, depth, w)), rank);
      MinimalRanked(atoms, assign, i, depth, rank, w, blame);
    } else {
      CycleRefutes(atoms, assign, i, depth, w);
    }
  }

  lemma ClashAt(atoms: seq<Eq>, assign: seq<bool>, i: int, depth: nat, w: nat)
    requires |assign| == |atoms| && (forall j | 0 <= j < |atoms| :: AtomOk(atoms[j]))
        && Clash(atoms, assign, i, depth, w)
    ensures 1 <= i <= |atoms| && !assign[i - 1] && i !in UsedBy(atoms, assign, i, depth, w)
    ensures forall j | j in UsedBy(atoms, assign, i, depth, w) :: 1 <= j <= |atoms| && assign[j - 1]
  {
    hide Definitions, Sources, SubstOk, AtomOk, UsedBy;
    UsedSources(atoms, assign, i, depth, w);
    DefinitionsOk(atoms, assign, |atoms|);
    SourcesTrue(atoms, assign, Definitions(atoms, assign, |atoms|), Sources(atoms, assign, |atoms|),
        UsedBy(atoms, assign, i, depth, w));
  }

  lemma FewerSources(eqs: map<Name, int>, ws: set<int>, fewer: set<int>)
    requires AllSources(eqs, ws) && fewer <= ws
    ensures AllSources(eqs, fewer)
  {
  }

  lemma FewerRanked(atoms: seq<Eq>, assign: seq<bool>, ws: set<int>, fewer: set<int>, rank: Name -> nat)
    requires |assign| == |atoms| && Ranked(Given(atoms, assign, ws), rank) && fewer <= ws
    ensures Ranked(Given(atoms, assign, fewer), rank)
  {
    hide Definitions, Sources, VarNames;
  }

  lemma SpareRefutes(atoms: seq<Eq>, assign: seq<bool>, i: int, used: set<int>, u: int, rank: Name -> nat, w: nat)
    requires |assign| == |atoms| && (forall j | 0 <= j < |atoms| :: AtomOk(atoms[j])) && 1 <= i <= |atoms|
        && !assign[i - 1]
    requires Ranked(Given(atoms, assign, used), rank) && AllSources(Sources(atoms, assign, |atoms|), used)
    ensures Refuted(atoms, assign, {i} + (used - {u}), w) <==> Spare(atoms, assign, i, used, u, w)
  {
    hide Definitions, Sources, AtomOk, Refuted, SameFunction, AllSources, Ranked, Only;
    FewerSources(Sources(atoms, assign, |atoms|), used, used - {u});
    FewerRanked(atoms, assign, used, used - {u}, rank);
    RankedRefuted(atoms, assign, i, used - {u}, rank, w);
  }

  lemma Less(atoms: seq<Eq>, assign: seq<bool>, i: int, used: set<int>, b: set<int>, rank: Name -> nat, w: nat)
    requires |assign| == |atoms| && (forall j | 0 <= j < |atoms| :: AtomOk(atoms[j])) && 1 <= i <= |atoms|
        && !assign[i - 1]
    requires Ranked(Given(atoms, assign, used), rank) && AllSources(Sources(atoms, assign, |atoms|), used)
    requires (forall j | j in used :: 1 <= j <= |atoms|) && b < {i} + used
    requires forall u | u in used :: !Spare(atoms, assign, i, used, u, w)
    ensures !Refuted(atoms, assign, b, w)
  {
    hide Definitions, Sources, AtomOk, Refuted, SameFunction, AllSources, Ranked, Spare;
    if i !in b {
      FewerSources(Sources(atoms, assign, |atoms|), used, b);
      FewerRanked(atoms, assign, used, b, rank);
      Together(atoms, assign, b, rank, w);
    } else {
      assert !(used <= b);
      var u := PickBeyond(used, b);
      if Refuted(atoms, assign, b, w) {
        RefutedMore(atoms, assign, b, {i} + (used - {u}), w);
        SpareRefutes(atoms, assign, i, used, u, rank, w);
      }
    }
  }

  // ---- a set that is not minimal ------------------------------------------------------------------

  /** The equality x = y, and the equality x * 0 = 0 which is to be false. */
  ghost predicate ZeroTimes(atoms: seq<Eq>, assign: seq<bool>, y: Name) {
    && atoms == [Eq(Term.Var("x"), Term.Var(y)), Eq(Mul(Term.Var("x"), Term.Const(0)), Term.Const(0))]
    && assign == [true, false]
  }

  /** x = y and x * 0 != 0: both are blamed, though the disequality is inconsistent by itself. With
      x for y the definition is on a cycle of variables. */
  method NotMinimal(y: Name, w: nat) returns (atoms: seq<Eq>, assign: seq<bool>, r: Verdict)
    ensures ZeroTimes(atoms, assign, y)
    ensures r == Conflict({1, 2}) && Refuted(atoms, assign, {2}, w)
    ensures y == "x" ==> !Rankable(Given(atoms, assign, {1}))
  {
    hide Refuted, SamePolynomial, Val, Given, Rankable;
    atoms := [Eq(Term.Var("x"), Term.Var(y)), Eq(Mul(Term.Var("x"), Term.Const(0)), Term.Const(0))];
    assign := [true, false];
    assert forall k | 0 <= k < |atoms| :: AtomOk(atoms[k]);
    TimesZero(Term.Var(y), w);
    OnlyClash(atoms, assign, y, w);
    r := TheoryCheck(atoms, assign, w, 2);
    ByItself(atoms, assign, y, w);
    if y == "x" {
      SelfUnranked(atoms, assign);
    }
  }

  lemma SelfUnranked(atoms: seq<Eq>, assign: seq<bool>)
    requires ZeroTimes(atoms, assign, "x")
    ensures !Rankable(Given(atoms, assign, {1}))
  {
    TwoDefinitions(atoms, assign, "x");
    var only := Given(atoms, assign, {1});
    assert only == map["x" := Term.Var("x")];
    assert "x" in VarNames(only["x"]);
  }

  lemma TimesZero(t: Term, w: nat)
    requires t.Var?
    ensures SamePolynomial(Mul(t, Term.Const(0)), Term.Const(0), w)
  {
    var u := Mul(t, Term.Const(0));
    forall m ensures Cong(Formal(u, m), Formal(Term.Const(0), m), Pow2(w)) {
      ZeroProduct(u, Monos(t), m);
    }
  }

  lemma {:induction false} ZeroProduct(t: Term, ms: set<Mono>, m: Mono)
    requires t.Mul? && forall y :: Formal(t.snd, y) == 0
    ensures FormalProduct(t, ms, m) == 0
    decreases |ms|
  {
    hide Formal, Monos, Sorted;
    if ms != {} {
      var x := Pick(ms);
      ZeroRow(t, Formal(t.fst, x), x, Monos(t.snd), m);
      ZeroProduct(t, ms - {x}, m);
    }
  }

  lemma {:induction false} ZeroRow(t: Term, c: int, x: Mono, ns: set<Mono>, m: Mono)
    requires t.Mul? && forall y :: Formal(t.snd, y) == 0
    ensures FormalRow(t, c, x, ns, m) == 0
    decreases |ns|
  {
    hide Formal, Monos, Sorted;
    if ns != {} {
      var y := Pick(ns);
      assert Formal(t.snd, y) == 0;
      ZeroRow(t, c, x, ns - {y}, m);
    }
  }

  lemma TwoDefinitions(atoms: seq<Eq>, assign: seq<bool>, y: Name)
    requires ZeroTimes(atoms, assign, y)
    ensures Definitions(atoms, assign, 2) == map["x" := Term.Var(y)] && Sources(atoms, assign, 2) == map["x" := 1]
  {
    var none: map<Name, Term> := map[];
    assert Definitions(atoms, assign, 0) == none;
    assert Definitions(atoms, assign, 1) == map["x" := Term.Var(y)];
    assert Sources(atoms, assign, 0) == map[];
    assert Sources(atoms, assign, 1) == map["x" := 1];
  }

  lemma OnlyClash(atoms: seq<Eq>, assign: seq<bool>, y: Name, w: nat)
    requires ZeroTimes(atoms, assign, y)
    requires SamePolynomial(Mul(Term.Var(y), Term.Const(0)), Term.Const(0), w)
    ensures DeepEnough(atoms, assign, 2) && Clash(atoms, assign, 2, 2, w) && UsedBy(atoms, assign, 2, 2, w) == {1}
  {
    hide SamePolynomial, Definitions, Sources;
    TwoDefinitions(atoms, assign, y);
    var subst := map["x" := Term.Var(y)];
    assert Chased(subst, Term.Var(y), {"x"}) == Term.Var(y);
    assert Chased(subst, Term.Var("x"), {}) == Term.Var(y) by { assert {} + {"x"} == {"x"}; }
    assert Ends(subst, Term.Var("x"), 1) && Ends(subst, Term.Const(0), 1) && Ends(subst, Term.Const(0), 2);
    assert Applied(subst, Term.Var("x"), 1) == Term.Var(y) && Applied(subst, Term.Const(0), 1) == Term.Const(0);
    var eqs := map["x" := 1];
    assert ChasedUses(subst, eqs, Term.Var(y), {"x"}) == {};
    assert ChasedUses(subst, eqs, Term.Var("x"), {}) == {1};
    assert Uses(subst, eqs, Term.Var("x"), 1) == {1} && Uses(subst, eqs, Term.Const(0), 1) == {}
        && Uses(subst, eqs, Term.Const(0), 2) == {};
  }

  lemma ByItself(atoms: seq<Eq>, assign: seq<bool>, y: Name, w: nat)
    requires ZeroTimes(atoms, assign, y)
    ensures Refuted(atoms, assign, {2}, w)
  {
    forall v ensures SomeDiffers(atoms, assign, {2}, v, w) {
      ProductVal(Term.Var("x"), Term.Const(0), v, w, Val(Term.Var("x"), v, w), Val(Term.Const(0), v, w));
      Remainder(0, Pow2(w), 0, 0);
      assert Val(Mul(Term.Var("x"), Term.Const(0)), v, w) == 0;
      assert Differs(atoms, assign, 2, v, w);
    }
  }

  // ---- when substituting ends ------------------------------------------------------------------------

  ghost predicate SidesUnder(atoms: seq<Eq>, assign: seq<bool>, R: Name -> bool)
    requires |assign| == |atoms|
  {
    forall i, x | 0 <= i < |atoms| && !assign[i] && (x in VarNames(atoms[i].t1) || x in VarNames(atoms[i].t2)) :: R(x)
  }

  /** The definitions reached from the disequalities can be ranked through compound terms. */
  ghost predicate Groundable(atoms: seq<Eq>, assign: seq<bool>)
    requires |assign| == |atoms|
  {
    exists rank: Name -> nat, R: Name -> bool ::
        Grounded(Definitions(atoms, assign, |atoms|), rank, R) && SidesUnder(atoms, assign, R)
  }

  lemma {:induction false} ChasedLowerable(subst: map<Name, Term>, t: Term, seen: set<Name>)
    requires Lowerable(t) && forall x | x in subst :: Lowerable(subst[x])
    ensures Lowerable(Chased(subst, t, seen))
    decreases subst.Keys - seen
  {
    if t.Var? && t.name in subst && t.name !in seen {
      ChasedLowerable(subst, subst[t.name], seen + {t.name});
    }
  }

  ghost function DepthRank(subst: map<Name, Term>, d: nat): Name -> nat {
    (x: Name) => if Ends(subst, Term.Var(x), d) then Least(subst, x, d) else 0
  }

  /** The least depths rank the variables that end. */
  lemma DepthsGround(subst: map<Name, Term>, d: nat)
    requires forall x | x in subst :: Lowerable(subst[x])
    ensures Grounded(subst, DepthRank(subst, d), (x: Name) => Ends(subst, Term.Var(x), d))
  {
    hide Ends, Lowerable, VarNames;
    var rank, R := DepthRank(subst, d), (x: Name) => Ends(subst, Term.Var(x), d);
    forall x | R(x) ensures GroundedAt(subst, rank, R, x) {
      var u, n := Chased(subst, Term.Var(x), {}), Least(subst, x, d);
      if !u.Var? {
        VarLowerable(x);
        ChasedLowerable(subst, Term.Var(x), {});
        EndOfChain(subst, x, n);
        forall y | y in VarNames(u) ensures R(y) && rank(y) < rank(x) {
          VariablesEnd(subst, u, n, y);
          EndsMore(subst, Term.Var(y), n - 1, d);
          LeastOf(subst, y, d, n - 1);
        }
      }
    }
  }

  lemma VarLowerable(x: Name)
    ensures Lowerable(Term.Var(x))
  {
  }

  lemma EndOfChain(subst: map<Name, Term>, x: Name, n: nat)
    requires Ends(subst, Term.Var(x), n) && !Chased(subst, Term.Var(x), {}).Var?
    ensures Ends(subst, Chased(subst, Term.Var(x), {}), n)
  {
  }

  lemma DefinitionsLowerable(atoms: seq<Eq>, assign: seq<bool>)
    requires |assign| == |atoms| && forall j | 0 <= j < |atoms| :: AtomOk(atoms[j])
    ensures forall x | x in Definitions(atoms, assign, |atoms|) :: Lowerable(Definitions(atoms, assign, |atoms|)[x])
  {
    hide Definitions, Sources, Lowerable, AtomOk;
    DefinitionsOk(atoms, assign, |atoms|);
  }

  /** Some recursion depth is enough for the check if and only if the definitions reached from the
      disequalities can be ranked through compound terms: cycles of variables alone do no harm. */
  lemma DepthIff(atoms: seq<Eq>, assign: seq<bool>)
    requires |assign| == |atoms| && forall j | 0 <= j < |atoms| :: AtomOk(atoms[j])
    ensures (exists depth: nat :: DeepEnough(atoms, assign, depth)) <==> Groundable(atoms, assign)
  {
    hide Definitions, Ends, Lowerable, VarNames, Grounded;
    var subst := Definitions(atoms, assign, |atoms|);
    if exists depth: nat :: DeepEnough(atoms, assign, depth) {
      var d: nat :| DeepEnough(atoms, assign, d);
      DefinitionsLowerable(atoms, assign);
      DepthsGround(subst, d);
      var R := (x: Name) => Ends(subst, Term.Var(x), d);
      forall i, x | 0 <= i < |atoms| && !assign[i] && (x in VarNames(atoms[i].t1) || x in VarNames(atoms[i].t2))
          ensures R(x) {
        assert AtomOk(atoms[i]);
        ArgumentEnds(subst, if x in VarNames(atoms[i].t1) then atoms[i].t1 else atoms[i].t2, d, x);
      }
      assert Grounded(subst, DepthRank(subst, d), R) && SidesUnder(atoms, assign, R);
    }
    if Groundable(atoms, assign) {
      var rank: Name -> nat, R: Name -> bool :| Grounded(subst, rank, R) && SidesUnder(atoms, assign, R);
      var d := EnoughGrounded(atoms, assign, rank, R);
    }
  }

  lemma EnoughGrounded(atoms: seq<Eq>, assign: seq<bool>, rank: Name -> nat, R: Name -> bool) returns (d: nat)
    requires |assign| == |atoms| && Grounded(Definitions(atoms, assign, |atoms|), rank, R)
        && SidesUnder(atoms, assign, R)
    ensures DeepEnough(atoms, assign, d)
  {
    hide Definitions, Ends, VarNames, Grounded;
    var subst := Definitions(atoms, assign, |atoms|);
    d := 0;
    var i := 0;
    while i < |atoms|
      invariant i <= |atoms|
          && forall k | 0 <= k < i && !assign[k] :: Ends(subst, atoms[k].t1, d) && Ends(subst, atoms[k].t2, d)
    {
      var x, y := 0, 0;
      if !assign[i] {
        var r1 := Bound(VarNames(atoms[i].t1), rank);
        var r2 := Bound(VarNames(atoms[i].t2), rank);
        x := GroundedEnds(subst, rank, R, atoms[i].t1, r1);
        y := GroundedEnds(subst, rank, R, atoms[i].t2, r2);
      }
      forall k | 0 <= k <= i && !assign[k]
          ensures Ends(subst, atoms[k].t1, d + x + y) && Ends(subst, atoms[k].t2, d + x + y) {
        EndsMore(subst, atoms[k].t1, if k < i then d else x, d + x + y);
        EndsMore(subst, atoms[k].t2, if k < i then d else y, d + x + y);
      }
      d, i := d + x + y, i + 1;
    }
  }

  /** x = x + 1 and x != 0: no depth is enough. */
  lemma Endless(depth: nat)
    ensures !DeepEnough([Eq(Term.Var("x"), Add([Term.Var("x"), Term.Const(1)])), Eq(Term.Var("x"), Term.Const(0))],
        [true, false], depth)
  {
    var atoms := [Eq(Term.Var("x"), Add([Term.Var("x"), Term.Const(1)])), Eq(Term.Var("x"), Term.Const(0))];
    var assign := [true, false];
    var subst := Definitions(atoms, assign, 2);
    assert Definitions(atoms, assign, 0) == map[];
    assert Definitions(atoms, assign, 1) == map["x" := Add([Term.Var("x"), Term.Const(1)])];
    assert subst == map["x" := Add([Term.Var("x"), Term.Const(1)])];
    NeverEnds(subst, depth);
  }

  lemma {:induction false} NeverEnds(subst: map<Name, Term>, depth: nat)
    requires subst == map["x" := Add([Term.Var("x"), Term.Const(1)])]
    ensures !Ends(subst, Term.Var("x"), depth)
    decreases depth
  {
    if depth > 0 {
      var ts := [Term.Var("x"), Term.Const(1)];
      assert Chased(subst, Term.Var("x"), {}) == Add(ts);
      NeverEnds(subst, depth - 1);
      assert ts[0] == Term.Var("x");
      assert !AllEnd(subst, ts, depth - 1);
    }
  }
}

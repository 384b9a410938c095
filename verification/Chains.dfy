/** Chains of variables in a substitution: what they follow, when they come back, and ranks for those
    that do not. */
module Chains {
  import opened Sets
  import opened Circuit
  import opened Terms
  import opened BitBlast
  import opened Substitution

  // ---- depths ---------------------------------------------------------------------------------

  /** The least depth at which the variable's definition is substituted all the way down. */
  ghost function Least(subst: map<Name, Term>, x: Name, d: nat): (n: nat)
    requires Ends(subst, Term.Var(x), d)
    ensures n <= d && Ends(subst, Term.Var(x), n)
  {
    if d > 0 && Ends(subst, Term.Var(x), d - 1) then Least(subst, x, d - 1) else d
  }

  lemma {:induction false} LeastOf(subst: map<Name, Term>, x: Name, d: nat, n: nat)
    requires Ends(subst, Term.Var(x), d) && Ends(subst, Term.Var(x), n)
    ensures Least(subst, x, d) <= n
    decreases d
  {
    hide Ends;
    if d > 0 && Ends(subst, Term.Var(x), d - 1) {
      LeastOf(subst, x, d - 1, n);
    } else if n < d {
      EndsMore(subst, Term.Var(x), n, d - 1);
    }
  }

  /** The variables of a term end with it, and before it if it is compound. */
  lemma {:induction false} VariablesEnd(subst: map<Name, Term>, t: Term, d: nat, y: Name)
    requires Ends(subst, t, d) && Lowerable(t) && y in VarNames(t)
    ensures d > 0 && Ends(subst, Term.Var(y), if t.Var? then d else d - 1)
    decreases t, 0
  {
    match t
    case Var(_) =>
    case Neg(a) => ArgumentEnds(subst, a, d - 1, y);
    case Sub(a, b) => ArgumentEnds(subst, if y in VarNames(a) then a else b, d - 1, y);
    case Mul(a, b) => ArgumentEnds(subst, if y in VarNames(a) then a else b, d - 1, y);
    case Add(ts) =>
      assert AllEnd(subst, ts, d - 1);
      var k :| 0 <= k < |ts| && y in VarNames(ts[k]);
      ArgumentEnds(subst, ts[k], d - 1, y);
  }

  lemma {:induction false} ArgumentEnds(subst: map<Name, Term>, t: Term, d: nat, y: Name)
    requires Ends(subst, t, d) && Lowerable(t) && y in VarNames(t)
    ensures Ends(subst, Term.Var(y), d)
    decreases t, 1
  {
    VariablesEnd(subst, t, d, y);
    if !t.Var? {
      EndsMore(subst, Term.Var(y), d - 1, d);
    }
  }

  // ---- the variables a chain follows -----------------------------------------------------------

  ghost function Followed(subst: map<Name, Term>, t: Term, seen: set<Name>): set<Name>
    decreases subst.Keys - seen
  {
    if t.Var? && t.name in subst && t.name !in seen then
      {t.name} + Followed(subst, subst[t.name], seen + {t.name})
    else {}
  }

  lemma {:induction false} FollowedKeys(subst: map<Name, Term>, t: Term, seen: set<Name>)
    ensures Followed(subst, t, seen) <= subst.Keys - seen
    decreases subst.Keys - seen
  {
    if t.Var? && t.name in subst && t.name !in seen {
      FollowedKeys(subst, subst[t.name], seen + {t.name});
    }
  }

  /** Names that the chain does not come to may count as seen. */
  lemma {:induction false} SeenApart(subst: map<Name, Term>, t: Term, seen: set<Name>, more: set<Name>)
    requires seen <= more && Followed(subst, t, seen) !! more - seen
    ensures Chased(subst, t, more) == Chased(subst, t, seen) && Followed(subst, t, more) == Followed(subst, t, seen)
    decreases subst.Keys - seen
  {
    if t.Var? && t.name in subst && t.name !in seen {
      var x := t.name;
      assert x in Followed(subst, t, seen);
      assert (more + {x}) - (seen + {x}) <= more - seen;
      SeenApart(subst, subst[x], seen + {x}, more + {x});
    }
  }

  /** The chain of definitions from `x` comes back to `x`. */
  ghost predicate Loops(subst: map<Name, Term>, x: Name) {
    x in subst && x in Followed(subst, subst[x], {})
  }

  /** Without coming back, the chain from a variable is the chain from its definition. */
  lemma NoLoopStep(subst: map<Name, Term>, x: Name)
    requires x in subst && !Loops(subst, x)
    ensures Chased(subst, Var(x), {}) == Chased(subst, subst[x], {})
    ensures Followed(subst, Var(x), {}) == {x} + Followed(subst, subst[x], {})
  {
    SeenApart(subst, subst[x], {}, {x});
    assert {} + {x} == {x};
  }

  /** A chain that ends in a compound term ends in it whatever less was seen. */
  lemma {:induction false} SeenLess(subst: map<Name, Term>, t: Term, seen: set<Name>, less: set<Name>)
    requires less <= seen && !Chased(subst, t, seen).Var?
    ensures Chased(subst, t, less) == Chased(subst, t, seen)
    decreases subst.Keys - seen
  {
    if t.Var? && t.name in subst && t.name !in seen {
      SeenLess(subst, subst[t.name], seen + {t.name}, less + {t.name});
    }
  }

  lemma {:induction false} CompoundEnd(subst: map<Name, Term>, t: Term, seen: set<Name>, x: Name)
    requires x in Followed(subst, t, seen) && !Chased(subst, t, seen).Var?
    ensures Chased(subst, Term.Var(x), {}) == Chased(subst, t, seen)
    decreases subst.Keys - seen
  {
    if t.name == x {
      SeenLess(subst, t, seen, {});
    } else {
      CompoundEnd(subst, subst[t.name], seen + {t.name}, x);
    }
  }

  /** A chain that ends at a variable meets no compound definition. */
  lemma {:induction false} VariablesOnly(subst: map<Name, Term>, t: Term, seen: set<Name>, x: Name)
    requires x in Followed(subst, t, seen) && Chased(subst, t, seen).Var?
    ensures x in subst && subst[x].Var?
    decreases subst.Keys - seen
  {
    if t.name != x {
      VariablesOnly(subst, subst[t.name], seen + {t.name}, x);
    }
  }

  lemma {:induction false} StaysVariable(subst: map<Name, Term>, xs: set<Name>, t: Term, seen: set<Name>)
    requires forall x | x in xs :: x in subst && subst[x].Var? && (subst[x].name in subst ==> subst[x].name in xs)
    requires t.Var? && (t.name in subst ==> t.name in xs)
    ensures Chased(subst, t, seen).Var?
    decreases subst.Keys - seen
  {
    if t.name in subst && t.name !in seen {
      StaysVariable(subst, xs, subst[t.name], seen + {t.name});
    }
  }

  /** Every variable followed ends in the compound term where the chain does, or at a variable. */
  lemma SameEnds(subst: map<Name, Term>, t: Term, x: Name)
    requires x in Followed(subst, t, {})
    ensures Chased(subst, Term.Var(x), {}) == Chased(subst, t, {}) || Chased(subst, Term.Var(x), {}).Var?
  {
    hide Followed, Chased;
    if Chased(subst, t, {}).Var? {
      var xs := Followed(subst, t, {});
      forall y | y in xs ensures y in subst && subst[y].Var? && (subst[y].name in subst ==> subst[y].name in xs) {
        VariablesOnly(subst, t, {}, y);
        if subst[y].name in subst { FollowedClosed(subst, t, {}, y); }
      }
      StaysVariable(subst, xs, Term.Var(x), {});
    } else {
      CompoundEnd(subst, t, {}, x);
    }
  }

  // ---- the equalities a substitution uses, by their variables ------------------------------------

  predicate Injective(eqs: map<Name, int>) {
    forall x, y | x in eqs && y in eqs && eqs[x] == eqs[y] :: x == y
  }

  lemma {:induction false} ChasedUsesAre(subst: map<Name, Term>, eqs: map<Name, int>, t: Term, seen: set<Name>, x: Name)
    requires subst.Keys == eqs.Keys && Injective(eqs) && x in subst
    ensures eqs[x] in ChasedUses(subst, eqs, t, seen) <==> x in Followed(subst, t, seen)
    decreases subst.Keys - seen
  {
    if t.Var? && t.name in subst && t.name !in seen {
      ChasedUsesAre(subst, eqs, subst[t.name], seen + {t.name}, x);
    }
  }

  /** The variable that a followed variable is defined as is followed too. */
  lemma {:induction false} FollowedClosed(subst: map<Name, Term>, t: Term, seen: set<Name>, x: Name)
    requires x in Followed(subst, t, seen) && x in subst && subst[x].Var? && subst[x].name in subst
    ensures subst[x].name in Followed(subst, t, seen) + seen
    decreases subst.Keys - seen
  {
    var y := t.name;
    if y != x {
      FollowedClosed(subst, subst[y], seen + {y}, x);
    }
  }

  /** The chain goes on among the variables whose equalities are used. */
  ghost predicate Closed(subst: map<Name, Term>, eqs: map<Name, int>, used: set<int>)
    requires subst.Keys == eqs.Keys
  {
    forall x | x in subst && eqs[x] in used && subst[x].Var? && subst[x].name in subst :: eqs[subst[x].name] in used
  }

  lemma ChasedClosed(subst: map<Name, Term>, eqs: map<Name, int>, t: Term)
    requires subst.Keys == eqs.Keys && Injective(eqs)
    ensures Closed(subst, eqs, ChasedUses(subst, eqs, t, {}))
  {
    var used := ChasedUses(subst, eqs, t, {});
    forall x | x in subst && eqs[x] in used && subst[x].Var? && subst[x].name in subst
        ensures eqs[subst[x].name] in used {
      ChasedUsesAre(subst, eqs, t, {}, x);
      FollowedClosed(subst, t, {}, x);
      ChasedUsesAre(subst, eqs, t, {}, subst[x].name);
    }
  }

  lemma ClosedBoth(subst: map<Name, Term>, eqs: map<Name, int>, a: set<int>, b: set<int>)
    requires subst.Keys == eqs.Keys && Closed(subst, eqs, a) && Closed(subst, eqs, b)
    ensures Closed(subst, eqs, a + b)
  {
  }

  lemma {:induction false} UsesClosed(subst: map<Name, Term>, eqs: map<Name, int>, t: Term, depth: nat)
    requires subst.Keys == eqs.Keys && Injective(eqs) && Ends(subst, t, depth)
    ensures Closed(subst, eqs, Uses(subst, eqs, t, depth))
    decreases depth, 0
  {
    hide Closed, Injective;
    ChasedClosed(subst, eqs, t);
    var chased := ChasedUses(subst, eqs, t, {});
    UsesAre(subst, eqs, t, Chased(subst, t, {}), depth);
    match Chased(subst, t, {})
    case Neg(a) =>
      UsesClosed(subst, eqs, a, depth - 1);
      ClosedBoth(subst, eqs, chased, Uses(subst, eqs, a, depth - 1));
    case Sub(a, b) => UsesClosedTwo(subst, eqs, chased, a, b, depth - 1);
    case Mul(a, b) => UsesClosedTwo(subst, eqs, chased, a, b, depth - 1);
    case Add(ts) =>
      assert AllEnd(subst, ts, depth - 1);
      UsesAllClosed(subst, eqs, ts, |ts|, depth - 1);
      ClosedBoth(subst, eqs, chased, UsesAll(subst, eqs, ts, |ts|, depth - 1));
    case _ =>
  }

  lemma UsesClosedTwo(subst: map<Name, Term>, eqs: map<Name, int>, chased: set<int>, a: Term, b: Term, depth: nat)
    requires subst.Keys == eqs.Keys && Injective(eqs) && Closed(subst, eqs, chased) && Ends(subst, a, depth)
        && Ends(subst, b, depth)
    ensures Closed(subst, eqs, chased + (Uses(subst, eqs, a, depth) + Uses(subst, eqs, b, depth)))
    decreases depth, 1
  {
    hide Closed, Injective, Uses;
    UsesClosed(subst, eqs, a, depth);
    UsesClosed(subst, eqs, b, depth);
    ClosedBoth(subst, eqs, Uses(subst, eqs, a, depth), Uses(subst, eqs, b, depth));
    ClosedBoth(subst, eqs, chased, Uses(subst, eqs, a, depth) + Uses(subst, eqs, b, depth));
  }

  lemma {:induction false} UsesAllClosed(subst: map<Name, Term>, eqs: map<Name, int>, ts: seq<Term>, n: nat, depth: nat)
    requires subst.Keys == eqs.Keys && Injective(eqs) && n <= |ts| && forall k | 0 <= k < n :: Ends(subst, ts[k], depth)
    ensures Closed(subst, eqs, UsesAll(subst, eqs, ts, n, depth))
    decreases depth, 1, n
  {
    hide Closed, Injective, Uses;
    if n == 0 {
      NoneClosed(subst, eqs);
    } else {
      UsesAllClosed(subst, eqs, ts, n - 1, depth);
      UsesClosed(subst, eqs, ts[n - 1], depth);
      ClosedBoth(subst, eqs, UsesAll(subst, eqs, ts, n - 1, depth), Uses(subst, eqs, ts[n - 1], depth));
    }
  }

  lemma NoneClosed(subst: map<Name, Term>, eqs: map<Name, int>)
    requires subst.Keys == eqs.Keys
    ensures Closed(subst, eqs, {})
  {
  }

  /** In a closed set of equalities a chain stays. */
  lemma {:induction false} StaysClosed(subst: map<Name, Term>, eqs: map<Name, int>, used: set<int>, t: Term,
      seen: set<Name>)
    requires subst.Keys == eqs.Keys && Closed(subst, eqs, used) && (t.Var? && t.name in subst ==> eqs[t.name] in used)
    ensures forall x | x in Followed(subst, t, seen) :: x in subst && eqs[x] in used
    decreases subst.Keys - seen
  {
    if t.Var? && t.name in subst && t.name !in seen {
      StaysClosed(subst, eqs, used, subst[t.name], seen + {t.name});
    }
  }

  // ---- ranks, when no chain comes back ------------------------------------------------------------

  /** No chain from a variable whose equality is used comes back to it. */
  ghost predicate Straight(subst: map<Name, Term>, eqs: map<Name, int>, used: set<int>)
    requires subst.Keys == eqs.Keys
  {
    forall x | x in subst && eqs[x] in used :: !Loops(subst, x)
  }

  /** A variable whose equality is used ends at the depth of the term. */
  lemma {:induction false} UsedEnds(subst: map<Name, Term>, eqs: map<Name, int>, t: Term, depth: nat, x: Name)
    requires subst.Keys == eqs.Keys && Injective(eqs) && Ends(subst, t, depth)
    requires x in subst && eqs[x] in Uses(subst, eqs, t, depth)
    ensures Ends(subst, Term.Var(x), depth)
    decreases depth
  {
    hide Injective, Uses, UsesAll, ChasedUses, Followed;
    var u := Chased(subst, t, {});
    UsesAre(subst, eqs, t, u, depth);
    if eqs[x] in ChasedUses(subst, eqs, t, {}) {
      ChasedUsesAre(subst, eqs, t, {}, x);
      SameEnds(subst, t, x);
      if !Chased(subst, Term.Var(x), {}).Var? { EndsFrom(subst, Term.Var(x), t, depth); }
    } else {
      match u {
      case Neg(a) => UsedEnds(subst, eqs, a, depth - 1, x);
      case Sub(a, b) => UsedEnds(subst, eqs, if eqs[x] in Uses(subst, eqs, a, depth - 1) then a else b, depth - 1, x);
      case Mul(a, b) => UsedEnds(subst, eqs, if eqs[x] in Uses(subst, eqs, a, depth - 1) then a else b, depth - 1, x);
      case Add(ts) =>
        assert AllEnd(subst, ts, depth - 1);
        var k := UsingTerm(subst, eqs, ts, |ts|, depth - 1, eqs[x]);
        UsedEnds(subst, eqs, ts[k], depth - 1, x);
      case _ =>
      }
      EndsMore(subst, Term.Var(x), depth - 1, depth);
    }
  }

  lemma {:induction false} UsingTerm(subst: map<Name, Term>, eqs: map<Name, int>, ts: seq<Term>, n: nat, depth: nat,
      j: int) returns (k: nat)
    requires subst.Keys == eqs.Keys && n <= |ts| && forall k | 0 <= k < |ts| :: Ends(subst, ts[k], depth)
    requires j in UsesAll(subst, eqs, ts, n, depth)
    ensures k < n && j in Uses(subst, eqs, ts[k], depth)
        && Uses(subst, eqs, ts[k], depth) <= UsesAll(subst, eqs, ts, n, depth)
    decreases n
  {
    hide Uses;
    if j in Uses(subst, eqs, ts[n - 1], depth) {
      k := n - 1;
    } else {
      k := UsingTerm(subst, eqs, ts, n - 1, depth, j);
    }
  }

  /** First by the depth, then by how many variables are left to follow. */
  ghost function ChainRank(subst: map<Name, Term>, d: nat): Name -> nat {
    (x: Name) => if Ends(subst, Term.Var(x), d)
        then TwoPart(Least(subst, x, d), |subst.Keys| + 1, |Followed(subst, Term.Var(x), {})|) else 0
  }

  ghost function TwoPart(a: nat, m: nat, c: nat): nat {
    a * m + c
  }

  lemma FewFollowed(subst: map<Name, Term>, t: Term)
    ensures |Followed(subst, t, {})| <= |subst.Keys|
  {
    FollowedKeys(subst, t, {});
    Fewer(Followed(subst, t, {}), subst.Keys);
  }

  lemma SameLeast(subst: map<Name, Term>, x: Name, y: Name, d: nat)
    requires Ends(subst, Term.Var(x), d) && Chased(subst, Term.Var(x), {}) == Chased(subst, Term.Var(y), {})
    ensures Ends(subst, Term.Var(y), d) && Least(subst, y, d) == Least(subst, x, d)
  {
    hide Ends, Least;
    EndsFrom(subst, Term.Var(y), Term.Var(x), d);
    EndsFrom(subst, Term.Var(y), Term.Var(x), Least(subst, x, d));
    EndsFrom(subst, Term.Var(x), Term.Var(y), Least(subst, y, d));
    LeastOf(subst, y, d, Least(subst, x, d));
    LeastOf(subst, x, d, Least(subst, y, d));
  }

  /** A definition that does not come back has variables of lower rank. */
  lemma ChainFalls(subst: map<Name, Term>, d: nat, x: Name, y: Name)
    requires x in subst && Lowerable(subst[x]) && !Loops(subst, x) && Ends(subst, Term.Var(x), d)
        && y in VarNames(subst[x])
    ensures Ends(subst, Term.Var(y), d) && ChainRank(subst, d)(y) < ChainRank(subst, d)(x)
  {
    hide Ends, Loops, Followed, Least;
    NoLoopStep(subst, x);
    var n := Least(subst, x, d);
    if subst[x].Var? {
      assert subst[x] == Term.Var(y);
      SameLeast(subst, x, y, d);
      NotFollowed(subst, x);
      var rest := Followed(subst, Term.Var(y), {});
      assert |{x} + rest| == 1 + |rest|;
    } else {
      Compound(subst, subst[x]);
      EndsFrom(subst, subst[x], Term.Var(x), n);
      VariablesEnd(subst, subst[x], n, y);
      EndsMore(subst, Term.Var(y), n - 1, d);
      LeastOf(subst, y, d, n - 1);
      FewFollowed(subst, Term.Var(y));
      FewFollowed(subst, Term.Var(x));
      Lower(Least(subst, y, d), n, |subst.Keys| + 1, |Followed(subst, Term.Var(y), {})|);
    }
  }

  lemma NotFollowed(subst: map<Name, Term>, x: Name)
    requires x in subst && !Loops(subst, x)
    ensures x !in Followed(subst, subst[x], {})
  {
  }

  lemma Compound(subst: map<Name, Term>, t: Term)
    requires !t.Var?
    ensures Chased(subst, t, {}) == t
  {
  }

  lemma Lower(a: nat, b: nat, m: nat, c: nat)
    requires a < b && c < m
    ensures forall k: nat :: TwoPart(a, m, c) < TwoPart(b, m, k)
  {
    assert (a + 1) * m <= b * m;
  }

  // ---- what ranked definitions exclude, and what coming back means ---------------------------------

  /** Where definitions can be ranked, the variables followed are below the one they start from. */
  lemma {:induction false} FollowedBelow(subst: map<Name, Term>, only: map<Name, Term>, rank: Name -> nat, t: Term,
      seen: set<Name>, r: nat, x: Name)
    requires Ranked(only, rank) && Below(only, rank, t, r) && x in Followed(subst, t, seen)
    requires forall y | y in Followed(subst, t, seen) :: y in only && y in subst && only[y] == subst[y]
    ensures rank(x) < r
    decreases subst.Keys - seen
  {
    var y := t.name;
    assert y in VarNames(t);
    if y != x {
      assert Below(only, rank, subst[y], rank(y));
      FollowedBelow(subst, only, rank, subst[y], seen + {y}, rank(y), x);
    }
  }

  /** Where the other definitions followed hold, a chain has the value of each variable on it. */
  lemma {:induction false} FollowedVal(subst: map<Name, Term>, t: Term, seen: set<Name>, x: Name, v: Valuation, w: nat)
    requires x in Followed(subst, t, seen)
    requires forall y | y in Followed(subst, t, seen) && y in subst && y != x ::
        Val(Term.Var(y), v, w) == Val(subst[y], v, w)
    ensures Val(t, v, w) == Val(Term.Var(x), v, w)
    decreases subst.Keys - seen
  {
    hide Val;
    if t.name != x {
      FollowedVal(subst, subst[t.name], seen + {t.name}, x, v, w);
    }
  }

  // ---- with fewer definitions -----------------------------------------------------------------------

  ghost predicate Among(only: map<Name, Term>, subst: map<Name, Term>) {
    forall x | x in only :: x in subst && only[x] == subst[x]
  }

  lemma {:induction false} FollowedWithin(subst: map<Name, Term>, only: map<Name, Term>, t: Term, seen: set<Name>)
    requires Among(only, subst) && forall y | y in Followed(subst, t, seen) :: y in only
    ensures Followed(only, t, seen) == Followed(subst, t, seen)
    decreases subst.Keys - seen
  {
    if t.Var? && t.name in subst && t.name !in seen {
      assert t.name in Followed(subst, t, seen);
      FollowedWithin(subst, only, subst[t.name], seen + {t.name});
    }
  }

  /** With fewer definitions a chain ends as before, or earlier at a variable. */
  lemma {:induction false} FewerChased(subst: map<Name, Term>, only: map<Name, Term>, t: Term, seen: set<Name>)
    requires Among(only, subst)
    ensures Chased(only, t, seen).Var? || Chased(only, t, seen) == Chased(subst, t, seen)
    decreases subst.Keys - seen
  {
    if t.Var? && t.name in only && t.name !in seen {
      FewerChased(subst, only, subst[t.name], seen + {t.name});
    }
  }

  lemma {:induction false} FewerEnds(subst: map<Name, Term>, only: map<Name, Term>, t: Term, d: nat)
    requires Among(only, subst) && Ends(subst, t, d)
    ensures Ends(only, t, d)
    decreases d
  {
    hide Chased, Among;
    FewerChased(subst, only, t, {});
    match Chased(only, t, {})
    case Neg(a) => FewerEnds(subst, only, a, d - 1);
    case Sub(a, b) =>
      FewerEnds(subst, only, a, d - 1);
      FewerEnds(subst, only, b, d - 1);
    case Mul(a, b) =>
      FewerEnds(subst, only, a, d - 1);
      FewerEnds(subst, only, b, d - 1);
    case Add(ts) =>
      assert AllEnd(subst, ts, d - 1);
      forall k | 0 <= k < |ts| ensures Ends(only, ts[k], d - 1) { FewerEnds(subst, only, ts[k], d - 1); }
    case _ =>
  }
}

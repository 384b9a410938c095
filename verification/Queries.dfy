/** IC3's one-step queries: a fresh solver whose models are the valuations of one
    cycle that meet what was asserted. */
module Queries {
  import opened Sets
  import opened Sat
  import opened Circuit
  import opened Cdcl
  import opened Trail
  import opened Search
  import opened Encoding
  import opened Transition
  import opened Frames
  import opened Bmc
  import Ic3Spec

  type Cube = Ic3Spec.Cube

  /** Traces of one cycle. */
  ghost function Ones(es: iset<Env>): iset<seq<Env>> {
    iset tr: seq<Env> | |tr| == 1 && tr[0] in es
  }

  ghost function AnyEnv(ts: TS): iset<Env> {
    iset e: Env | e <= Names(ts)
  }

  /** The solver's models are the valuations in `es`. */
  ghost predicate Asks(s: Solver, fr: Frame, es: iset<Env>)
    reads s
  {
    Ok(s, [fr], Ones(es))
  }

  ghost predicate FrameOk(ts: TS, fr: Frame) {
    fr.lits.Keys == Names(ts) && Positive(fr)
  }

  /** The current-state literal of a signed index. */
  function CurLit(ts: TS, fr: Frame, l: int): int
    requires Ic3Spec.IndexOk(ts, l) && FrameOk(ts, fr)
  {
    assert Ic3Spec.Bit(ts, l) in States(ts);
    var v := fr.lits[Ic3Spec.Bit(ts, l)];
    if l > 0 then v else -v
  }

  function CurLits(ts: TS, fr: Frame, ls: seq<int>): (c: seq<int>)
    requires FrameOk(ts, fr) && forall k | 0 <= k < |ls| :: Ic3Spec.IndexOk(ts, ls[k])
    ensures |c| == |ls|
  {
    seq(|ls|, k requires 0 <= k < |ls| => CurLit(ts, fr, ls[k]))
  }

  ghost function WithClause(ts: TS, es: iset<Env>, c: Cube): iset<Env> {
    iset e | e in es && Ic3Spec.SatClause(ts, c, e)
  }

  ghost function WithLit(ts: TS, es: iset<Env>, l: int): iset<Env> {
    iset e | e in es && Ic3Spec.LitAt(ts, l, e)
  }

  lemma CurMeans(f: seq<seq<int>>, n: nat, ts: TS, fr: Frame, l: int, m: Model)
    requires Ic3Spec.IndexOk(ts, l) && FrameOk(ts, fr) && FramesOk(f, n, [fr])
    ensures LitOk(n, CurLit(ts, fr, l))
    ensures HoldsLit(m, CurLit(ts, fr, l)) <==> Ic3Spec.LitAt(ts, l, EnvOf(m, fr.lits))
  {
    FramesAt(f, n, [fr], 0);
    var x := Ic3Spec.Bit(ts, l);
    assert x in States(ts) && LitOk(n, fr.lits[x]);
  }

  lemma ViewOne(m: Model, fr: Frame, es: iset<Env>)
    ensures View(m, [fr]) == [EnvOf(m, fr.lits)]
    ensures View(m, [fr]) in Ones(es) <==> EnvOf(m, fr.lits) in es
  {
  }

  lemma ClauseSays(f: seq<seq<int>>, n: nat, ts: TS, fr: Frame, es: iset<Env>, ls: seq<int>, c: Cube)
    requires FrameOk(ts, fr) && FramesOk(f, n, [fr]) && Shows(f, [fr], Ones(es))
    requires Ic3Spec.CubeOk(ts, c) && forall l :: l in ls <==> l in c
    ensures forall k | 0 <= k < |ls| :: Ic3Spec.IndexOk(ts, ls[k])
    ensures ClauseOk(n, CurLits(ts, fr, ls)) && Says(f, [fr], CurLits(ts, fr, ls), Ones(WithClause(ts, es, c)))
    ensures Ones(WithClause(ts, es, c)) <= Ones(es)
  {
    hide FramesOk, FrameOk, Ic3Spec.LitAt, CurLit, EnvOf, HoldsLit;
    forall k | 0 <= k < |ls| ensures Ic3Spec.IndexOk(ts, ls[k]) {
      var l := ls[k];
      assert l in ls;
      assert l in c;
    }
    var cl := CurLits(ts, fr, ls);
    forall k | 0 <= k < |ls| ensures LitOk(n, cl[k]) {
      CurMeans(f, n, ts, fr, ls[k], {});
    }
    forall m: Model | HoldsAll(m, f) ensures HoldsClause(m, cl) <==> View(m, [fr]) in Ones(WithClause(ts, es, c)) {
      ViewOne(m, fr, es);
      ViewOne(m, fr, WithClause(ts, es, c));
      ClauseAt(f, n, ts, fr, ls, c, m);
    }
  }

  lemma ClauseAt(f: seq<seq<int>>, n: nat, ts: TS, fr: Frame, ls: seq<int>, c: Cube, m: Model)
    requires FrameOk(ts, fr) && FramesOk(f, n, [fr]) && forall l :: l in ls <==> l in c
    requires forall k | 0 <= k < |ls| :: Ic3Spec.IndexOk(ts, ls[k])
    ensures HoldsClause(m, CurLits(ts, fr, ls)) <==> Ic3Spec.SatClause(ts, c, EnvOf(m, fr.lits))
  {
    hide FramesOk, FrameOk, Ic3Spec.LitAt, CurLit, EnvOf, HoldsLit;
    var cl := CurLits(ts, fr, ls);
    forall k | 0 <= k < |ls|
        ensures cl[k] in cl && (HoldsLit(m, cl[k]) <==> Ic3Spec.LitAt(ts, ls[k], EnvOf(m, fr.lits))) {
      CurMeans(f, n, ts, fr, ls[k], m);
    }
    if HoldsClause(m, cl) {
      var q :| q in cl && HoldsLit(m, q);
      var k :| 0 <= k < |cl| && cl[k] == q;
      assert ls[k] in c;
    }
    if Ic3Spec.SatClause(ts, c, EnvOf(m, fr.lits)) {
      var l :| l in c && Ic3Spec.LitAt(ts, l, EnvOf(m, fr.lits));
      var k :| 0 <= k < |ls| && ls[k] == l;
      assert HoldsLit(m, cl[k]);
    }
  }

  /** The cube's literals as a list. */
  method Listed(c: Cube) returns (ls: seq<int>)
    ensures forall l :: l in ls <==> l in c
  {
    ls := [];
    var rest := c;
    while rest != {}
      invariant rest <= c && forall l :: l in ls <==> l in c && l !in rest
      decreases rest
    {
      ghost var p := Pick(rest);
      var l :| l in rest;
      ls := ls + [l];
      rest := rest - {l};
    }
  }

  /** Add a clause over the current state. */
  method AssertClause(ts: TS, s: Solver, fr: Frame, c: Cube, ghost es: iset<Env>)
    requires FrameOk(ts, fr) && Asks(s, fr, es) && Ic3Spec.CubeOk(ts, c)
    modifies s
    ensures Asks(s, fr, WithClause(ts, es, c))
    ensures old(s.formula) <= s.formula && s.nVars == old(s.nVars)
  {
    hide Ok, Says, ClauseOk, FramesOk, Shows, WithClause, FrameOk;
    var ls := Listed(c);
    OkParts(s, [fr], Ones(es));
    ClauseSays(s.formula, s.nVars, ts, fr, es, ls, c);
    Constrain(s, CurLits(ts, fr, ls), [fr], Ones(es), Ones(WithClause(ts, es, c)));
  }

  /** Add a unit clause over the current state. */
  method AssertLit(ts: TS, s: Solver, fr: Frame, l: int, ghost es: iset<Env>)
    requires FrameOk(ts, fr) && Asks(s, fr, es) && Ic3Spec.IndexOk(ts, l)
    modifies s
    ensures Asks(s, fr, WithLit(ts, es, l))
  {
    hide Ok, Says, ClauseOk, FramesOk, Shows, FrameOk;
    assert forall x :: x in [l] <==> x in {l};
    OkParts(s, [fr], Ones(es));
    ClauseSays(s.formula, s.nVars, ts, fr, es, [l], {l});
    UnitClause(ts, es, l);
    assert CurLits(ts, fr, [l]) == [CurLit(ts, fr, l)];
    Constrain(s, [CurLit(ts, fr, l)], [fr], Ones(es), Ones(WithClause(ts, es, {l})));
  }

  lemma UnitClause(ts: TS, es: iset<Env>, l: int)
    ensures WithClause(ts, es, {l}) == WithLit(ts, es, l)
  {
    assert l in {l};
  }

  // ---- sets of literals and clauses ------------------------------------------------------

  ghost function WithCube(ts: TS, es: iset<Env>, c: Cube): iset<Env> {
    iset e | e in es && Ic3Spec.InCube(ts, c, e)
  }

  lemma CubeGrows(ts: TS, es: iset<Env>, c: Cube, l: int)
    ensures WithLit(ts, WithCube(ts, es, c), l) == WithCube(ts, es, c + {l})
  {
  }

  /** Every literal of the cube holds now. */
  method AssertCube(ts: TS, s: Solver, fr: Frame, c: Cube, ghost es: iset<Env>)
    requires FrameOk(ts, fr) && Asks(s, fr, es) && Ic3Spec.CubeOk(ts, c)
    modifies s
    ensures Asks(s, fr, WithCube(ts, es, c))
  {
    hide Asks, FrameOk, WithLit;
    assert WithCube(ts, es, c - c) == es;
    hide WithCube;
    var rest := c;
    while rest != {}
      invariant rest <= c && Asks(s, fr, WithCube(ts, es, c - rest))
      decreases rest
    {
      ghost var p := Pick(rest);
      var l :| l in rest;
      CubeGrows(ts, es, c - rest, l);
      AssertLit(ts, s, fr, l, WithCube(ts, es, c - rest));
      assert c - rest + {l} == c - (rest - {l});
      rest := rest - {l};
    }
    assert c - rest == c;
  }

  ghost function WithAll(ts: TS, es: iset<Env>, cs: set<Cube>): iset<Env> {
    iset e | e in es && Ic3Spec.AllSat(ts, cs, e)
  }

  lemma AllGrows(ts: TS, es: iset<Env>, cs: set<Cube>, c: Cube)
    ensures WithClause(ts, WithAll(ts, es, cs), c) == WithAll(ts, es, cs + {c})
  {
  }

  /** Every clause of the set. */
  method AssertAll(ts: TS, s: Solver, fr: Frame, cs: set<Cube>, ghost es: iset<Env>)
    requires FrameOk(ts, fr) && Asks(s, fr, es) && forall c | c in cs :: Ic3Spec.CubeOk(ts, c)
    modifies s
    ensures Asks(s, fr, WithAll(ts, es, cs))
    ensures old(s.formula) <= s.formula && s.nVars == old(s.nVars)
  {
    hide Asks, FrameOk, WithClause;
    assert WithAll(ts, es, cs - cs) == es;
    hide WithAll;
    var rest := cs;
    while rest != {}
      invariant rest <= cs && Asks(s, fr, WithAll(ts, es, cs - rest))
      invariant old(s.formula) <= s.formula && s.nVars == old(s.nVars)
      decreases rest
    {
      ghost var p := Pick(rest);
      var c :| c in rest;
      AllGrows(ts, es, cs - rest, c);
      AssertClause(ts, s, fr, c, WithAll(ts, es, cs - rest));
      assert cs - rest + {c} == cs - (rest - {c});
      rest := rest - {c};
    }
    assert cs - rest == cs;
  }

  ghost function InFrame(ts: TS, es: iset<Env>, frames: seq<set<Cube>>, i: nat): iset<Env>
    requires Wf(ts)
  {
    iset e | e in es && Ic3Spec.FrameHas(ts, frames, i, e)
  }

  lemma FrameGrows(ts: TS, es: iset<Env>, frames: seq<set<Cube>>, i: nat, j: nat)
    requires Wf(ts) && 0 < i <= j < |frames|
    ensures WithAll(ts, FrameTo(ts, es, frames, i, j), frames[j]) == FrameTo(ts, es, frames, i, j + 1)
  {
  }

  ghost function FrameTo(ts: TS, es: iset<Env>, frames: seq<set<Cube>>, i: nat, j: nat): iset<Env>
    requires j <= |frames|
  {
    iset e | e in es && forall k | i <= k < j :: Ic3Spec.AllSat(ts, frames[k], e)
  }

  lemma FrameInit(ts: TS, es: iset<Env>, frames: seq<set<Cube>>)
    requires Wf(ts)
    ensures FromInit(ts, Ones(es), 0, |ts.state|) == Ones(InFrame(ts, es, frames, 0))
  {
    var a, b := FromInit(ts, Ones(es), 0, |ts.state|), Ones(InFrame(ts, es, frames, 0));
    forall tr: seq<Env> ensures tr in a <==> tr in b {
      if |tr| == 1 { InitToAll(ts, tr[0]); }
    }
    assert a == b;
  }

  /** _assert_init. */
  method AssertReset(ts: TS, s: Solver, fr: Frame, ghost es: iset<Env>, ghost frames: seq<set<Cube>>)
    requires Wf(ts) && FrameOk(ts, fr) && Asks(s, fr, es)
    modifies s
    ensures Asks(s, fr, InFrame(ts, es, frames, 0))
    ensures old(s.formula) <= s.formula && s.nVars == old(s.nVars)
  {
    hide Ok, Wf, InFrame, Ones, FromInit;
    AssertInit(s, ts, [fr], 0, Ones(es));
    FrameInit(ts, es, frames);
  }

  /** _assert_frame. */
  method AssertFrame(ts: TS, s: Solver, fr: Frame, frames: seq<set<Cube>>, i: nat, ghost es: iset<Env>)
    requires Wf(ts) && FrameOk(ts, fr) && Asks(s, fr, es) && Ic3Spec.FramesOk(ts, frames) && i < |frames|
    modifies s
    ensures Asks(s, fr, InFrame(ts, es, frames, i))
    ensures old(s.formula) <= s.formula && s.nVars == old(s.nVars)
  {
    hide Asks, FrameOk, Wf, WithAll;
    if i == 0 {
      AssertReset(ts, s, fr, es, frames);
      return;
    }
    var j := i;
    assert FrameTo(ts, es, frames, i, i) == es;
    while j < |frames|
      invariant i <= j <= |frames| && Asks(s, fr, FrameTo(ts, es, frames, i, j))
      invariant old(s.formula) <= s.formula && s.nVars == old(s.nVars)
    {
      FrameGrows(ts, es, frames, i, j);
      AssertAll(ts, s, fr, frames[j], FrameTo(ts, es, frames, i, j));
      j := j + 1;
    }
    assert FrameTo(ts, es, frames, i, j) == InFrame(ts, es, frames, i);
  }

  // ---- next-state literals -------------------------------------------------------------

  /** The next-state functions of the cube's bits have their literals. */
  ghost predicate NextOk(f: seq<seq<int>>, n: nat, ts: TS, fr: Frame, nxt: map<Name, int>, c: set<int>)
    requires Wf(ts)
  {
    forall l | l in c :: NextLitOk(f, n, ts, fr, nxt, l)
  }

  ghost predicate NextLitOk(f: seq<seq<int>>, n: nat, ts: TS, fr: Frame, nxt: map<Name, int>, l: int)
    requires Wf(ts)
  {
    && Ic3Spec.IndexOk(ts, l) && Ic3Spec.Bit(ts, l) in States(ts) && Ic3Spec.Bit(ts, l) in nxt
    && LitFor(f, n, [fr], 0, ts.next[Ic3Spec.Bit(ts, l)], nxt[Ic3Spec.Bit(ts, l)])
  }

  lemma NextOkLater(f: seq<seq<int>>, n: nat, f': seq<seq<int>>, n': nat, ts: TS, fr: Frame, fr': Frame,
      nxt: map<Name, int>, c: set<int>)
    requires Wf(ts) && NextOk(f, n, ts, fr, nxt, c) && f <= f' && n <= n' && fr'.lits == fr.lits
    ensures NextOk(f', n', ts, fr', nxt, c)
  {
    forall l | l in c ensures NextLitOk(f', n', ts, fr', nxt, l) {
      LitForLater(f, n, f', n', [fr], 0, ts.next[Ic3Spec.Bit(ts, l)], nxt[Ic3Spec.Bit(ts, l)]);
    }
  }

  lemma NextOkAdd(f: seq<seq<int>>, n: nat, ts: TS, fr: Frame, nxt: map<Name, int>, c: set<int>, l: int, lit: int)
    requires Wf(ts) && NextOk(f, n, ts, fr, nxt, c) && Ic3Spec.IndexOk(ts, l) && Ic3Spec.Bit(ts, l) in States(ts)
    requires LitFor(f, n, [fr], 0, ts.next[Ic3Spec.Bit(ts, l)], lit)
    ensures NextOk(f, n, ts, fr, nxt[Ic3Spec.Bit(ts, l) := lit], c + {l})
  {
    hide LitFor;
    var nxt' := nxt[Ic3Spec.Bit(ts, l) := lit];
    forall x | x in c + {l} ensures NextLitOk(f, n, ts, fr, nxt', x) {
      assert x != l ==> NextLitOk(f, n, ts, fr, nxt, x);
    }
  }

  /** _query: one fresh cycle, and only the cones of the bits in `need` encoded. */
  method Query(ts: TS, need: Cube) returns (s: Solver, fr: Frame, nxt: map<Name, int>)
    requires Wf(ts) && Ic3Spec.CubeOk(ts, need)
    ensures fresh(s) && FrameOk(ts, fr) && Asks(s, fr, AnyEnv(ts)) && NextOk(s.formula, s.nVars, ts, fr, nxt, need)
  {
    hide Ok, Wf, FrameOk, LitFor, Ones, NextOk, Grows, Solver.Valid;
    s := new Solver();
    OkEmpty(s);
    fr := FreshFrame(s, ts, [], iset{[]});
    FreshOne(ts);
    assert [] + [fr] == [fr];
    assert FrameOk(ts, fr) by { FreshFrameOk(ts, fr); }
    nxt := map[];
    NoNext(s.formula, s.nVars, ts, fr, nxt);
    assert need - need == {};
    var rest := need;
    while rest != {}
      invariant rest <= need && Asks(s, fr, AnyEnv(ts)) && FrameOk(ts, fr) && fresh(s)
      invariant NextOk(s.formula, s.nVars, ts, fr, nxt, need - rest)
      decreases rest
    {
      ghost var p := Pick(rest);
      var l :| l in rest;
      ghost var f, n, fr0 := s.formula, s.nVars, fr;
      BitRead(ts, fr, l);
      var lit, frames' := Encode(s, [fr], 0, ts.next[Ic3Spec.Bit(ts, l)], Ones(AnyEnv(ts)));
      fr := frames'[0];
      assert frames' == [fr];
      SameFrameOk(ts, fr0, fr);
      GrowsPrefix(f, n, s.formula, s.nVars);
      NextOkLater(f, n, s.formula, s.nVars, ts, fr0, fr, nxt, need - rest);
      NextOkAdd(s.formula, s.nVars, ts, fr, nxt, need - rest, l, lit);
      nxt := nxt[Ic3Spec.Bit(ts, l) := lit];
      assert need - rest + {l} == need - (rest - {l});
      rest := rest - {l};
    }
    assert need - rest == need;
  }

  lemma FreshOne(ts: TS)
    ensures Extended(iset{[]}, 0, Names(ts)) == Ones(AnyEnv(ts))
  {
    forall tr: seq<Env> ensures tr in Extended(iset{[]}, 0, Names(ts)) <==> tr in Ones(AnyEnv(ts)) {
      if |tr| == 1 { assert tr[..0] == []; }
    }
  }

  lemma FreshFrameOk(ts: TS, fr: Frame)
    requires fr.lits.Keys == Names(ts) && Positive(fr)
    ensures FrameOk(ts, fr)
  {
  }

  lemma SameFrameOk(ts: TS, fr: Frame, fr': Frame)
    requires FrameOk(ts, fr) && fr'.lits == fr.lits
    ensures FrameOk(ts, fr')
  {
  }

  lemma NoNext(f: seq<seq<int>>, n: nat, ts: TS, fr: Frame, nxt: map<Name, int>)
    requires Wf(ts)
    ensures NextOk(f, n, ts, fr, nxt, {})
  {
  }

  lemma BitRead(ts: TS, fr: Frame, l: int)
    requires Wf(ts) && FrameOk(ts, fr) && Ic3Spec.IndexOk(ts, l)
    ensures Ic3Spec.Bit(ts, l) in States(ts) && Ic3Spec.Bit(ts, l) in ts.next
    ensures Support(ts.next[Ic3Spec.Bit(ts, l)]) <= fr.lits.Keys
  {
  }

  /** The next state is in the cube. */
  ghost function WithNext(ts: TS, es: iset<Env>, c: Cube): iset<Env>
    requires Wf(ts)
  {
    iset e | e in es && Ic3Spec.InCube(ts, c, Next(ts, e))
  }

  lemma NextSays(f: seq<seq<int>>, n: nat, ts: TS, fr: Frame, es: iset<Env>, c: Cube, l: int, lit: int)
    requires Wf(ts) && Ic3Spec.IndexOk(ts, l) && Shows(f, [fr], Ones(WithNext(ts, es, c)))
    requires Ic3Spec.Bit(ts, l) in States(ts) && LitFor(f, n, [fr], 0, ts.next[Ic3Spec.Bit(ts, l)], lit)
    ensures var cl := [if l > 0 then lit else -lit];
      ClauseOk(n, cl) && Says(f, [fr], cl, Ones(WithNext(ts, es, c + {l})))
    ensures Ones(WithNext(ts, es, c + {l})) <= Ones(WithNext(ts, es, c))
  {
    hide Shows, HoldsAll, Eval;
    var cl := [if l > 0 then lit else -lit];
    assert cl[0] in cl;
    forall m: Model | HoldsAll(m, f) ensures HoldsClause(m, cl) <==> View(m, [fr]) in Ones(WithNext(ts, es, c + {l})) {
      var e := EnvOf(m, fr.lits);
      ViewOne(m, fr, WithNext(ts, es, c));
      ViewOne(m, fr, WithNext(ts, es, c + {l}));
      ShowsIn(f, fr, WithNext(ts, es, c), m);
      assert Ic3Spec.LitAt(ts, l, Next(ts, e)) <==> (Eval(ts.next[Ic3Spec.Bit(ts, l)], e) == (l > 0));
    }
  }

  lemma ShowsIn(f: seq<seq<int>>, fr: Frame, es: iset<Env>, m: Model)
    requires Shows(f, [fr], Ones(es)) && HoldsAll(m, f)
    ensures EnvOf(m, fr.lits) in es
  {
    assert View(m, [fr]) in Ones(es);
  }

  /** Unit clauses: the next state is in the cube. */
  method AssertNext(ts: TS, s: Solver, fr: Frame, nxt: map<Name, int>, c: Cube, ghost need: Cube, ghost es: iset<Env>)
    requires Wf(ts) && Asks(s, fr, es)
    requires c <= need && NextOk(s.formula, s.nVars, ts, fr, nxt, need)
    modifies s
    ensures Asks(s, fr, WithNext(ts, es, c))
  {
    hide Ok, Wf, LitFor, NextOk, Says, Shows, FramesOk, Ones, ClauseOk;
    assert WithNext(ts, es, c - c) == es;
    hide WithNext;
    var rest := c;
    while rest != {}
      invariant rest <= c && Asks(s, fr, WithNext(ts, es, c - rest))
      invariant NextOk(s.formula, s.nVars, ts, fr, nxt, need)
      decreases rest
    {
      ghost var p := Pick(rest);
      var l :| l in rest;
      ghost var f, n, done := s.formula, s.nVars, c - rest;
      NextOkAt(f, n, ts, fr, nxt, need, l);
      var lit := nxt[Ic3Spec.Bit(ts, l)];
      OkParts(s, [fr], Ones(WithNext(ts, es, done)));
      NextSays(f, n, ts, fr, es, done, l, lit);
      Constrain(s, [if l > 0 then lit
          else -lit], [fr], Ones(WithNext(ts, es, done)), Ones(WithNext(ts, es, done + {l})));
      NextOkLater(f, n, s.formula, s.nVars, ts, fr, fr, nxt, need);
      assert done + {l} == c - (rest - {l});
      rest := rest - {l};
    }
    assert c - rest == c;
  }

  lemma NextOkAt(f: seq<seq<int>>, n: nat, ts: TS, fr: Frame, nxt: map<Name, int>, c: Cube, l: int)
    requires Wf(ts) && NextOk(f, n, ts, fr, nxt, c) && l in c
    ensures Ic3Spec.IndexOk(ts, l) && Ic3Spec.Bit(ts, l) in States(ts) && Ic3Spec.Bit(ts, l) in nxt
    ensures LitFor(f, n, [fr], 0, ts.next[Ic3Spec.Bit(ts, l)], nxt[Ic3Spec.Bit(ts, l)])
  {
  }

  /** The verdict, with the valuation of a satisfiable query. */
  method Answer(ts: TS, s: Solver, fr: Frame, ghost es: iset<Env>) returns (e: Option<Env>)
    requires FrameOk(ts, fr) && Asks(s, fr, es) && es <= AnyEnv(ts)
    modifies s
    ensures e.Some? ==> e.value in es
    ensures e.None? ==> es == iset{}
  {
    hide Ok, Ones;
    var sat := Check(s, [fr], Ones(es));
    if sat {
      ViewOne(TrueVars(s.A()), fr, es);
      assert NameSet(ts.state + ts.inputs) == Names(ts);
      var v := ReadFrame(s, fr, ts.state + ts.inputs);
      assert v == EnvOf(TrueVars(s.A()), fr.lits);
      e := Some(v);
    } else {
      e := None;
      forall x ensures x !in es {
        OneIn(es, x);
      }
    }
  }

  lemma OneIn(es: iset<Env>, e: Env)
    ensures e in es <==> [e] in Ones(es)
  {
  }
}

/** IC3 / property-directed reachability. */
module Ic3 {
  import opened Sets
  import opened Circuit
  import opened Cdcl
  import opened Trail
  import opened Transition
  import opened Frames
  import opened Ic3Spec
  import opened Lifting
  import opened Queries

  // ---- from a lifted witness to an obligation ------------------------------------------

  /** The state of one valuation with the inputs of another. */
  lemma WithInputs(ts: TS, e0: Env, e: Env) returns (e1: Env)
    requires Wf(ts) && e0 <= Names(ts)
    ensures Twin(ts, e0, e1) && e1 * Inputs(ts) == e * Inputs(ts)
  {
    e1 := e0 * States(ts) + e * Inputs(ts);
    assert e1 * States(ts) == e0 * States(ts);
  }

  lemma LiftedBad(ts: TS, cube: Cube, e: Env)
    requires Wf(ts) && SpeaksFor(ts, cube, e, [(ts.bad, true)])
    ensures BadCube(ts, cube)
  {
    forall e0 | e0 <= Names(ts) && InCube(ts, cube, e0)
        ensures Twin(ts, e0, TwinBad(ts, e0)) && Eval(ts.bad, TwinBad(ts, e0)) {
      var e1 := WithInputs(ts, e0, e);
      SameState(ts, e0, e1);
      assert Meets([(ts.bad, true)], e1);
      assert Eval([(ts.bad, true)][0].0, e1) == true;
    }
  }

  /** The next-state functions of the cube's bits, with the values the cube wants. */
  ghost predicate TargetsFor(ts: TS, c: Cube, targets: Targets)
    requires Wf(ts)
  {
    && CubeOk(ts, c) && TargetsOk(ts, targets)
    && (forall l | l in c :: Bit(ts, l) in States(ts) && Target(ts, l) in targets)
    && (forall k | 0 <= k < |targets| :: Wanted(ts, c, targets[k]))
  }

  ghost predicate Wanted(ts: TS, c: Cube, t: (Sig, bool))
    requires Wf(ts) && CubeOk(ts, c)
  {
    exists l | l in c :: Bit(ts, l) in States(ts) && t == Target(ts, l)
  }

  function Target(ts: TS, l: int): (Sig, bool)
    requires IndexOk(ts, l) && States(ts) <= ts.next.Keys && Bit(ts, l) in States(ts)
  {
    (ts.next[Bit(ts, l)], l > 0)
  }

  lemma TargetsMean(ts: TS, c: Cube, targets: Targets, e: Env)
    requires Wf(ts) && TargetsFor(ts, c, targets)
    ensures Meets(targets, e) <==> InCube(ts, c, Next(ts, e))
  {
    if Meets(targets, e) {
      forall l | l in c ensures LitAt(ts, l, Next(ts, e)) {
        assert Target(ts, l) in targets;
        var k :| 0 <= k < |targets| && targets[k] == Target(ts, l);
      }
    }
    if InCube(ts, c, Next(ts, e)) {
      forall k | 0 <= k < |targets| ensures Eval(targets[k].0, e) == targets[k].1 {
        assert Wanted(ts, c, targets[k]);
        var l :| l in c && Bit(ts, l) in States(ts) && targets[k] == Target(ts, l);
        assert LitAt(ts, l, Next(ts, e));
      }
    }
  }

  lemma LiftedLeads(ts: TS, p: Cube, e: Env, c: Cube, targets: Targets)
    requires Wf(ts) && SpeaksFor(ts, p, e, targets) && TargetsFor(ts, c, targets)
    ensures Leads(ts, p, c)
  {
    forall e0 | e0 <= Names(ts) && InCube(ts, p, e0)
      ensures Twin(ts, e0, TwinInto(ts, e0, c)) && InCube(ts, c, Next(ts, TwinInto(ts, e0, c)))
    {
      var e1 := WithInputs(ts, e0, e);
      SameState(ts, e0, e1);
      TargetsMean(ts, c, targets, e1);
    }
  }

  method TargetsOf(ts: TS, c: Cube) returns (targets: Targets)
    requires Wf(ts) && CubeOk(ts, c)
    ensures TargetsFor(ts, c, targets)
  {
    targets := [];
    var rest := c;
    while rest != {}
      invariant rest <= c && TargetsFor(ts, c - rest, targets)
      decreases rest
    {
      ghost var p := Pick(rest);
      var l :| l in rest;
      assert Bit(ts, l) in ts.state && Bit(ts, l) in States(ts);
      TargetsAdd(ts, c - rest, targets, l);
      targets := targets + [Target(ts, l)];
      assert c - rest + {l} == c - (rest - {l});
      rest := rest - {l};
    }
    assert c - rest == c;
  }

  lemma TargetsAdd(ts: TS, c: Cube, targets: Targets, l: int)
    requires Wf(ts) && TargetsFor(ts, c, targets) && IndexOk(ts, l) && Bit(ts, l) in States(ts)
    ensures TargetsFor(ts, c + {l}, targets + [Target(ts, l)])
  {
    hide Bit;
    var ts' := targets + [Target(ts, l)];
    assert ts'[|targets|] == Target(ts, l);
    forall x | x in c + {l} ensures Bit(ts, x) in States(ts) && Target(ts, x) in ts' {
      if x != l { assert Target(ts, x) in targets; }
    }
    forall k | 0 <= k < |ts'| ensures Wanted(ts, c + {l}, ts'[k]) {
      if k < |targets| {
        assert Wanted(ts, c, targets[k]);
      } else {
        assert l in c + {l};
      }
    }
  }

  // ---- the queries ------------------------------------------------------------------------

  ghost function WithBad(ts: TS, es: iset<Env>): iset<Env> {
    iset e | e in es && Eval(ts.bad, e)
  }

  lemma HavingBad(ts: TS, es: iset<Env>)
    ensures Having(Ones(es), 0, ts.bad, true) == Ones(WithBad(ts, es))
  {
  }

  method AssertBad(ts: TS, s: Solver, fr0: Frame, ghost es: iset<Env>) returns (fr: Frame)
    requires Wf(ts) && FrameOk(ts, fr0) && Asks(s, fr0, es)
    modifies s
    ensures FrameOk(ts, fr) && Asks(s, fr, WithBad(ts, es))
  {
    hide Ok, Having, Ones, WithBad;
    var frames := AssertSig(s, [fr0], 0, ts.bad, true, Ones(es));
    fr := frames[0];
    assert frames == [fr];
    HavingBad(ts, es);
  }

  /** The cube is lifted as far as it goes: the whole state if the targets do not depend on it, and else
      no literal can be dropped. */
  ghost predicate LeastLift(ts: TS, targets: Targets, cube: Cube, e: Env)
    requires Wf(ts) && e <= Names(ts)
  {
    if Stateless(ts, targets, e) then Minterm(ts, cube) else Tight(ts, targets, cube, e)
  }

  ghost predicate LiftedFrom(ts: TS, c: Cube, p: Cube, e: Env)
    requires Wf(ts) && e <= Names(ts)
  {
    exists targets :: TargetsFor(ts, c, targets) && LeastLift(ts, targets, p, e)
  }

  /** _bad_cube: a state of F_k that is bad, lifted to a cube. `w` is the witness. */
  method FindBad(ts: TS, frames: seq<set<Cube>>, k: nat) returns (r: Option<Cube>, ghost w: Env)
    requires Wf(ts) && Ic3Spec.FramesOk(ts, frames) && k < |frames|
    ensures r.None? ==> Clean(ts, frames, k)
    ensures r.Some? ==>
        CubeOk(ts, r.value) && BadCube(ts, r.value) && FrameHas(ts, frames, k, w) && InCube(ts, r.value, w)
    ensures r.Some? ==> w <= Names(ts) && Eval(ts.bad, w) && LeastLift(ts, [(ts.bad, true)], r.value, w)
  {
    hide Asks, FrameOk, Wf, FrameHas, Stateless, Tight, Minterm;
    var s, fr, _ := Query(ts, {});
    AssertFrame(ts, s, fr, frames, k, AnyEnv(ts));
    fr := AssertBad(ts, s, fr, InFrame(ts, AnyEnv(ts), frames, k));
    var e := Answer(ts, s, fr, WithBad(ts, InFrame(ts, AnyEnv(ts), frames, k)));
    w := {};
    if e.None? {
      r := None;
      assert forall x | x <= Names(ts) && FrameHas(ts, frames, k, x) && Eval(ts.bad, x) ::
          x in WithBad(ts, InFrame(ts, AnyEnv(ts), frames, k));
    } else {
      w := e.value;
      BadTarget(ts, w);
      var cube := Lift(ts, e.value, [(ts.bad, true)]);
      LiftedBad(ts, cube, w);
      r := Some(cube);
    }
  }

  lemma BadTarget(ts: TS, e: Env)
    requires Wf(ts) && Eval(ts.bad, e)
    ensures TargetsOk(ts, [(ts.bad, true)]) && Meets([(ts.bad, true)], e)
  {
  }

  /** _predecessor: a state of F_i outside the cube that steps into it, lifted. */
  method Predecessor(ts: TS, frames: seq<set<Cube>>, c: Cube, i: nat) returns (r: Option<Cube>, ghost w: Env)
    requires Wf(ts) && Ic3Spec.FramesOk(ts, frames) && i < |frames| && CubeOk(ts, c)
    ensures r.None? ==> InductiveRel(ts, frames, Negate(c), i)
    ensures r.Some? ==>
      CubeOk(ts, r.value) && Leads(ts, r.value, c) && w <= Names(ts) && FrameHas(ts, frames, i, w)
          && InCube(ts, r.value, w)
    ensures r.Some? ==> !InCube(ts, c, w) && InCube(ts, c, Next(ts, w)) && LiftedFrom(ts, c, r.value, w)
  {
    hide Asks, FrameOk, Wf, FrameHas, NextOk, Negate, Stateless, Tight, Minterm;
    NegateOk(ts, c);
    var s, fr, nxt := Query(ts, c);
    ghost var f, n := s.formula, s.nVars;
    ghost var es := InFrame(ts, AnyEnv(ts), frames, i);
    AssertFrame(ts, s, fr, frames, i, AnyEnv(ts));
    AssertClause(ts, s, fr, Negate(c), es);
    NextOkLater(f, n, s.formula, s.nVars, ts, fr, fr, nxt, c);
    ghost var all := WithNext(ts, WithClause(ts, es, Negate(c)), c);
    AssertNext(ts, s, fr, nxt, c, c, WithClause(ts, es, Negate(c)));
    var e := Answer(ts, s, fr, all);
    w := {};
    if e.None? {
      NoPredecessor(ts, frames, c, i, all);
      r := None;
    } else {
      w := e.value;
      var targets := TargetsOf(ts, c);
      TargetsMean(ts, c, targets, w);
      var p := Lift(ts, e.value, targets);
      LiftedLeads(ts, p, w, c, targets);
      NegateMeans(ts, c, w);
      assert LeastLift(ts, targets, p, w);
      r := Some(p);
    }
  }

  lemma NoPredecessor(ts: TS, frames: seq<set<Cube>>, c: Cube, i: nat, all: iset<Env>)
    requires Wf(ts) && CubeOk(ts, c) && all == iset{}
    requires all == WithNext(ts, WithClause(ts, InFrame(ts, AnyEnv(ts), frames, i), Negate(c)), c)
    ensures InductiveRel(ts, frames, Negate(c), i)
  {
    hide FrameHas, InCube, SatClause, Negate;
    forall e, e' | Follows(ts, e, e') && FrameHas(ts, frames, i, e) && SatClause(ts, Negate(c), e)
      ensures SatClause(ts, Negate(c), e')
    {
      assert e !in all;
      assert Next(ts, e) * States(ts) == Next(ts, e);
      SameState(ts, e', Next(ts, e));
      NegateMeans(ts, c, e');
    }
  }

  /** _init_intersects. */
  method InitIntersects(ts: TS, c: Cube) returns (b: bool)
    requires Wf(ts) && CubeOk(ts, c)
    ensures b <==> MeetsInit(ts, c)
  {
    hide Asks, FrameOk, Wf;
    var s, fr, _ := Query(ts, {});
    ghost var es := InFrame(ts, AnyEnv(ts), [], 0);
    AssertReset(ts, s, fr, AnyEnv(ts), []);
    AssertCube(ts, s, fr, c, es);
    var e := Answer(ts, s, fr, WithCube(ts, es, c));
    b := e.Some?;
    assert forall x | x <= Names(ts) && IsInit(ts, x) && InCube(ts, c, x) :: x in WithCube(ts, es, c);
  }

  /** _init_intersects_bad. */
  method InitIntersectsBad(ts: TS) returns (b: bool)
    requires Wf(ts)
    ensures b <==> !Clean(ts, [{}, {}], 0)
    ensures b ==> BadAt(ts, 0)
  {
    hide Asks, FrameOk, Wf;
    var s, fr, _ := Query(ts, {});
    ghost var es := InFrame(ts, AnyEnv(ts), [], 0);
    AssertReset(ts, s, fr, AnyEnv(ts), []);
    fr := AssertBad(ts, s, fr, es);
    var e := Answer(ts, s, fr, WithBad(ts, es));
    b := e.Some?;
    assert forall x | x <= Names(ts) && IsInit(ts, x) && Eval(ts.bad, x) :: x in WithBad(ts, es);
    if b {
      ResetBad(ts, e.value);
    }
  }

  lemma ResetBad(ts: TS, e: Env)
    requires Wf(ts) && e <= Names(ts) && IsInit(ts, e) && Eval(ts.bad, e)
    ensures BadAt(ts, 0)
  {
    assert Run(ts, [e]) && |[e]| == 0 + 1 && Eval(ts.bad, [e][0]);
  }

  /** _inductive_rel. */
  method IsInductive(ts: TS, frames: seq<set<Cube>>, clause: Cube, i: nat) returns (b: bool)
    requires Wf(ts) && Ic3Spec.FramesOk(ts, frames) && i < |frames| && CubeOk(ts, clause)
    ensures b <==> InductiveRel(ts, frames, clause, i)
  {
    hide Asks, FrameOk, Wf, FrameHas, NextOk, Negate;
    NegateOk(ts, clause);
    var s, fr, nxt := Query(ts, Negate(clause));
    ghost var f, n := s.formula, s.nVars;
    ghost var es := InFrame(ts, AnyEnv(ts), frames, i);
    AssertFrame(ts, s, fr, frames, i, AnyEnv(ts));
    AssertClause(ts, s, fr, clause, es);
    NextOkLater(f, n, s.formula, s.nVars, ts, fr, fr, nxt, Negate(clause));
    ghost var all := WithNext(ts, WithClause(ts, es, clause), Negate(clause));
    AssertNext(ts, s, fr, nxt, Negate(clause), Negate(clause), WithClause(ts, es, clause));
    var e := Answer(ts, s, fr, all);
    b := e.None?;
    InductiveQuery(ts, frames, clause, i, all);
    assert e.Some? ==> e.value in all;
  }

  lemma InductiveQuery(ts: TS, frames: seq<set<Cube>>, clause: Cube, i: nat, all: iset<Env>)
    requires Wf(ts) && CubeOk(ts, clause)
    requires all == WithNext(ts, WithClause(ts, InFrame(ts, AnyEnv(ts), frames, i), clause), Negate(clause))
    ensures InductiveRel(ts, frames, clause, i) <==> all == iset{}
  {
    hide FrameHas, SatClause, Negate;
    NegateOk(ts, clause);
    NegateTwice(clause);
    forall e, e' | Follows(ts, e, e') && FrameHas(ts, frames, i, e) && SatClause(ts, clause, e)
      ensures SatClause(ts, clause, e') <==> e !in all
    {
      assert Next(ts, e) * States(ts) == Next(ts, e);
      SameState(ts, e', Next(ts, e));
      NegateMeans(ts, Negate(clause), e');
    }
    forall e | e in all ensures Follows(ts, e, Next(ts, e)) {
      assert Next(ts, e) * States(ts) == Next(ts, e);
    }
  }

  lemma NegateTwice(c: Cube)
    ensures Negate(Negate(c)) == c
  {
    forall l ensures l in Negate(Negate(c)) <==> l in c {
      NegateIn(Negate(c), l);
      NegateIn(c, -l);
    }
  }
}

/** IC3's frames and proof obligations as facts about transition systems. */
module Ic3Spec {
  import opened Circuit
  import opened Transition

  /** Signed state-bit indices, from 1. */
  type Cube = set<int>

  predicate IndexOk(ts: TS, l: int) {
    -|ts.state| <= l <= |ts.state| && l != 0
  }

  function Bit(ts: TS, l: int): Name
    requires IndexOk(ts, l)
  {
    ts.state[(if l > 0 then l else -l) - 1]
  }

  predicate CubeOk(ts: TS, c: Cube) {
    forall l | l in c :: IndexOk(ts, l)
  }

  predicate LitAt(ts: TS, l: int, e: Env) {
    IndexOk(ts, l) && ((Bit(ts, l) in e) == (l > 0))
  }

  predicate InCube(ts: TS, c: Cube, e: Env) {
    forall l | l in c :: LitAt(ts, l, e)
  }

  predicate SatClause(ts: TS, c: Cube, e: Env) {
    exists l | l in c :: LitAt(ts, l, e)
  }

  function Negate(c: Cube): Cube {
    set l | l in c :: -l
  }

  lemma NegateIn(c: Cube, l: int)
    ensures l in Negate(c) <==> -l in c
  {
    assert -l in c ==> -(-l) in Negate(c);
  }

  lemma LitNegate(ts: TS, l: int, e: Env)
    requires IndexOk(ts, l)
    ensures IndexOk(ts, -l) && (LitAt(ts, -l, e) <==> !LitAt(ts, l, e))
  {
    assert Bit(ts, l) == Bit(ts, -l);
  }

  lemma NegateOk(ts: TS, c: Cube)
    requires CubeOk(ts, c)
    ensures CubeOk(ts, Negate(c))
  {
    forall l | l in Negate(c) ensures IndexOk(ts, l) {
      NegateIn(c, l);
      assert IndexOk(ts, -l);
    }
  }

  lemma NegateMeans(ts: TS, c: Cube, e: Env)
    requires CubeOk(ts, c)
    ensures SatClause(ts, Negate(c), e) <==> !InCube(ts, c, e)
  {
    hide Negate, LitAt;
    forall l | l in Negate(c) ensures -l in c && (LitAt(ts, l, e) <==> !LitAt(ts, -l, e)) {
      NegateIn(c, l);
      LitNegate(ts, -l, e);
    }
    if !InCube(ts, c, e) {
      var l :| l in c && !LitAt(ts, l, e);
      NegateIn(c, -l);
      LitNegate(ts, l, e);
    }
  }

  predicate AllSat(ts: TS, cs: set<Cube>, e: Env) {
    forall c | c in cs :: SatClause(ts, c, e)
  }

  ghost predicate IsInit(ts: TS, e: Env)
    requires Wf(ts)
  {
    e * States(ts) == InitState(ts)
  }

  /** The valuation's state is in frame F_i: reset for i = 0, else every clause of
      frames i and up. */
  ghost predicate FrameHas(ts: TS, frames: seq<set<Cube>>, i: nat, e: Env)
    requires Wf(ts)
  {
    if i == 0 then IsInit(ts, e) else forall j | i <= j < |frames| :: AllSat(ts, frames[j], e)
  }

  ghost predicate FramesOk(ts: TS, frames: seq<set<Cube>>) {
    forall j, c | 0 <= j < |frames| && c in frames[j] :: CubeOk(ts, c)
  }

  /** Frames hold Init, and each holds what the one before it can step to. */
  ghost predicate Covers(ts: TS, frames: seq<set<Cube>>)
    requires Wf(ts)
  {
    && (forall i: nat, e | i < |frames| && IsInit(ts, e) :: FrameHas(ts, frames, i, e))
    && (forall i: nat, e, e' | i + 1 < |frames| && Follows(ts, e, e') && FrameHas(ts, frames, i, e) ::
          FrameHas(ts, frames, i + 1, e'))
  }

  ghost predicate Follows(ts: TS, e: Env, e': Env)
    requires Wf(ts)
  {
    e <= Names(ts) && e' * States(ts) == Next(ts, e)
  }

  /** Frame F_i has no bad cycle. */
  ghost predicate Clean(ts: TS, frames: seq<set<Cube>>, i: nat)
    requires Wf(ts)
  {
    forall e | e <= Names(ts) && FrameHas(ts, frames, i, e) :: !Eval(ts.bad, e)
  }

  /** What every step of the engine keeps. */
  ghost predicate Inv(ts: TS, frames: seq<set<Cube>>)
    requires Wf(ts)
  {
    && |frames| >= 2 && FramesOk(ts, frames) && Nested(frames) && Covers(ts, frames)
    && forall i: nat | i + 1 < |frames| :: Clean(ts, frames, i)
  }

  /** The frame has the clause or one that subsumes it. */
  predicate Kept(cs: set<Cube>, c: Cube) {
    exists d :: d in cs && d <= c
  }

  /** Each frame keeps the clauses of the next one. */
  ghost predicate Nested(frames: seq<set<Cube>>) {
    forall i: nat, c | 0 < i && i + 1 < |frames| && c in frames[i + 1] :: Kept(frames[i], c)
  }

  // ---- only the state bits count ------------------------------------------------------

  lemma SameState(ts: TS, e: Env, e': Env)
    requires e * States(ts) == e' * States(ts)
    ensures forall l :: LitAt(ts, l, e) <==> LitAt(ts, l, e')
    ensures forall c :: InCube(ts, c, e) <==> InCube(ts, c, e')
    ensures forall c :: SatClause(ts, c, e) <==> SatClause(ts, c, e')
    ensures forall cs :: AllSat(ts, cs, e) <==> AllSat(ts, cs, e')
  {
    forall l ensures LitAt(ts, l, e) <==> LitAt(ts, l, e') {
      if IndexOk(ts, l) {
        assert Bit(ts, l) in States(ts);
        assert Bit(ts, l) in e <==> Bit(ts, l) in e * States(ts);
        assert Bit(ts, l) in e' <==> Bit(ts, l) in e' * States(ts);
      }
    }
  }

  lemma FrameState(ts: TS, frames: seq<set<Cube>>, i: nat, e: Env, e': Env)
    requires Wf(ts) && e * States(ts) == e' * States(ts)
    ensures FrameHas(ts, frames, i, e) <==> FrameHas(ts, frames, i, e')
  {
    SameState(ts, e, e');
  }

  lemma FrameMonotone(ts: TS, frames: seq<set<Cube>>, i: nat, j: nat, e: Env)
    requires Wf(ts) && Covers(ts, frames) && i <= j < |frames| && FrameHas(ts, frames, i, e)
    ensures FrameHas(ts, frames, j, e)
  {
  }

  /** Frame F_i holds every state reachable in at most i steps. */
  lemma {:induction false} RunInFrame(ts: TS, frames: seq<set<Cube>>, tr: seq<Env>, i: nat)
    requires Wf(ts) && Covers(ts, frames) && Run(ts, tr) && |tr| - 1 <= i < |frames|
    ensures FrameHas(ts, frames, i, tr[|tr| - 1])
    decreases |tr|
  {
    var k := |tr| - 1;
    if k == 0 {
      assert IsInit(ts, tr[0]);
    } else {
      PathSlice(ts, tr, 0, k);
      assert tr[0..k] == tr[..k];
      RunInFrame(ts, frames, tr[..k], k - 1);
      assert Steps(ts, tr[k - 1], tr[k]);
      assert Follows(ts, tr[k - 1], tr[k]);
      FrameMonotone(ts, frames, k, i, tr[k]);
    }
  }

  /** A clean frame is a bound on the depth of any counterexample. */
  lemma CleanDepth(ts: TS, frames: seq<set<Cube>>, i: nat)
    requires Wf(ts) && Covers(ts, frames) && i < |frames| && Clean(ts, frames, i)
    ensures !BadAt(ts, i)
  {
    forall tr | |tr| == i + 1 && Run(ts, tr) ensures !Eval(ts.bad, tr[i]) {
      RunInFrame(ts, frames, tr, i);
      assert tr[i] <= Names(ts);
    }
  }

  // ---- inductive invariants ----------------------------------------------------------

  /** The clauses hold at reset, each step keeps them, and they rule out bad. */
  ghost predicate Proves(ts: TS, inv: set<Cube>)
    requires Wf(ts)
  {
    && (forall e | IsInit(ts, e) :: AllSat(ts, inv, e))
    && (forall e, e' | Follows(ts, e, e') && AllSat(ts, inv, e) :: AllSat(ts, inv, e'))
    && (forall e | e <= Names(ts) && AllSat(ts, inv, e) :: !Eval(ts.bad, e))
  }

  lemma {:induction false} InvariantHolds(ts: TS, inv: set<Cube>, tr: seq<Env>)
    requires Wf(ts) && Proves(ts, inv) && Run(ts, tr)
    ensures AllSat(ts, inv, tr[|tr| - 1])
    decreases |tr|
  {
    var k := |tr| - 1;
    if k == 0 {
      assert IsInit(ts, tr[0]);
    } else {
      PathSlice(ts, tr, 0, k);
      assert tr[0..k] == tr[..k];
      InvariantHolds(ts, inv, tr[..k]);
      assert Steps(ts, tr[k - 1], tr[k]);
      assert Follows(ts, tr[k - 1], tr[k]);
    }
  }

  lemma InvariantSafe(ts: TS, inv: set<Cube>)
    requires Wf(ts) && Proves(ts, inv)
    ensures Safe(ts)
  {
    forall k: nat ensures !BadAt(ts, k) {
      forall tr | |tr| == k + 1 && Run(ts, tr) ensures !Eval(ts.bad, tr[k]) {
        InvariantHolds(ts, inv, tr);
        assert tr[k] <= Names(ts);
      }
    }
  }

  ghost function Union(frames: seq<set<Cube>>, i: nat): set<Cube> {
    set j, c | i <= j < |frames| && c in frames[j] :: c
  }

  lemma UnionFrame(ts: TS, frames: seq<set<Cube>>, i: nat, e: Env)
    requires Wf(ts) && i > 0
    ensures AllSat(ts, Union(frames, i), e) <==> FrameHas(ts, frames, i, e)
  {
    if FrameHas(ts, frames, i, e) {
      forall c | c in Union(frames, i) ensures SatClause(ts, c, e) {
        var j :| i <= j < |frames| && c in frames[j];
        assert AllSat(ts, frames[j], e);
      }
    } else {
      var j :| i <= j < |frames| && !AllSat(ts, frames[j], e);
      var c :| c in frames[j] && !SatClause(ts, c, e);
      assert c in Union(frames, i);
    }
  }

  /** Two equal neighbours below the frontier are an inductive invariant. */
  lemma Converged(ts: TS, frames: seq<set<Cube>>, i: nat)
    requires Wf(ts) && Inv(ts, frames) && 0 < i && i + 1 < |frames| && frames[i] <= frames[i + 1]
    ensures Proves(ts, Union(frames, i + 1))
  {
    var inv := Union(frames, i + 1);
    forall e ensures AllSat(ts, inv, e) <==> FrameHas(ts, frames, i, e) {
      UnionFrame(ts, frames, i + 1, e);
    }
    forall e ensures AllSat(ts, inv, e) <==> FrameHas(ts, frames, i + 1, e) {
      UnionFrame(ts, frames, i + 1, e);
    }
    assert Clean(ts, frames, i);
  }

  // ---- growing the frames ---------------------------------------------------------------

  /** No clause was ever learned: every state is good. */
  lemma NothingLearned(ts: TS, frames: seq<set<Cube>>, k: nat)
    requires Wf(ts) && 0 < k < |frames| && Clean(ts, frames, k)
    requires forall j | 0 < j < |frames| :: frames[j] == {}
    ensures Proves(ts, {})
  {
    forall e ensures FrameHas(ts, frames, k, e) {}
  }

  lemma NewFrame(ts: TS, frames: seq<set<Cube>>)
    requires Wf(ts) && Inv(ts, frames) && Clean(ts, frames, |frames| - 1)
    ensures Inv(ts, frames + [{}])
  {
    hide Kept;
    var frames' := frames + [{}];
    forall i: nat, e | i < |frames| ensures FrameHas(ts, frames', i, e) <==> FrameHas(ts, frames, i, e) {
      if i > 0 && FrameHas(ts, frames, i, e) {
        forall j | i <= j < |frames'| ensures AllSat(ts, frames'[j], e) {}
      }
      if i > 0 && FrameHas(ts, frames', i, e) {
        forall j | i <= j < |frames| ensures AllSat(ts, frames[j], e) { assert frames'[j] == frames[j]; }
      }
    }
    forall e ensures FrameHas(ts, frames', |frames|, e) {}
    forall i: nat | i + 1 < |frames'| ensures Clean(ts, frames', i) {
      assert Clean(ts, frames, i);
    }
  }

  /** The clause joins a frame and the clauses it subsumes leave. */
  function Subsume(cs: set<Cube>, c: Cube): (r: set<Cube>)
    ensures forall d :: d in r <==> d == c || (d in cs && !(c < d))
  {
    (set d | d in cs && !(c < d)) + {c}
  }

  lemma SubsumeSat(ts: TS, cs: set<Cube>, c: Cube, e: Env)
    ensures AllSat(ts, Subsume(cs, c), e) <==> AllSat(ts, cs, e) && SatClause(ts, c, e)
  {
    if AllSat(ts, Subsume(cs, c), e) {
      assert c in Subsume(cs, c);
      forall d | d in cs ensures SatClause(ts, d, e) {
        if c < d {
          var l :| l in c && LitAt(ts, l, e);
          assert l in d;
        } else {
          assert d in Subsume(cs, c);
        }
      }
    }
  }

  /** Frames `lo` to `hi` took the clause. */
  ghost predicate Added(frames: seq<set<Cube>>, frames': seq<set<Cube>>, c: Cube, lo: nat, hi: nat) {
    && |frames'| == |frames|
    && forall j | 0 <= j < |frames| :: frames'[j] == if lo <= j <= hi then Subsume(frames[j], c) else frames[j]
  }

  lemma AddedFrame(ts: TS, frames: seq<set<Cube>>, frames': seq<set<Cube>>, c: Cube, lo: nat, hi: nat, i: nat, e: Env)
    requires Wf(ts) && Added(frames, frames', c, lo, hi) && lo <= hi < |frames| && i > 0
    ensures FrameHas(ts, frames', i, e) <==> FrameHas(ts, frames, i, e) && (i <= hi ==> SatClause(ts, c, e))
  {
    forall j | 0 <= j < |frames|
      ensures AllSat(ts, frames'[j], e) <==> AllSat(ts, frames[j], e) && (lo <= j <= hi ==> SatClause(ts, c, e))
    {
      SubsumeSat(ts, frames[j], c, e);
    }
    if i <= hi && FrameHas(ts, frames', i, e) {
      assert AllSat(ts, frames'[hi], e);
    }
  }

  /** The clause holds after a step from where it holds in frame F_i. */
  ghost predicate InductiveRel(ts: TS, frames: seq<set<Cube>>, c: Cube, i: nat)
    requires Wf(ts)
  {
    forall e, e' | Follows(ts, e, e') && FrameHas(ts, frames, i, e) && SatClause(ts, c, e) :: SatClause(ts, c, e')
  }

  // ---- pushing ------------------------------------------------------------------------------

  lemma KeptSubsume(cs: set<Cube>, c: Cube, cl: Cube)
    requires Kept(cs, c)
    ensures Kept(Subsume(cs, cl), c)
  {
    var d :| d in cs && d <= c;
    if cl < d {
      assert cl in Subsume(cs, cl) && cl <= c;
    } else {
      assert d in Subsume(cs, cl);
    }
  }

  ghost predicate PushedClause(ts: TS, frames: seq<set<Cube>>, i: nat, c: Cube)
    requires Wf(ts) && i + 1 < |frames|
  {
    Kept(frames[i + 1], c) || !InductiveRel(ts, frames, c, i)
  }

  /** Every clause of frame `i` is in its successor, up to subsumption, if it is inductive
      relative to F_i. */
  ghost predicate Pushed(ts: TS, frames: seq<set<Cube>>, i: nat)
    requires Wf(ts) && i + 1 < |frames|
  {
    forall c | c in frames[i] :: PushedClause(ts, frames, i, c)
  }

  /** Frames up to F_i hold the same states. */
  ghost predicate SameBelow(ts: TS, frames: seq<set<Cube>>, frames': seq<set<Cube>>, i: nat)
    requires Wf(ts)
  {
    |frames'| == |frames| && forall j: nat, e | j <= i :: FrameHas(ts, frames', j, e) <==> FrameHas(ts, frames, j, e)
  }

  /** Frame `i+1` only took clauses of frame `i`; the others are as they were. */
  ghost predicate OnlyMoved(frames: seq<set<Cube>>, frames': seq<set<Cube>>, i: nat) {
    && |frames'| == |frames| && i + 1 < |frames|
    && (forall j | 0 <= j < |frames| && j != i + 1 :: frames'[j] == frames[j])
    && forall d | d in frames'[i + 1] :: d in frames[i + 1] || d in frames[i]
  }

  lemma PushSame(ts: TS, frames: seq<set<Cube>>, frames': seq<set<Cube>>, c: Cube, i: nat)
    requires Wf(ts) && 0 < i && i + 1 < |frames| && c in frames[i] && Added(frames, frames', c, i + 1, i + 1)
    ensures SameBelow(ts, frames, frames', i)
  {
    forall j: nat, e | j <= i ensures FrameHas(ts, frames', j, e) <==> FrameHas(ts, frames, j, e) {
      if j > 0 {
        AddedFrame(ts, frames, frames', c, i + 1, i + 1, j, e);
        if FrameHas(ts, frames, j, e) {
          assert AllSat(ts, frames[i], e);
        }
      }
    }
  }

  lemma SameInductive(ts: TS, frames: seq<set<Cube>>, frames': seq<set<Cube>>, c: Cube, i: nat, j: nat)
    requires Wf(ts) && SameBelow(ts, frames, frames', i) && j <= i
    ensures InductiveRel(ts, frames', c, j) <==> InductiveRel(ts, frames, c, j)
  {
    hide FrameHas, SatClause;
  }

  /** Pushing from a later frame leaves the earlier ones pushed. */
  lemma StillPushed(ts: TS, frames: seq<set<Cube>>, frames': seq<set<Cube>>, i: nat, j: nat)
    requires Wf(ts) && SameBelow(ts, frames, frames', i) && OnlyMoved(frames, frames', i) && j < i
        && Pushed(ts, frames, j)
    ensures Pushed(ts, frames', j)
  {
    hide FrameHas, InductiveRel, SameBelow;
    forall c | c in frames'[j] ensures PushedClause(ts, frames', j, c) {
      assert PushedClause(ts, frames, j, c);
      SameInductive(ts, frames, frames', c, i, j);
    }
  }

  ghost predicate InitSat(ts: TS, c: Cube)
    requires Wf(ts)
  {
    forall e | IsInit(ts, e) :: SatClause(ts, c, e)
  }

  /** The frames only lose states. */
  ghost predicate Stronger(ts: TS, frames: seq<set<Cube>>, frames': seq<set<Cube>>)
    requires Wf(ts)
  {
    |frames'| == |frames| && forall i: nat, e | FrameHas(ts, frames', i, e) :: FrameHas(ts, frames, i, e)
  }

  lemma AddedStronger(ts: TS, frames: seq<set<Cube>>, frames': seq<set<Cube>>, c: Cube, lo: nat, hi: nat)
    requires Wf(ts) && Added(frames, frames', c, lo, hi) && lo <= hi < |frames|
    ensures Stronger(ts, frames, frames')
  {
    forall i: nat, e | FrameHas(ts, frames', i, e) ensures FrameHas(ts, frames, i, e) {
      if i > 0 { AddedFrame(ts, frames, frames', c, lo, hi, i, e); }
    }
  }

  /** Learning: a clause that holds at reset and is inductive relative to F_{hi-1}
      may join the frames up to `hi`. */
  lemma AddKeeps(ts: TS, frames: seq<set<Cube>>, frames': seq<set<Cube>>, c: Cube, lo: nat, hi: nat)
    requires Wf(ts) && Inv(ts, frames) && CubeOk(ts, c) && InitSat(ts, c) && hi > 0
        && InductiveRel(ts, frames, c, hi - 1)
    requires 0 < lo <= hi < |frames| && Added(frames, frames', c, lo, hi) && (lo == 1 || Kept(frames[lo - 1], c))
    ensures Inv(ts, frames') && Stronger(ts, frames, frames')
  {
    hide Clean, Covers, FramesOk, Added, Stronger;
    AddNested(frames, frames', c, lo, hi);
    AddOk(ts, frames, frames', c, lo, hi);
    AddedStronger(ts, frames, frames', c, lo, hi);
    AddCovers(ts, frames, frames', c, lo, hi);
    forall i: nat | i + 1 < |frames'| ensures Clean(ts, frames', i) {
      StrongerClean(ts, frames, frames', i);
    }
  }

  lemma AddOk(ts: TS, frames: seq<set<Cube>>, frames': seq<set<Cube>>, c: Cube, lo: nat, hi: nat)
    requires FramesOk(ts, frames) && CubeOk(ts, c) && Added(frames, frames', c, lo, hi)
    ensures FramesOk(ts, frames') && |frames'| == |frames|
  {
  }

  lemma StrongerClean(ts: TS, frames: seq<set<Cube>>, frames': seq<set<Cube>>, i: nat)
    requires Wf(ts) && Stronger(ts, frames, frames') && Clean(ts, frames, i)
    ensures Clean(ts, frames', i)
  {
  }

  lemma AddNested(frames: seq<set<Cube>>, frames': seq<set<Cube>>, c: Cube, lo: nat, hi: nat)
    requires Nested(frames) && 0 < lo <= hi < |frames| && Added(frames, frames', c, lo, hi)
    requires lo == 1 || Kept(frames[lo - 1], c)
    ensures Nested(frames')
  {
    hide Kept;
    forall i: nat, d | 0 < i && i + 1 < |frames'| && d in frames'[i + 1] ensures Kept(frames'[i], d) {
      if d == c && lo <= i + 1 <= hi {
        if i >= lo { KeptSelf(frames'[i], c); }
      } else {
        KeptSubsume(frames[i], d, c);
      }
    }
  }

  lemma KeptSelf(cs: set<Cube>, c: Cube)
    requires c in cs
    ensures Kept(cs, c)
  {
    assert c <= c;
  }

  lemma AddCovers(ts: TS, frames: seq<set<Cube>>, frames': seq<set<Cube>>, c: Cube, lo: nat, hi: nat)
    requires Wf(ts) && Covers(ts, frames) && InitSat(ts, c) && hi > 0 && InductiveRel(ts, frames, c, hi - 1)
    requires 0 < lo <= hi < |frames| && Added(frames, frames', c, lo, hi) && Stronger(ts, frames, frames')
    ensures Covers(ts, frames')
  {
    forall i: nat, e | i < |frames'| && IsInit(ts, e) ensures FrameHas(ts, frames', i, e) {
      if i > 0 { AddedFrame(ts, frames, frames', c, lo, hi, i, e); }
    }
    forall i: nat, e, e' | i + 1 < |frames'| && Follows(ts, e, e') && FrameHas(ts, frames', i, e)
      ensures FrameHas(ts, frames', i + 1, e')
    {
      if i > 0 { AddedFrame(ts, frames, frames', c, lo, hi, i, e); }
      AddedFrame(ts, frames, frames', c, lo, hi, i + 1, e');
      if i + 1 <= hi {
        FrameMonotone(ts, frames, i, hi - 1, e);
      }
    }
  }

  // ---- proof obligations ------------------------------------------------------------------

  /** From this state some inputs lead to a bad cycle. */
  ghost predicate ToBad(ts: TS, e: Env)
    requires Wf(ts)
  {
    exists tr :: LeadsToBad(ts, e, tr)
  }

  ghost predicate LeadsToBad(ts: TS, e: Env, tr: seq<Env>)
    requires Wf(ts)
  {
    |tr| > 0 && Path(ts, tr) && tr[0] * States(ts) == e * States(ts) && Eval(ts.bad, tr[|tr| - 1])
  }

  ghost predicate Doomed(ts: TS, s: Cube)
    requires Wf(ts)
  {
    forall e | e <= Names(ts) && InCube(ts, s, e) :: ToBad(ts, e)
  }

  /** No run of fewer than `j` steps from reset ends in the cube. */
  ghost predicate NotReached(ts: TS, j: nat, s: Cube)
    requires Wf(ts)
  {
    forall tr | Run(ts, tr) && |tr| <= j :: !InCube(ts, s, tr[|tr| - 1])
  }

  ghost predicate MeetsInit(ts: TS, s: Cube)
    requires Wf(ts)
  {
    exists e :: e <= Names(ts) && IsInit(ts, e) && InCube(ts, s, e)
  }

  /** The invariant of the queue: an obligation's states all reach bad, and none is
      reached in fewer steps than its level. */
  ghost predicate Obligation(ts: TS, j: nat, s: Cube)
    requires Wf(ts)
  {
    CubeOk(ts, s) && Doomed(ts, s) && if j == 0 then MeetsInit(ts, s) else NotReached(ts, j, s)
  }

  /** Every state of the cube is bad under some inputs. */
  ghost predicate BadCube(ts: TS, s: Cube)
    requires Wf(ts)
  {
    forall e | e <= Names(ts) && InCube(ts, s, e) :: Twin(ts, e, TwinBad(ts, e)) && Eval(ts.bad, TwinBad(ts, e))
  }

  ghost predicate Twin(ts: TS, e: Env, e': Env) {
    e' <= Names(ts) && e' * States(ts) == e * States(ts)
  }

  /** A cycle with the same state in which bad holds, if there is one. */
  ghost function TwinBad(ts: TS, e: Env): Env {
    if exists e' :: Twin(ts, e, e') && Eval(ts.bad, e') then
      var e' :| Twin(ts, e, e') && Eval(ts.bad, e'); e'
    else {}
  }

  /** Every state of `p` steps into `s` under some inputs. */
  ghost predicate Leads(ts: TS, p: Cube, s: Cube)
    requires Wf(ts)
  {
    forall e | e <= Names(ts) && InCube(ts, p, e) ::
      Twin(ts, e, TwinInto(ts, e, s)) && InCube(ts, s, Next(ts, TwinInto(ts, e, s)))
  }

  ghost function TwinInto(ts: TS, e: Env, s: Cube): Env
    requires Wf(ts)
  {
    if exists e' :: Twin(ts, e, e') && InCube(ts, s, Next(ts, e')) then
      var e' :| Twin(ts, e, e') && InCube(ts, s, Next(ts, e')); e'
    else {}
  }

  /** The last cycle of a run may have other inputs. */
  lemma RunTwin(ts: TS, tr: seq<Env>, e: Env)
    requires Wf(ts) && Run(ts, tr) && Twin(ts, tr[|tr| - 1], e)
    ensures Run(ts, tr[..|tr| - 1] + [e])
  {
    var k := |tr| - 1;
    PathSlice(ts, tr, 0, k);
    assert tr[0..k] == tr[..k];
    if k > 0 {
      PathAppend(ts, tr[..k], e);
    } else {
      assert tr[..k] + [e] == [e];
    }
  }

  lemma BadReached(ts: TS, tr: seq<Env>, s: Cube)
    requires Wf(ts) && Run(ts, tr) && BadCube(ts, s) && InCube(ts, s, tr[|tr| - 1])
    ensures BadAt(ts, |tr| - 1)
  {
    var i := |tr| - 1;
    assert tr[i] <= Names(ts);
    var e := TwinBad(ts, tr[i]);
    RunTwin(ts, tr, e);
    var run := tr[..i] + [e];
    assert |run| == i + 1 && Run(ts, run) && Eval(ts.bad, run[i]);
  }

  lemma BadNotReached(ts: TS, frames: seq<set<Cube>>, k: nat, s: Cube)
    requires Wf(ts) && Inv(ts, frames) && k + 1 == |frames| && BadCube(ts, s)
    ensures NotReached(ts, k, s)
  {
    forall tr | Run(ts, tr) && |tr| <= k ensures !InCube(ts, s, tr[|tr| - 1]) {
      assert Clean(ts, frames, |tr| - 1);
      CleanDepth(ts, frames, |tr| - 1);
      if InCube(ts, s, tr[|tr| - 1]) {
        BadReached(ts, tr, s);
      }
    }
  }

  /** A bad cube of the frontier is an obligation. */
  lemma BadObligation(ts: TS, frames: seq<set<Cube>>, k: nat, s: Cube)
    requires Wf(ts) && Inv(ts, frames) && k + 1 == |frames| && BadCube(ts, s) && CubeOk(ts, s)
    ensures Obligation(ts, k, s)
  {
    BadNotReached(ts, frames, k, s);
    forall e | e <= Names(ts) && InCube(ts, s, e) ensures ToBad(ts, e) {
      assert LeadsToBad(ts, e, [TwinBad(ts, e)]);
    }
  }

  lemma ToBadStep(ts: TS, e: Env, e1: Env)
    requires Wf(ts) && Twin(ts, e, e1) && ToBad(ts, Next(ts, e1))
    ensures ToBad(ts, e)
  {
    var tr :| LeadsToBad(ts, Next(ts, e1), tr);
    var run := [e1] + tr;
    assert Next(ts, e1) * States(ts) == Next(ts, e1);
    forall t | 0 < t < |run| ensures Steps(ts, run[t - 1], run[t]) {
      assert run[t] == tr[t - 1] && (t > 1 ==> run[t - 1] == tr[t - 2]);
    }
    assert LeadsToBad(ts, e, run);
  }

  lemma LeadsDoomed(ts: TS, p: Cube, s: Cube)
    requires Wf(ts) && Doomed(ts, s) && Leads(ts, p, s)
    ensures Doomed(ts, p)
  {
    forall e | e <= Names(ts) && InCube(ts, p, e) ensures ToBad(ts, e) {
      var e1 := TwinInto(ts, e, s);
      assert Next(ts, e1) <= Names(ts);
      ToBadStep(ts, e, e1);
    }
  }

  lemma ReachedNext(ts: TS, tr: seq<Env>, p: Cube, s: Cube) returns (run: seq<Env>)
    requires Wf(ts) && Run(ts, tr) && InCube(ts, p, tr[|tr| - 1]) && Leads(ts, p, s)
    ensures |run| == |tr| + 1 && Run(ts, run) && InCube(ts, s, run[|run| - 1])
  {
    var k := |tr| - 1;
    assert tr[k] <= Names(ts);
    var e1 := TwinInto(ts, tr[k], s);
    var e2 := Next(ts, e1);
    RunTwin(ts, tr, e1);
    run := tr[..k] + [e1];
    assert e2 * States(ts) == e2;
    PathAppend(ts, run, e2);
    run := run + [e2];
    assert run[|run| - 1] == e2;
  }

  lemma LeadsNotReached(ts: TS, j: nat, p: Cube, s: Cube)
    requires Wf(ts) && NotReached(ts, j + 1, s) && Leads(ts, p, s)
    ensures NotReached(ts, j, p)
  {
    forall tr | Run(ts, tr) && |tr| <= j ensures !InCube(ts, p, tr[|tr| - 1]) {
      if InCube(ts, p, tr[|tr| - 1]) {
        var run := ReachedNext(ts, tr, p, s);
      }
    }
  }

  /** A predecessor cube is an obligation one level down. */
  lemma PredecessorObligation(ts: TS, j: nat, s: Cube, p: Cube)
    requires Wf(ts) && j > 0 && Obligation(ts, j, s) && CubeOk(ts, p) && Leads(ts, p, s)
    requires j == 1 ==> MeetsInit(ts, p)
    ensures Obligation(ts, j - 1, p)
  {
    LeadsDoomed(ts, p, s);
    if j > 1 {
      LeadsNotReached(ts, j - 1, p, s);
    }
  }

  ghost predicate Blocked(ts: TS, frames: seq<set<Cube>>, i: nat, s: Cube)
    requires Wf(ts)
  {
    forall e | FrameHas(ts, frames, i, e) :: !InCube(ts, s, e)
  }

  /** Once blocked, the cube is an obligation one level up. */
  lemma RequeuedObligation(ts: TS, frames: seq<set<Cube>>, j: nat, s: Cube)
    requires Wf(ts) && Inv(ts, frames) && 0 < j < |frames| && Obligation(ts, j, s) && Blocked(ts, frames, j, s)
    ensures Obligation(ts, j + 1, s)
  {
    forall tr | Run(ts, tr) && |tr| <= j + 1 ensures !InCube(ts, s, tr[|tr| - 1]) {
      RunInFrame(ts, frames, tr, j);
    }
  }

  /** What the engine never checks before it learns from an obligation. */
  lemma ObligationAvoidsInit(ts: TS, j: nat, s: Cube)
    requires Wf(ts) && j > 0 && Obligation(ts, j, s)
    ensures !MeetsInit(ts, s)
  {
    forall e ensures !(e <= Names(ts) && IsInit(ts, e) && InCube(ts, s, e)) {
      if e <= Names(ts) && IsInit(ts, e) {
        assert Run(ts, [e]);
        assert !InCube(ts, s, [e][|[e]| - 1]);
      }
    }
  }

  lemma InitCounterexample(ts: TS, s: Cube)
    requires Wf(ts) && Doomed(ts, s) && MeetsInit(ts, s)
    ensures !Safe(ts)
  {
    var e :| e <= Names(ts) && IsInit(ts, e) && InCube(ts, s, e);
    var tr :| LeadsToBad(ts, e, tr);
    assert Run(ts, tr);
    assert BadAt(ts, |tr| - 1);
  }

  // ---- the termination measure --------------------------------------------------------------

  /** The states still in the frames. */
  ghost function Alive(ts: TS, frames: seq<set<Cube>>): set<(int, Env)>
    requires Wf(ts)
  {
    set i: int, e | 0 < i < |frames| && e in AllStates(ts) && FrameHas(ts, frames, i, e) :: (i, e)
  }

  lemma StrongerAlive(ts: TS, frames: seq<set<Cube>>, frames': seq<set<Cube>>)
    requires Wf(ts) && Stronger(ts, frames, frames')
    ensures Alive(ts, frames') <= Alive(ts, frames)
  {
  }

  lemma FewerAlive(ts: TS, frames: seq<set<Cube>>, frames': seq<set<Cube>>, i: nat, e: Env)
    requires Wf(ts) && Stronger(ts, frames, frames') && 0 < i < |frames|
    requires FrameHas(ts, frames, i, e) && !FrameHas(ts, frames', i, e)
    ensures Alive(ts, frames') < Alive(ts, frames)
  {
    StrongerAlive(ts, frames, frames');
    var st := e * States(ts);
    assert st * States(ts) == st;
    FrameState(ts, frames, i, e, st);
    FrameState(ts, frames', i, e, st);
    assert (i as int, st) in Alive(ts, frames);
    assert (i as int, st) !in Alive(ts, frames');
  }

  type Queue = seq<(nat, Cube)>

  predicate LevelsTo(q: Queue, k: nat) {
    forall x | 0 <= x < |q| :: q[x].0 <= k
  }

  /** How far the queued obligations are from the frontier `k`. */
  ghost function Weight(q: Queue, k: nat): nat
    requires LevelsTo(q, k)
  {
    if q == [] then 0 else k + 1 - q[0].0 + Weight(q[1..], k)
  }

  lemma {:induction false} WeightSplit(a: Queue, b: Queue, k: nat)
    requires LevelsTo(a, k) && LevelsTo(b, k)
    ensures LevelsTo(a + b, k) && Weight(a + b, k) == Weight(a, k) + Weight(b, k)
  {
    if a == [] {
      assert a + b == b;
    } else {
      assert (a + b)[1..] == a[1..] + b;
      WeightSplit(a[1..], b, k);
    }
  }
}

/** The engine: frames that over-approximate the reachable states, and the queue of
    proof obligations that tightens them. */
module Pdr {
  import opened Sets
  import opened Circuit
  import opened Trail
  import opened Transition
  import opened Ic3Spec
  import opened Convergence
  import opened OnePass
  import opened Ic3

  datatype Result =
    | UnsafeAtReset
    | UnsafeAt(frames: nat)
    | SafeBy(frames: nat, inv: set<Cube>)
    | Unknown(frames: nat)

  lemma SmallerCube(ts: TS, big: Cube, small: Cube, e: Env)
    requires small <= big && InCube(ts, big, e)
    ensures InCube(ts, small, e)
  {
  }

  /** A cube that avoids reset: its negation holds there. */
  lemma AvoidsInit(ts: TS, c: Cube)
    requires Wf(ts) && CubeOk(ts, c)
    ensures !MeetsInit(ts, c) <==> InitSat(ts, Negate(c))
  {
    if !MeetsInit(ts, c) {
      forall e | IsInit(ts, e) ensures SatClause(ts, Negate(c), e) {
        var st := e * Names(ts);
        assert st * States(ts) == e * States(ts);
        SameState(ts, e, st);
        NegateMeans(ts, c, e);
        assert IsInit(ts, st);
      }
    } else {
      var e :| e <= Names(ts) && IsInit(ts, e) && InCube(ts, c, e);
      NegateMeans(ts, c, e);
    }
  }

  /** A learned clause blocks every cube it was generalized from. */
  lemma LearnedBlocks(ts: TS, frames: seq<set<Cube>>, frames': seq<set<Cube>>, g: Cube, s: Cube, i: nat)
    requires Wf(ts) && CubeOk(ts, s) && g <= s && CubeOk(ts, g) && 0 < i < |frames|
    requires Added(frames, frames', Negate(g), 1, i)
    ensures Blocked(ts, frames', i, s)
  {
    forall e | FrameHas(ts, frames', i, e) ensures !InCube(ts, s, e) {
      AddedFrame(ts, frames, frames', Negate(g), 1, i, i, e);
      NegateMeans(ts, g, e);
      if InCube(ts, s, e) { SmallerCube(ts, s, g, e); }
    }
  }

  lemma BlockedLater(ts: TS, frames: seq<set<Cube>>, frames': seq<set<Cube>>, i: nat, s: Cube)
    requires Wf(ts) && Blocked(ts, frames, i, s) && Stronger(ts, frames, frames')
    ensures Blocked(ts, frames', i, s)
  {
  }

  ghost predicate Obligations(ts: TS, k: nat, q: Queue)
    requires Wf(ts)
  {
    LevelsTo(q, k) && forall x | 0 <= x < |q| :: Obligation(ts, q[x].0, q[x].1)
  }

  /** The cube still has states in the frame. */
  ghost predicate Live(ts: TS, frames: seq<set<Cube>>, i: nat, s: Cube)
    requires Wf(ts)
  {
    exists e :: FrameHas(ts, frames, i, e) && InCube(ts, s, e)
  }

  /** After a predecessor was queued at level `low`: it alone is lowest, and live. */
  ghost predicate Fresh(ts: TS, frames: seq<set<Cube>>, q: Queue, low: nat)
    requires Wf(ts)
  {
    low < |frames| ==>
      && (exists x | 0 <= x < |q| :: q[x].0 == low)
      && forall x | 0 <= x < |q| :: q[x].0 >= low && (q[x].0 == low ==> Live(ts, frames, low, q[x].1))
  }

  /** The bad cube waits at the frontier, or is blocked there. */
  ghost predicate Pending(ts: TS, frames: seq<set<Cube>>, q: Queue, k: nat, bad: Cube)
    requires Wf(ts)
  {
    (k, bad) in q || Blocked(ts, frames, k, bad)
  }

  lemma {:induction false} LeastAt(q: Queue) returns (x: nat)
    requires q != []
    ensures x < |q| && forall y | 0 <= y < |q| :: q[x].0 <= q[y].0
    decreases |q|
  {
    x := 0;
    if |q| > 1 {
      var z := LeastAt(q[1..]);
      assert forall y | 1 <= y < |q| :: q[y] == q[1..][y - 1];
      if q[z + 1].0 < q[0].0 { x := z + 1; }
    }
  }

  /** heappop: an obligation of the least level; which one, if several, is not said. */
  method Pop(q: Queue) returns (i: nat, s: Cube, rest: Queue, ghost x: nat)
    requires q != []
    ensures x < |q| && q[x] == (i, s) && rest == q[..x] + q[x + 1..]
    ensures forall y | 0 <= y < |q| :: i <= q[y].0
  {
    ghost var least := LeastAt(q);
    var z: nat :| z < |q| && forall y | 0 <= y < |q| :: q[z].0 <= q[y].0;
    i, s := q[z].0, q[z].1;
    rest, x := q[..z] + q[z + 1..], z;
  }

  lemma PopWeight(q: Queue, x: nat, k: nat, rest: Queue)
    requires x < |q| && LevelsTo(q, k) && rest == q[..x] + q[x + 1..]
    ensures LevelsTo(rest, k) && Weight(q, k) == Weight(rest, k) + k + 1 - q[x].0
  {
    var a, b := q[..x], q[x + 1..];
    assert q == a + ([q[x]] + b);
    WeightSplit(a, b, k);
    WeightSplit([q[x]], b, k);
    WeightSplit(a, [q[x]] + b, k);
    var one: Queue := [q[x]];
    assert one[1..] == [];
  }

  lemma PushWeight(q: Queue, i: nat, s: Cube, k: nat)
    requires i <= k && LevelsTo(q, k)
    ensures LevelsTo(q + [(i, s)], k) && Weight(q + [(i, s)], k) == Weight(q, k) + k + 1 - i
  {
    WeightSplit(q, [(i, s)], k);
    var one: Queue := [(i, s)];
    assert one[1..] == [];
  }

  lemma PopIn(q: Queue, x: nat, rest: Queue)
    requires x < |q| && rest == q[..x] + q[x + 1..]
    ensures forall o | o in rest :: o in q
    ensures forall o | o in q && o != q[x] :: o in rest
  {
    assert q == q[..x] + [q[x]] + q[x + 1..];
  }

  /** The queue after popping entry `x`: (i, s) is a lowest obligation. */
  ghost predicate Popped(q: Queue, x: nat, i: nat, s: Cube, rest: Queue) {
    && x < |q| && q[x] == (i, s) && rest == q[..x] + q[x + 1..]
    && forall y | 0 <= y < |q| :: i <= q[y].0
  }

  lemma PoppedObligations(ts: TS, k: nat, q: Queue, x: nat, i: nat, s: Cube, rest: Queue)
    requires Wf(ts) && Obligations(ts, k, q) && Popped(q, x, i, s, rest)
    ensures Obligations(ts, k, rest) && i <= k && Obligation(ts, i, s)
    ensures forall y | 0 <= y < |rest| :: i <= rest[y].0
  {
    hide Obligation;
    forall y | 0 <= y < |rest| ensures rest[y] in q {}
  }

  ghost function Requeued(rest: Queue, i: nat, s: Cube, k: nat): Queue {
    if i < k then rest + [(i + 1, s)] else rest
  }

  lemma LearnedQueue(ts: TS, frames: seq<set<Cube>>, k: nat, q: Queue, x: nat, i: nat, s: Cube, rest: Queue, bad: Cube,
                     frames0: seq<set<Cube>>)
    requires Wf(ts) && Obligations(ts, k, q) && Popped(q, x, i, s, rest) && Pending(ts, frames0, q, k, bad)
    requires Inv(ts, frames) && k + 1 == |frames| && 0 < i && Blocked(ts, frames, i, s) && Stronger(ts, frames0, frames)
    ensures Obligations(ts, k, Requeued(rest, i, s, k)) && Pending(ts, frames, Requeued(rest, i, s, k), k, bad)
  {
    hide Obligation, Inv, Covers, Blocked, Stronger;
    PoppedObligations(ts, k, q, x, i, s, rest);
    if i < k {
      RequeuedObligation(ts, frames, i, s);
    }
    PopIn(q, x, rest);
    if (k, bad) in rest {
      assert (k, bad) in Requeued(rest, i, s, k);
    } else if (k, bad) !in q {
      BlockedLater(ts, frames0, frames, k, bad);
    }
  }

  /** Learning shrinks the frames, or the obligation was stale and moves up or out. */
  lemma LearnedMeasure(ts: TS, frames: seq<set<Cube>>, k: nat, q: Queue, x: nat, i: nat, s: Cube, rest: Queue,
                       frames0: seq<set<Cube>>, low: nat)
    requires Wf(ts) && Obligations(ts, k, q) && Popped(q, x, i, s, rest) && Fresh(ts, frames0, q, low) && low <= k + 1
    requires k + 1 == |frames| == |frames0| && 0 < i <= k && Blocked(ts, frames, i, s) && Stronger(ts, frames0, frames)
    requires Obligations(ts, k, Requeued(rest, i, s, k))
    ensures
      || Alive(ts, frames) < Alive(ts, frames0)
      || (Alive(ts, frames) <= Alive(ts, frames0) && low == k + 1 && Weight(Requeued(rest, i, s, k), k) < Weight(q, k))
  {
    hide Obligation, Alive, FrameHas;
    StrongerAlive(ts, frames0, frames);
    if Live(ts, frames0, i, s) {
      var e :| FrameHas(ts, frames0, i, e) && InCube(ts, s, e);
      FewerAlive(ts, frames0, frames, i, e);
    } else {
      assert q[x].0 == i && q[x].1 == s;
      PopWeight(q, x, k, rest);
      if i < k {
        PushWeight(rest, i + 1, s, k);
      }
    }
  }

  lemma PushedQueue(ts: TS, frames: seq<set<Cube>>, k: nat, q: Queue, x: nat, i: nat, s: Cube, rest: Queue, bad: Cube,
                    p: Cube, w: Env, low: nat)
    requires Wf(ts) && Obligations(ts, k, q) && Popped(q, x, i, s, rest) && Pending(ts, frames, q, k, bad)
    requires Fresh(ts, frames, q, low) && low <= k + 1 == |frames| && 0 < i
    requires Obligation(ts, i - 1, p) && FrameHas(ts, frames, i - 1, w) && InCube(ts, p, w)
    ensures var q' := rest + [(i - 1, p)] + [(i, s)];
      && Obligations(ts, k, q') && Pending(ts, frames, q', k, bad) && Fresh(ts, frames, q', i - 1)
    ensures i - 1 < low
  {
    hide Obligation, FrameHas, Blocked;
    PoppedObligations(ts, k, q, x, i, s, rest);
    PopIn(q, x, rest);
    var q' := rest + [(i - 1, p)] + [(i, s)];
    assert q'[|rest|] == (i - 1, p) && q'[|rest| + 1] == (i, s);
    assert Live(ts, frames, i - 1, p);
    if (k, bad) in q {
      assert (k, bad) in q';
    }
  }

  /** What becomes of an obligation: blocked, it waits for the next frame; else a cube of predecessors in
      the frame below is put before it. */
  ghost predicate Turned(ts: TS, frames0: seq<set<Cube>>, frames: seq<set<Cube>>, k: nat, i: nat, s: Cube, rest: Queue,
      q': Queue)
    requires Wf(ts)
  {
    || (0 < i && Blocked(ts, frames, i, s) && q' == Requeued(rest, i, s, k))
    || (frames == frames0 && exists p, w :: LedBy(ts, frames, i, s, rest, q', p, w))
  }

  ghost predicate LedBy(ts: TS, frames: seq<set<Cube>>, i: nat, s: Cube, rest: Queue, q': Queue, p: Cube, w: Env)
    requires Wf(ts)
  {
    && 0 < i && q' == rest + [(i - 1, p)] + [(i, s)] && Leads(ts, p, s)
    && FrameHas(ts, frames, i - 1, w) && InCube(ts, p, w)
  }

  lemma ObligationParts(ts: TS, s: Cube)
    requires Wf(ts) && Obligation(ts, 0, s)
    ensures CubeOk(ts, s) && MeetsInit(ts, s) && Doomed(ts, s)
  {
  }

  lemma ObligationOk(ts: TS, i: nat, s: Cube)
    requires Wf(ts) && Obligation(ts, i, s)
    ensures CubeOk(ts, s)
  {
  }

  lemma NotFresh(ts: TS, frames: seq<set<Cube>>, q: Queue)
    requires Wf(ts)
    ensures Fresh(ts, frames, q, |frames|)
  {
  }

  lemma PredecessorLevel(ts: TS, i: nat, s: Cube, p: Cube, frames: seq<set<Cube>>, w: Env)
    requires Wf(ts) && 0 < i && Obligation(ts, i, s) && CubeOk(ts, p) && Leads(ts, p, s)
    requires w <= Names(ts) && FrameHas(ts, frames, i - 1, w) && InCube(ts, p, w)
    ensures Obligation(ts, i - 1, p)
  {
    hide Leads, Doomed, NotReached;
    PredecessorObligation(ts, i, s, p);
  }

  lemma StrongerRefl(ts: TS, frames: seq<set<Cube>>)
    requires Wf(ts)
    ensures Stronger(ts, frames, frames)
  {
  }

  lemma StrongerTrans(ts: TS, a: seq<set<Cube>>, b: seq<set<Cube>>, c: seq<set<Cube>>)
    requires Wf(ts) && Stronger(ts, a, b) && Stronger(ts, b, c)
    ensures Stronger(ts, a, c)
  {
  }

  lemma FirstQueue(ts: TS, frames: seq<set<Cube>>, k: nat, bad: Cube, q: Queue)
    requires Wf(ts) && Obligation(ts, k, bad) && q == [(k, bad)]
    ensures Obligations(ts, k, q) && Pending(ts, frames, q, k, bad) && LevelsTo(q, k)
  {
    assert q[0] == (k, bad);
  }

  lemma QueueLevels(ts: TS, k: nat, q: Queue)
    requires Wf(ts) && Obligations(ts, k, q)
    ensures LevelsTo(q, k)
  {
  }

  lemma NoneLeft(ts: TS, frames: seq<set<Cube>>, k: nat, bad: Cube)
    requires Wf(ts) && Pending(ts, frames, [], k, bad)
    ensures Blocked(ts, frames, k, bad)
  {
  }

  /** A clause of frame F_i holds at reset. */
  lemma ClauseIn(ts: TS, frames: seq<set<Cube>>, i: nat, c: Cube)
    requires Wf(ts) && Inv(ts, frames) && 0 < i < |frames| && c in frames[i]
    ensures CubeOk(ts, c) && InitSat(ts, c) && FramesOk(ts, frames)
  {
    forall e | IsInit(ts, e) ensures SatClause(ts, c, e) {
      assert FrameHas(ts, frames, i, e);
      assert AllSat(ts, frames[i], e);
    }
  }

  lemma OneAdded(frames: seq<set<Cube>>, frames': seq<set<Cube>>, c: Cube, i: nat)
    requires i < |frames| && frames' == frames[i := Subsume(frames[i], c)]
    ensures Added(frames, frames', c, i, i)
  {
  }

  /** The witness of a bad cube has left the frontier. */
  lemma WitnessGone(ts: TS, frames: seq<set<Cube>>, frames': seq<set<Cube>>, k: nat, bad: Cube, w: Env)
    requires Wf(ts) && Stronger(ts, frames, frames') && 0 < k < |frames| && Blocked(ts, frames', k, bad)
    requires FrameHas(ts, frames, k, w) && InCube(ts, bad, w)
    ensures Alive(ts, frames') < Alive(ts, frames)
  {
    FewerAlive(ts, frames, frames', k, w);
  }

  /** A bad cube of a state in the frame: bad is possible, and the frame is not clean. */
  lemma BadSeen(ts: TS, frames: seq<set<Cube>>, k: nat, bad: Cube, w: Env)
    requires Wf(ts) && BadCube(ts, bad) && FrameHas(ts, frames, k, w) && InCube(ts, bad, w)
    ensures SomeBad(ts) && !Clean(ts, frames, k)
  {
    hide FrameHas, LitAt;
    var st := w * Names(ts);
    assert st * States(ts) == w * States(ts);
    SameState(ts, w, st);
    var e := TwinBad(ts, st);
    assert Twin(ts, st, e) && Eval(ts.bad, e);
    FrameState(ts, frames, k, w, e);
  }

  lemma CleanDepths(ts: TS, frames: seq<set<Cube>>)
    requires Wf(ts) && Inv(ts, frames)
    ensures forall j: nat | j + 1 < |frames| :: !BadAt(ts, j)
  {
    forall j: nat | j + 1 < |frames| ensures !BadAt(ts, j) {
      assert Clean(ts, frames, j);
      CleanDepth(ts, frames, j);
    }
  }

  ghost predicate ValidFrames(ts: TS, frames: seq<set<Cube>>)
    requires Wf(ts)
  {
    && |frames| >= 2 && FramesOk(ts, frames) && Nested(frames) && Covers(ts, frames)
    && forall i: nat | 0 < i && i + 1 < |frames| :: Clean(ts, frames, i)
  }

  lemma ResetClean(ts: TS, frames: seq<set<Cube>>)
    requires Wf(ts) && ValidFrames(ts, frames) && Clean(ts, [{}, {}], 0)
    ensures Inv(ts, frames)
  {
    assert Clean(ts, frames, 0) by {
      assert forall e :: FrameHas(ts, frames, 0, e) ==> FrameHas(ts, [{}, {}], 0, e);
    }
  }

  /** Why the answer is SAFE: no clause anywhere, or the first frame that its successor contains. */
  ghost predicate Converges(ts: TS, frames: seq<set<Cube>>, k: nat, inv: set<Cube>)
    requires Wf(ts)
  {
    || (k + 1 == |frames| && inv == {} && forall j | 0 < j < |frames| :: frames[j] == {})
    || (k + 2 == |frames| && exists i: nat :: 0 < i <= k && ConvergedAt(ts, frames, i, inv))
  }

  ghost predicate ConvergedAt(ts: TS, frames: seq<set<Cube>>, i: nat, inv: set<Cube>)
    requires Wf(ts) && i + 1 < |frames|
  {
    && frames[i] != {} && frames[i] <= frames[i + 1] && inv == Union(frames, i + 1)
    && forall j: nat | 0 < j < i :: Pushed(ts, frames, j) && (frames[j] == {} || !(frames[j] <= frames[j + 1]))
  }

  lemma Afresh(ts: TS)
    requires Wf(ts)
    ensures Unconverged(ts, [{}, {}]) && OnTheWay(ts, [{}, {}], 1, 0)
  {
    hide AllStates;
    FirstOnTheWay(ts, [{}, {}]);
  }

  lemma GrownAhead(ts: TS, frames: seq<set<Cube>>, j: nat, s: nat)
    requires Wf(ts) && OnTheWay(ts, frames, j, s) && |frames| > |AllStates(ts)| + 2
    ensures Ahead(ts, frames + [{}], j, s)
  {
    hide Ahead, AllStates;
    AheadGrown(ts, frames, j, s);
  }

  lemma PushedThrough(ts: TS, frames: seq<set<Cube>>)
    requires Wf(ts) && forall j: nat | 0 < j && j + 1 < |frames| ::
      Pushed(ts, frames, j) && (frames[j] == {} || !(frames[j] <= frames[j + 1]))
    ensures Unconverged(ts, frames)
  {
  }

  /** How far pushing has come after a round without verdict. */
  lemma NextRound(ts: TS, frames: seq<set<Cube>>, frames': seq<set<Cube>>, j: nat, s: nat) returns (j': nat, s': nat)
    requires Wf(ts) && Inv(ts, frames) && Inv(ts, frames') && |frames'| == |frames| + 1
    requires Unconverged(ts, frames) && Unconverged(ts, frames') && OnTheWay(ts, frames, j, s) && SomeBad(ts)
    requires |frames| > |AllStates(ts)| + 2 ==>
      Ahead(ts, frames', j, s + 1) && forall m | 0 <= m <= j && m < |frames| :: frames'[m] == frames[m]
    ensures OnTheWay(ts, frames', j', s') && 0 < j'
  {
    hide Ahead, AllStates, Unconverged, SomeBad, Covers, Clean;
    if |frames| > |AllStates(ts)| + 2 {
      j', s' := NextStep(ts, j, s).0, NextStep(ts, j, s).1;
      StepFurther(ts, frames, frames', j, s);
    } else {
      j', s' := 1, 0;
      FirstOnTheWay(ts, frames');
    }
  }

  lemma StillValid(ts: TS, frames: seq<set<Cube>>)
    requires Wf(ts) && Inv(ts, frames)
    ensures ValidFrames(ts, frames)
  {
  }

  lemma NothingMoved(ts: TS, frames: seq<set<Cube>>, i: nat)
    requires Wf(ts) && i + 1 < |frames|
    ensures OnlyMoved(frames, frames, i) && SameBelow(ts, frames, frames, i)
  {
  }

  lemma NoneOrdered(ts: TS, frames: seq<set<Cube>>, i: nat)
    requires Wf(ts) && i + 1 < |frames|
    ensures Orders([], {}) && PushedIn(ts, frames, i, []) == frames[i + 1]
  {
  }

  lemma MovedSame(ts: TS, frames0: seq<set<Cube>>, frames: seq<set<Cube>>, i: nat, c: Cube)
    requires Wf(ts) && SameBelow(ts, frames0, frames, i)
    ensures InductiveRel(ts, frames, c, i) <==> InductiveRel(ts, frames0, c, i)
  {
    hide InductiveRel, SameBelow;
    SameInductive(ts, frames0, frames, c, i, i);
  }

  lemma PushedIf(ts: TS, frames: seq<set<Cube>>, i: nat, c: Cube)
    requires Wf(ts) && i + 1 < |frames| && (c in frames[i + 1] || !InductiveRel(ts, frames, c, i))
    ensures PushedClause(ts, frames, i, c)
  {
    assert c in frames[i + 1] ==> c <= c;
  }

  /** One clause pushed from frame `i`. */
  lemma PushOne(ts: TS, frames0: seq<set<Cube>>, frames: seq<set<Cube>>, i: nat, cl: Cube, done: set<Cube>)
    requires Wf(ts) && Inv(ts, frames) && 0 < i && i + 1 < |frames| && cl in frames[i]
        && InductiveRel(ts, frames, cl, i)
    requires OnlyMoved(frames0, frames, i) && SameBelow(ts, frames0, frames, i)
        && forall c | c in done :: PushedClause(ts, frames, i, c)
    ensures var frames' := frames[i + 1 := Subsume(frames[i + 1], cl)];
      && Inv(ts, frames') && ValidFrames(ts, frames') && OnlyMoved(frames0, frames', i)
          && SameBelow(ts, frames0, frames', i)
      && forall c | c in done + {cl} :: PushedClause(ts, frames', i, c)
  {
    hide Wf, Covers, Clean, InductiveRel, FrameHas, Inv, Added, Kept;
    var frames' := frames[i + 1 := Subsume(frames[i + 1], cl)];
    OneAdded(frames, frames', cl, i + 1);
    ClauseIn(ts, frames, i, cl);
    KeptSelf(frames[i], cl);
    AddKeeps(ts, frames, frames', cl, i + 1, i + 1);
    StillValid(ts, frames');
    PushSame(ts, frames, frames', cl, i);
    SubsumeIn(frames[i + 1], cl);
    forall c | c in done + {cl} ensures PushedClause(ts, frames', i, c) {
      if c in done {
        assert PushedClause(ts, frames, i, c);
        SameInductive(ts, frames, frames', c, i, i);
        if Kept(frames[i + 1], c) {
          KeptSubsume(frames[i + 1], c, cl);
        }
      }
    }
  }

  lemma SubsumeIn(cs: set<Cube>, c: Cube)
    ensures Kept(Subsume(cs, c), c) && forall d | d in Subsume(cs, c) :: d in cs || d == c
  {
    assert c in Subsume(cs, c) && c <= c;
  }

  /** A cube that avoids reset and whose negation is inductive relative to F_{i-1}. */
  ghost function Droppable(ts: TS, frames: seq<set<Cube>>, i: nat): Family
    requires Wf(ts) && i > 0
  {
    (c: Cube) => !MeetsInit(ts, c) && InductiveRel(ts, frames, Negate(c), i - 1)
  }

  lemma NoneTried(ok: Family, cube: Cube)
    ensures Lists([], {}) && Pass(ok, cube, []) == cube
  {
  }

  lemma TriedIs(ts: TS, frames: seq<set<Cube>>, i: nat, g: Cube, l: int)
    requires Wf(ts) && i > 0
    ensures Tried(Droppable(ts, frames, i), g, l) ==
      if l in g && g - {l} != {} && !MeetsInit(ts, g - {l})
          && InductiveRel(ts, frames, Negate(g - {l}), i - 1) then g - {l} else g
  {
  }

  class Engine {
    const ts: TS
    var frames: seq<set<Cube>>
    var cex: Option<Cube>

    /** All but the first frame's freedom from bad, which Solve establishes. */
    ghost predicate Valid()
      reads this
    {
      Wf(ts) && ValidFrames(ts, frames)
    }

    constructor (ts: TS)
      requires Wf(ts)
      ensures Valid() && this.ts == ts && frames == [{}, {}] && cex.None?
    {
      this.ts := ts;
      frames := [{}, {}];
      cex := None;
      new;
      assert forall i: nat, e | 0 < i :: FrameHas(ts, [{}, {}], i, e);
    }

    /** _generalize: drop literals while the clause holds at reset and stays inductive
        relative to F_{i-1}. */
    method Generalize(cube: Cube, i: nat) returns (g: Cube)
      requires Valid() && 0 < i < |frames| && CubeOk(ts, cube)
      requires InitSat(ts, Negate(cube)) && InductiveRel(ts, frames, Negate(cube), i - 1)
      ensures g <= cube && CubeOk(ts, g) && InitSat(ts, Negate(g)) && InductiveRel(ts, frames, Negate(g), i - 1)
      ensures exists order :: Lists(order, cube) && g == Pass(Droppable(ts, frames, i), cube, order)
    {
      hide Wf, Covers, Clean, InitSat, InductiveRel, MeetsInit, Negate, Pass, Lists, Tried;
      g := cube;
      var rest := cube;
      ghost var ok := Droppable(ts, frames, i);
      ghost var order: seq<int> := [];
      NoneTried(ok, cube);
      assert cube - rest == {};
      while rest != {}
        invariant rest <= cube && g <= cube && CubeOk(ts, g)
        invariant InitSat(ts, Negate(g)) && InductiveRel(ts, frames, Negate(g), i - 1)
        invariant Lists(order, cube - rest) && g == Pass(ok, cube, order)
        decreases rest
      {
        ghost var p := Pick(rest);
        var l :| l in rest;
        ListsAppend(order, cube - rest, l);
        PassAppend(ok, cube, order, l);
        TriedIs(ts, frames, i, g, l);
        assert cube - rest + {l} == cube - (rest - {l});
        order := order + [l];
        rest := rest - {l};
        var cand := g - {l};
        if cand != {} {
          NegateOk(ts, cand);
          AvoidsInit(ts, cand);
          var meets := InitIntersects(ts, cand);
          if !meets {
            var stays := IsInductive(ts, frames, Negate(cand), i - 1);
            if stays {
              g := cand;
            }
          }
        }
      }
      assert cube - rest == cube;
    }

    /** _add_blocked: the clause joins frames 1 to `upto` and replaces what it subsumes. */
    method AddBlocked(clause: Cube, upto: nat)
      requires upto < |frames|
      modifies `frames
      ensures Added(old(frames), frames, clause, 1, upto)
    {
      var j := 1;
      while j <= upto
        invariant 1 <= j <= upto + 1 && |frames| == |old(frames)|
        invariant forall m | 0 <= m < |frames| ::
          frames[m] == if 1 <= m < j then Subsume(old(frames)[m], clause) else old(frames)[m]
      {
        frames := frames[j := Subsume(frames[j], clause)];
        j := j + 1;
      }
    }

    /** No predecessor: learn. */
    method Learn(s: Cube, i: nat)
      requires Valid() && Inv(ts, frames) && 0 < i < |frames| && Obligation(ts, i, s)
      requires InductiveRel(ts, frames, Negate(s), i - 1)
      modifies `frames
      ensures Valid() && Inv(ts, frames) && |frames| == |old(frames)|
      ensures Stronger(ts, old(frames), frames) && Blocked(ts, frames, i, s)
    {
      hide Wf, Covers, Clean, InitSat, InductiveRel, MeetsInit, Negate, Doomed, NotReached, Stronger, Blocked, Added;
      ObligationAvoidsInit(ts, i, s);
      AvoidsInit(ts, s);
      var g := Generalize(s, i);
      NegateOk(ts, g);
      ghost var frames0 := frames;
      AddBlocked(Negate(g), i);
      AddKeeps(ts, frames0, frames, Negate(g), 1, i);
      LearnedBlocks(ts, frames0, frames, g, s, i);
    }

    /** One obligation discharged or pushed back. */
    method Step(q: Queue, k: nat, bad: Cube, ghost low: nat) returns (q': Queue, ghost low': nat, hit: bool)
      requires Valid() && Inv(ts, frames) && k + 1 == |frames| && q != [] && low <= k + 1
      requires Obligations(ts, k, q) && Fresh(ts, frames, q, low) && Pending(ts, frames, q, k, bad)
      modifies `frames, `cex
      ensures Valid() && Inv(ts, frames) && Stronger(ts, old(frames), frames) && low' <= k + 1
      ensures !hit ==> Obligations(ts, k, q') && Fresh(ts, frames, q', low') && Pending(ts, frames, q', k, bad)
      ensures hit ==> cex.Some? && MeetsInit(ts, cex.value) && Doomed(ts, cex.value)
      ensures !hit ==> exists x, i, s, rest ::
          Popped(q, x, i, s, rest) && Turned(ts, old(frames), frames, k, i, s, rest, q')
      ensures !hit ==>
        || Alive(ts, frames) < Alive(ts, old(frames))
        || (frames == old(frames) && low' < low)
        || (Alive(ts, frames) <= Alive(ts, old(frames)) && low' == low && Weight(q', k) < Weight(q, k))
    {
      hide Wf, Covers, Clean, InductiveRel, MeetsInit, Negate, Obligation, Stronger, Blocked, Alive, Fresh, Pending,
        Obligations, FrameHas, Weight, Leads, InCube;
      ghost var frames0 := frames;
      StrongerRefl(ts, frames);
      var i, s, rest;
      ghost var x;
      i, s, rest, x := Pop(q);
      PoppedObligations(ts, k, q, x, i, s, rest);
      q', low', hit := rest, k + 1, false;
      if i == 0 {
        ObligationParts(ts, s);
        var meets := InitIntersects(ts, s);
        // The engine goes on with the rest of the queue when the answer is no; it never is.
        assert meets;
        cex := Some(s);
        hit := true;
        return;
      }
      ObligationOk(ts, i, s);
      var pred;
      ghost var w;
      pred, w := Predecessor(ts, frames, s, i - 1);
      if pred.None? {
        Learn(s, i);
        if i < |frames| - 1 {
          q' := rest + [(i + 1, s)];
        }
        LearnedQueue(ts, frames, k, q, x, i, s, rest, bad, frames0);
        LearnedMeasure(ts, frames, k, q, x, i, s, rest, frames0, low);
        NotFresh(ts, frames, q');
        assert Popped(q, x, i, s, rest) && Turned(ts, frames0, frames, k, i, s, rest, q');
      } else {
        PredecessorLevel(ts, i, s, pred.value, frames, w);
        PushedQueue(ts, frames, k, q, x, i, s, rest, bad, pred.value, w, low);
        q', low' := rest + [(i - 1, pred.value)] + [(i, s)], i - 1;
        assert LedBy(ts, frames, i, s, rest, q', pred.value, w);
        assert Popped(q, x, i, s, rest) && Turned(ts, frames0, frames, k, i, s, rest, q');
      }
    }

    /** _block: the bad cube and everything it gives rise to, until it is blocked at the
        frontier or reset is hit. */
    method Block(bad: Cube, k: nat) returns (blocked: bool)
      requires Valid() && Inv(ts, frames) && k + 1 == |frames| && Obligation(ts, k, bad)
      modifies `frames, `cex
      ensures Valid() && Inv(ts, frames) && |frames| == k + 1 && Stronger(ts, old(frames), frames)
      ensures blocked ==> Blocked(ts, frames, k, bad)
      ensures !blocked ==> cex.Some? && MeetsInit(ts, cex.value) && Doomed(ts, cex.value)
    {
      hide Wf, Covers, Clean, MeetsInit, Obligation, Stronger, Blocked, Alive, Fresh, FrameHas, Inv, Obligations,
          Pending;
      var q: Queue := [(k, bad)];
      ghost var low: nat := k + 1;
      StrongerRefl(ts, frames);
      NotFresh(ts, frames, q);
      FirstQueue(ts, frames, k, bad, q);
      while q != []
        invariant Valid() && Inv(ts, frames) && k + 1 == |frames| && Stronger(ts, old(frames), frames) && low <= k + 1
        invariant Obligations(ts, k, q) && Fresh(ts, frames, q, low) && Pending(ts, frames, q, k, bad) && LevelsTo(q, k)
        decreases Alive(ts, frames), low, Weight(q, k)
      {
        ghost var frames0 := frames;
        var hit;
        q, low, hit := Step(q, k, bad, low);
        StrongerTrans(ts, old(frames), frames0, frames);
        if hit {
          return false;
        }
        QueueLevels(ts, k, q);
      }
      NoneLeft(ts, frames, k, bad);
      return true;
    }

    /** Push the clauses of frame `i` that its successor keeps. */
    method PushFrame(i: nat)
      requires Valid() && Inv(ts, frames) && 0 < i && i + 1 < |frames|
      modifies `frames
      ensures Valid() && Inv(ts, frames) && OnlyMoved(old(frames), frames, i) && SameBelow(ts, old(frames), frames, i)
      ensures Pushed(ts, frames, i)
      ensures forall s: nat | LacksFrom(ts, old(frames), i, s) :: LacksFrom(ts, frames, i, s + 1)
      ensures Full(ts, old(frames), i) ==> frames == old(frames)
      ensures exists order :: Orders(order, frames[i]) && frames[i + 1] == PushedIn(ts, old(frames), i, order)
    {
      hide Wf, Covers, Clean, InductiveRel, FrameHas, Subsume, Inv, Added, OnlyMoved, SameBelow, PushedClause,
        LacksFrom, ShortIn, Orders, PushedIn;
      NothingMoved(ts, frames, i);
      ShortFirst(ts, frames, i);
      ghost var order: seq<Cube> := [];
      NoneOrdered(ts, frames, i);
      assert frames[i] - frames[i] == {};
      var rest := frames[i];
      while rest != {}
        invariant Valid() && Inv(ts, frames) && OnlyMoved(old(frames), frames, i)
            && SameBelow(ts, old(frames), frames, i)
        invariant |frames| == |old(frames)| && rest <= frames[i] == old(frames)[i]
        invariant forall c | c in frames[i] - rest :: PushedClause(ts, frames, i, c)
        invariant forall s: nat | LacksFrom(ts, old(frames), i, s) :: ShortIn(ts, old(frames), frames, i, s, rest)
        invariant Full(ts, old(frames), i) ==> frames == old(frames)
        invariant Orders(order, frames[i] - rest) && frames[i + 1] == PushedIn(ts, old(frames), i, order)
        decreases rest
      {
        ghost var p := Pick(rest);
        var cl :| cl in rest;
        ghost var before, rest0 := frames, rest;
        rest := rest - {cl};
        MovedSame(ts, old(frames), frames, i, cl);
        OrdersNext(order, frames[i] - rest0, cl);
        assert frames[i] - rest0 + {cl} == frames[i] - rest;
        PushedInNext(ts, old(frames), i, order, cl);
        order := order + [cl];
        ClauseIn(ts, frames, i, cl);
        var stays := cl in frames[i + 1];
        if stays {
          PushedIf(ts, frames, i, cl);
          forall s: nat | LacksFrom(ts, old(frames), i, s) ensures ShortIn(ts, old(frames), frames, i, s, rest) {
            ShortSkipped(ts, old(frames), frames, i, s, rest0, cl);
          }
        } else {
          stays := IsInductive(ts, frames, cl, i);
          if stays {
            PushOne(ts, old(frames), frames, i, cl, frames[i] - rest - {cl});
            frames := frames[i + 1 := Subsume(frames[i + 1], cl)];
            forall s: nat | LacksFrom(ts, old(frames), i, s) ensures ShortIn(ts, old(frames), frames, i, s, rest) {
              ShortPushed(ts, old(frames), before, frames, i, s, rest0, cl);
            }
          } else {
            PushedIf(ts, frames, i, cl);
            forall s: nat | LacksFrom(ts, old(frames), i, s) ensures ShortIn(ts, old(frames), frames, i, s, rest) {
              ShortSkipped(ts, old(frames), frames, i, s, rest0, cl);
            }
          }
        }
      }
      assert frames[i] - rest == frames[i];
      forall s: nat | LacksFrom(ts, old(frames), i, s) ensures LacksFrom(ts, frames, i, s + 1) {
        ShortDone(ts, old(frames), frames, i, s);
      }
    }

    /** _propagate: push every frame's clauses; the frame that converged, if one did. Where pushing has
        come as far as (j, s), it leaves the frames up to `j` alone, and comes a step further. */
    method Propagate(ghost j: nat, ghost s: nat) returns (r: Option<nat>)
      requires Valid() && Inv(ts, frames) && 0 < j
      modifies `frames
      ensures Valid() && Inv(ts, frames) && |frames| == |old(frames)|
      ensures r.Some? ==> 1 < r.value < |frames| && frames[r.value - 1] != {} && frames[r.value - 1] <= frames[r.value]
      ensures forall j: nat | 0 < j && j + 1 < (if r.Some? then r.value else |frames|) ::
        Pushed(ts, frames, j) && (frames[j] == {} || !(frames[j] <= frames[j + 1]))
      ensures Ahead(ts, old(frames), j, s) ==>
        && (forall m | 0 <= m <= j && m < |frames| :: frames[m] == old(frames)[m])
        && (r.None? ==> Ahead(ts, frames, j, s + 1))
    {
      hide Wf, Covers, Clean, Inv, FrameHas, Pushed, SameBelow, InductiveRel, LacksFrom, Full;
      var i := 1;
      while i + 1 < |frames|
        invariant 1 <= i && Valid() && Inv(ts, frames) && |frames| == |old(frames)|
        invariant forall j: nat | 0 < j < i && j + 1 < |frames| ::
            Pushed(ts, frames, j) && (frames[j] == {} || !(frames[j] <= frames[j + 1]))
        invariant Ahead(ts, old(frames), j, s) ==>
            && (forall m | 0 <= m <= j && m < |frames| :: frames[m] == old(frames)[m])
            && (i <= j ==> frames == old(frames)) && (i > j ==> Ahead(ts, frames, j, s + 1))
      {
        ghost var before := frames;
        PushFrame(i);
        forall j: nat | 0 < j < i ensures Pushed(ts, frames, j) && (frames[j] == {} || !(frames[j] <= frames[j + 1])) {
          StillPushed(ts, before, frames, i, j);
        }
        if Ahead(ts, old(frames), j, s) {
          if i == j {
            AheadStep(ts, before, frames, j, s);
          } else if i > j {
            AheadLater(ts, before, frames, i, j, s + 1);
          }
        }
        if frames[i] != {} && frames[i] <= frames[i + 1] {
          return Some(i + 1);
        }
        i := i + 1;
      }
      r := None;
    }

    /** The inner loop of solve: clear the frontier `k` of bad states, or hit reset. */
    method ClearFrontier(k: nat) returns (clear: bool)
      requires Valid() && Inv(ts, frames) && k + 1 == |frames|
      modifies `frames, `cex
      ensures Valid() && Inv(ts, frames) && |frames| == k + 1
      ensures clear ==> Clean(ts, frames, k)
      ensures !clear ==> !Safe(ts) && cex.Some? && MeetsInit(ts, cex.value) && Doomed(ts, cex.value)
      ensures Clean(ts, old(frames), k) ==> clear && frames == old(frames)
      ensures frames == old(frames) || SomeBad(ts)
    {
      hide Wf, Covers, Inv, Stronger, FrameHas, Alive, Blocked, Obligation, BadCube, Clean, Safe, MeetsInit, Doomed,
        SomeBad;
      while true
        invariant Valid() && Inv(ts, frames) && |frames| == k + 1
        invariant Clean(ts, old(frames), k) ==> frames == old(frames)
        invariant frames == old(frames) || SomeBad(ts)
        decreases Alive(ts, frames)
      {
        var bad;
        ghost var w;
        bad, w := FindBad(ts, frames, k);
        if bad.None? {
          return true;
        }
        BadSeen(ts, frames, k, bad.value, w);
        BadObligation(ts, frames, k, bad.value);
        ghost var frames0 := frames;
        var blocked := Block(bad.value, k);
        if !blocked {
          InitCounterexample(ts, cex.value);
          return false;
        }
        WitnessGone(ts, frames0, frames, k, bad.value, w);
      }
    }

    /** solve. With more frames than `Enough` it never gives up: an engine that starts afresh decides. */
    method Solve(maxFrames: nat) returns (r: Result)
      requires Valid()
      modifies `frames, `cex
      ensures Valid()
      ensures r.UnsafeAtReset? ==> BadAt(ts, 0) && frames == old(frames)
      ensures r.UnsafeAt? ==>
        && !Safe(ts) && (forall j: nat | j < r.frames :: !BadAt(ts, j)) && r.frames == |frames| - 1
        && cex.Some? && MeetsInit(ts, cex.value) && Doomed(ts, cex.value)
      ensures r.SafeBy? ==> Proves(ts, r.inv) && Safe(ts) && Converges(ts, frames, r.frames, r.inv)
      ensures r.Unknown? ==>
        && r.frames == maxFrames <= |frames| - 1 && (forall j: nat | j < maxFrames :: !BadAt(ts, j))
        && (old(frames) == [{}, {}] ==> Unconverged(ts, frames) && maxFrames <= Enough(ts))
    {
      hide Covers, Inv, Proves, Clean, FrameHas, Safe, BadAt, MeetsInit, Doomed, Unconverged, OnTheWay, Ahead, SomeBad,
        Enough, AllStates, NextStep, Wf;
      ghost var afresh := frames == [{}, {}];
      var atReset := InitIntersectsBad(ts);
      if atReset {
        return UnsafeAtReset;
      }
      ResetClean(ts, frames);
      ghost var j, s := 1, 0;
      Afresh(ts);
      while |frames| - 1 < maxFrames
        invariant Valid() && Inv(ts, frames) && |frames| >= 2
        invariant afresh ==> Unconverged(ts, frames) && OnTheWay(ts, frames, j, s) && 0 < j
        invariant afresh ==> SomeBad(ts) || forall j | 0 < j < |frames| :: frames[j] == {}
        decreases maxFrames - |frames|
      {
        var k: nat := |frames| - 1;
        ghost var frames0 := frames;
        if afresh && k >= |AllStates(ts)| + 2 { FrontierClean(ts, frames); }
        var clear := ClearFrontier(k);
        if !clear {
          CleanDepths(ts, frames);
          return UnsafeAt(k);
        }
        var learned := AnyClause();
        if !learned {
          NothingLearned(ts, frames, k);
          InvariantSafe(ts, {});
          return SafeBy(k, {});
        }
        NewFrame(ts, frames);
        frames := frames + [{}];
        StillValid(ts, frames);
        if afresh && k >= |AllStates(ts)| + 2 { GrownAhead(ts, frames0, j, s); }
        var conv := Propagate(if 0 < j then j else 1, s);
        if conv.Some? {
          Converged(ts, frames, conv.value - 1);
          var inv := Gather(conv.value);
          assert ConvergedAt(ts, frames, conv.value - 1, inv);
          InvariantSafe(ts, inv);
          return SafeBy(k, inv);
        }
        PushedThrough(ts, frames);
        if afresh {
          j, s := NextRound(ts, frames0, frames, j, s);
        }
      }
      CleanDepths(ts, frames);
      if afresh { AtMostEnough(ts, frames, j, s); }
      r := Unknown(maxFrames);
    }

    /** Has any frame a clause? */
    method AnyClause() returns (b: bool)
      requires |frames| >= 1
      ensures !b <==> forall j | 0 < j < |frames| :: frames[j] == {}
    {
      var j := 1;
      while j < |frames|
        invariant 1 <= j <= |frames| && forall m | 0 < m < j :: frames[m] == {}
      {
        if frames[j] != {} {
          return true;
        }
        j := j + 1;
      }
      b := false;
    }

    /** The clauses of frames `conv` and up. */
    method Gather(conv: nat) returns (inv: set<Cube>)
      requires conv <= |frames|
      ensures inv == Union(frames, conv)
    {
      inv := {};
      var j := conv;
      while j < |frames|
        invariant conv <= j <= |frames|
        invariant forall c :: c in inv <==> exists m :: conv <= m < j && c in frames[m]
      {
        inv := inv + frames[j];
        j := j + 1;
      }
    }
  }
}

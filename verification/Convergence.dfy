/** Why IC3 comes to a verdict: pushing moves clauses on from the shortest to the longest, and frames
    with the same states stay so up to the frontier. */
module Convergence {
  import opened Sets
  import opened Modular
  import opened Circuit
  import opened Transition
  import opened Ic3Spec

  // ---- clauses that the next frame lacks -------------------------------------------------------

  /** The clauses of frame `i` that are inductive relative to F_i, but not in the next frame, have at
      least `s` literals. */
  ghost predicate LacksFrom(ts: TS, frames: seq<set<Cube>>, i: nat, s: nat)
    requires Wf(ts) && i + 1 < |frames|
  {
    forall c | c in frames[i] && c !in frames[i + 1] && InductiveRel(ts, frames, c, i) :: |c| >= s
  }

  /** There are none. */
  ghost predicate Full(ts: TS, frames: seq<set<Cube>>, i: nat)
    requires Wf(ts) && i + 1 < |frames|
  {
    forall c | c in frames[i] && InductiveRel(ts, frames, c, i) :: c in frames[i + 1]
  }

  /** More literals than a clause can have. */
  function TooMany(ts: TS): nat {
    2 * |ts.state| + 1
  }

  /** The literals over `n` state bits. */
  ghost function Literals(n: nat): set<int> {
    if n == 0 then {} else Literals(n - 1) + {n, 0 - n}
  }

  lemma {:induction false} LiteralsAre(n: nat)
    ensures |Literals(n)| == 2 * n && forall l :: l in Literals(n) <==> l != 0 && 0 - n <= l <= n
  {
    if n > 0 {
      var r := Literals(n - 1);
      LiteralsAre(n - 1);
      assert n !in r && 0 - n !in r + {n};
      assert Literals(n) == (r + {n}) + {0 - n};
    }
  }

  lemma CubeSize(ts: TS, c: Cube)
    requires CubeOk(ts, c)
    ensures |c| < TooMany(ts)
  {
    var r := Literals(|ts.state|);
    LiteralsAre(|ts.state|);
    forall l | l in c ensures l in r { assert IndexOk(ts, l); }
    Fewer(c, r);
  }

  lemma LacksNone(ts: TS, frames: seq<set<Cube>>, i: nat)
    requires Wf(ts) && FramesOk(ts, frames) && i + 1 < |frames| && LacksFrom(ts, frames, i, TooMany(ts))
    ensures Full(ts, frames, i)
  {
    hide InductiveRel, CubeOk, TooMany;
    forall c | c in frames[i] && InductiveRel(ts, frames, c, i) ensures c in frames[i + 1] { CubeSize(ts, c); }
  }

  /** While the clauses `rest` are left to push: the short ones of the frame, other than those, are
      in the next frame. */
  ghost predicate ShortIn(ts: TS, frames0: seq<set<Cube>>, frames: seq<set<Cube>>, i: nat, s: nat, rest: set<Cube>)
    requires Wf(ts) && |frames| == |frames0| && i + 1 < |frames|
  {
    forall c | c in frames0[i] && InductiveRel(ts, frames0, c, i) && |c| <= s && (c in frames0[i + 1] || c !in rest) ::
      c in frames[i + 1]
  }

  lemma ShortFirst(ts: TS, frames: seq<set<Cube>>, i: nat)
    requires Wf(ts) && i + 1 < |frames|
    ensures forall s: nat :: ShortIn(ts, frames, frames, i, s, frames[i])
  {
  }

  lemma SmallerSize(a: Cube, b: Cube)
    requires a < b
    ensures |a| < |b|
  {
    assert b == a + (b - a);
    assert b - a != {};
  }

  /** A pushed clause ousts only longer ones. */
  lemma ShortPushed(ts: TS, frames0: seq<set<Cube>>, frames: seq<set<Cube>>, frames': seq<set<Cube>>, i: nat, s: nat,
      rest: set<Cube>, cl: Cube)
    requires Wf(ts) && |frames'| == |frames| == |frames0| && i + 1 < |frames| && LacksFrom(ts, frames0, i, s)
    requires ShortIn(ts, frames0, frames, i, s, rest) && cl in frames0[i] && InductiveRel(ts, frames0, cl, i)
    requires cl !in frames[i + 1] && frames'[i + 1] == Subsume(frames[i + 1], cl)
    ensures ShortIn(ts, frames0, frames', i, s, rest - {cl})
  {
    hide InductiveRel;
    forall c | c in frames0[i] && InductiveRel(ts, frames0, c, i) && |c| <= s
        && (c in frames0[i + 1] || c !in rest - {cl})
        ensures c in frames'[i + 1] {
      if cl < c {
        SmallerSize(cl, c);
      }
    }
  }

  /** A clause that stays or is not inductive needs no pushing. */
  lemma ShortSkipped(ts: TS, frames0: seq<set<Cube>>, frames: seq<set<Cube>>, i: nat, s: nat, rest: set<Cube>,
      cl: Cube)
    requires Wf(ts) && |frames| == |frames0| && i + 1 < |frames| && ShortIn(ts, frames0, frames, i, s, rest)
    requires cl in frames[i + 1] || !InductiveRel(ts, frames0, cl, i)
    ensures ShortIn(ts, frames0, frames, i, s, rest - {cl})
  {
    hide InductiveRel;
  }

  lemma ShortDone(ts: TS, frames0: seq<set<Cube>>, frames: seq<set<Cube>>, i: nat, s: nat)
    requires Wf(ts) && |frames| == |frames0| && i + 1 < |frames| && frames[i] == frames0[i]
    requires SameBelow(ts, frames0, frames, i) && ShortIn(ts, frames0, frames, i, s, {})
    ensures LacksFrom(ts, frames, i, s + 1)
  {
    hide InductiveRel, SameBelow;
    forall c | c in frames[i] && c !in frames[i + 1] && InductiveRel(ts, frames, c, i) ensures |c| >= s + 1 {
      SameInductive(ts, frames0, frames, c, i, i);
    }
  }

  /** The next frame after these clauses of frame `i` have been considered, one after the other: those that
      are inductive relative to F_i and not there yet join it and oust what they subsume. */
  ghost function PushedIn(ts: TS, frames: seq<set<Cube>>, i: nat, order: seq<Cube>): set<Cube>
    requires Wf(ts) && i + 1 < |frames|
  {
    if order == [] then frames[i + 1]
    else
      var before, c := PushedIn(ts, frames, i, order[..|order| - 1]), order[|order| - 1];
      if c !in before && InductiveRel(ts, frames, c, i) then Subsume(before, c) else before
  }

  lemma PushedInNext(ts: TS, frames: seq<set<Cube>>, i: nat, order: seq<Cube>, c: Cube)
    requires Wf(ts) && i + 1 < |frames|
    ensures PushedIn(ts, frames, i, order + [c]) ==
      (var before := PushedIn(ts, frames, i, order);
       if c !in before && InductiveRel(ts, frames, c, i) then Subsume(before, c) else before)
  {
    hide InductiveRel;
    assert (order + [c])[..|order + [c]| - 1] == order;
  }

  /** Each clause of the set once. */
  ghost predicate Orders(order: seq<Cube>, cs: set<Cube>) {
    (forall c :: c in order <==> c in cs) && forall j, k | 0 <= j < k < |order| :: order[j] != order[k]
  }

  lemma OrdersNext(order: seq<Cube>, cs: set<Cube>, c: Cube)
    requires Orders(order, cs) && c !in cs
    ensures Orders(order + [c], cs + {c})
  {
    forall j, k | 0 <= j < k < |order + [c]| ensures (order + [c])[j] != (order + [c])[k] {
      assert order + [c] != [] && (k == |order| ==> order[j] in order);
    }
  }

  // ---- how far pushing has come -----------------------------------------------------------------

  /** Nothing is left to push from the frames before `j`, and from frame `j` no clause of fewer than
      `s` literals. */
  ghost predicate Ahead(ts: TS, frames: seq<set<Cube>>, j: nat, s: nat)
    requires Wf(ts)
  {
    && (forall i: nat | 0 < i < j && i + 1 < |frames| :: Full(ts, frames, i))
    && (j + 1 < |frames| ==> LacksFrom(ts, frames, j, s))
  }

  lemma AheadFirst(ts: TS, frames: seq<set<Cube>>)
    requires Wf(ts)
    ensures Ahead(ts, frames, 1, 0)
  {
    hide InductiveRel;
  }

  lemma AheadNext(ts: TS, frames: seq<set<Cube>>, j: nat)
    requires Wf(ts) && FramesOk(ts, frames) && j + 1 < |frames| && Ahead(ts, frames, j, TooMany(ts))
    ensures Ahead(ts, frames, j + 1, 0)
  {
    hide InductiveRel, FramesOk, TooMany;
    LacksNone(ts, frames, j);
  }

  /** Pushing from frame `j` gets one length further. */
  lemma AheadStep(ts: TS, frames: seq<set<Cube>>, frames': seq<set<Cube>>, j: nat, s: nat)
    requires Wf(ts) && OnlyMoved(frames, frames', j) && SameBelow(ts, frames, frames', j)
    requires Ahead(ts, frames, j, s) && LacksFrom(ts, frames', j, s + 1)
    ensures Ahead(ts, frames', j, s + 1)
  {
    hide InductiveRel, SameBelow;
    forall m: nat | 0 < m < j && m + 1 < |frames'| ensures Full(ts, frames', m) {
      assert Full(ts, frames, m);
      forall c | c in frames'[m] && InductiveRel(ts, frames', c, m) ensures c in frames'[m + 1] {
        SameInductive(ts, frames, frames', c, j, m);
      }
    }
  }

  /** Pushing from a later frame changes nothing there. */
  lemma AheadLater(ts: TS, frames: seq<set<Cube>>, frames': seq<set<Cube>>, i: nat, j: nat, s: nat)
    requires Wf(ts) && j < i && OnlyMoved(frames, frames', i) && SameBelow(ts, frames, frames', i)
    requires Ahead(ts, frames, j, s)
    ensures Ahead(ts, frames', j, s)
  {
    hide InductiveRel, SameBelow;
    forall m: nat | 0 < m < j && m + 1 < |frames'| ensures Full(ts, frames', m) {
      assert Full(ts, frames, m);
      forall c | c in frames'[m] && InductiveRel(ts, frames', c, m) ensures c in frames'[m + 1] {
        SameInductive(ts, frames, frames', c, i, m);
      }
    }
    forall c | c in frames'[j] && c !in frames'[j + 1] && InductiveRel(ts, frames', c, j) ensures |c| >= s {
      SameInductive(ts, frames, frames', c, i, j);
    }
  }

  lemma GrownInductive(ts: TS, frames: seq<set<Cube>>, c: Cube, i: nat)
    requires Wf(ts) && i < |frames|
    ensures InductiveRel(ts, frames + [{}], c, i) <==> InductiveRel(ts, frames, c, i)
  {
    hide AllSat, SatClause;
    var frames' := frames + [{}];
    assert SameStates(ts, frames, frames', i) by { GrownStates(ts, frames, i); }
  }

  ghost predicate SameStates(ts: TS, frames: seq<set<Cube>>, frames': seq<set<Cube>>, i: nat)
    requires Wf(ts)
  {
    forall e :: FrameHas(ts, frames', i, e) <==> FrameHas(ts, frames, i, e)
  }

  lemma GrownStates(ts: TS, frames: seq<set<Cube>>, i: nat)
    requires Wf(ts) && i < |frames|
    ensures SameStates(ts, frames, frames + [{}], i)
  {
    hide SatClause;
    var frames' := frames + [{}];
    forall e ensures FrameHas(ts, frames', i, e) <==> FrameHas(ts, frames, i, e) {
      if i > 0 && FrameHas(ts, frames, i, e) {
        forall j | i <= j < |frames'| ensures AllSat(ts, frames'[j], e) {}
      }
      if i > 0 && FrameHas(ts, frames', i, e) {
        forall j | i <= j < |frames| ensures AllSat(ts, frames[j], e) { assert frames'[j] == frames[j]; }
      }
    }
  }

  lemma AheadGrown(ts: TS, frames: seq<set<Cube>>, j: nat, s: nat)
    requires Wf(ts) && Ahead(ts, frames, j, s) && j < |frames| && (j + 1 == |frames| ==> s == 0)
    ensures Ahead(ts, frames + [{}], j, s)
  {
    hide InductiveRel;
    var frames' := frames + [{}];
    forall m: nat | 0 < m < j && m + 1 < |frames'| ensures Full(ts, frames', m) {
      assert Full(ts, frames, m);
      forall c | c in frames'[m] && InductiveRel(ts, frames', c, m) ensures c in frames'[m + 1] {
        GrownInductive(ts, frames, c, m);
      }
    }
    forall c | c in frames'[j] && c !in frames'[j + 1] && InductiveRel(ts, frames', c, j) ensures |c| >= s {
      GrownInductive(ts, frames, c, j);
    }
  }

  // ---- frames with the same states ----------------------------------------------------------------

  ghost predicate Equal(ts: TS, frames: seq<set<Cube>>, i: nat, j: nat)
    requires Wf(ts)
  {
    forall e :: FrameHas(ts, frames, i, e) <==> FrameHas(ts, frames, j, e)
  }

  ghost predicate AllPushed(ts: TS, frames: seq<set<Cube>>)
    requires Wf(ts)
  {
    forall j: nat | 0 < j && j + 1 < |frames| :: Pushed(ts, frames, j)
  }

  /** What a frame with the states of its successor says is inductive. */
  lemma SameInductiveAll(ts: TS, frames: seq<set<Cube>>, i: nat, m: nat, c: Cube)
    requires Wf(ts) && Covers(ts, frames) && 0 < i <= m && i + 1 < |frames| && m < |frames|
    requires Equal(ts, frames, i, i + 1) && Equal(ts, frames, i, m) && c in frames[m]
    ensures InductiveRel(ts, frames, c, m)
  {
    hide AllSat, Wf;
    forall e, e' | Follows(ts, e, e') && FrameHas(ts, frames, m, e) && SatClause(ts, c, e)
        ensures SatClause(ts, c, e') {
      assert FrameHas(ts, frames, i + 1, e');
      assert FrameHas(ts, frames, m, e');
      SatOne(ts, frames[m], c, e');
    }
  }

  lemma SatOne(ts: TS, cs: set<Cube>, c: Cube, e: Env)
    requires c in cs && AllSat(ts, cs, e)
    ensures SatClause(ts, c, e)
  {
  }

  lemma KeptSat(ts: TS, cs: set<Cube>, c: Cube, e: Env)
    requires Kept(cs, c) && AllSat(ts, cs, e)
    ensures SatClause(ts, c, e)
  {
    var d :| d in cs && d <= c;
    var l :| l in d && LitAt(ts, l, e);
    assert l in c;
  }

  /** Two neighbours with the same states: all the frames after them have those states. */
  lemma {:induction false} EqualOn(ts: TS, frames: seq<set<Cube>>, i: nat, m: nat)
    requires Wf(ts) && Covers(ts, frames) && AllPushed(ts, frames)
    requires 0 < i <= m < |frames| && i + 1 < |frames| && Equal(ts, frames, i, i + 1)
    ensures Equal(ts, frames, i, m)
    decreases m
  {
    hide Wf, Covers, AllSat, InductiveRel, Kept, FrameHas;
    if m > i + 1 {
      EqualOn(ts, frames, i, m - 1);
      assert Pushed(ts, frames, m - 1);
      forall e ensures FrameHas(ts, frames, m - 1, e) <==> FrameHas(ts, frames, m, e) {
        if FrameHas(ts, frames, m, e) {
          forall c | c in frames[m - 1] ensures SatClause(ts, c, e) {
            SameInductiveAll(ts, frames, i, m - 1, c);
            assert PushedClause(ts, frames, m - 1, c);
            FrameSat(ts, frames, m, e);
            KeptSat(ts, frames[m], c, e);
          }
          FrameBelow(ts, frames, m - 1, e);
        }
        if FrameHas(ts, frames, m - 1, e) { FrameMonotone(ts, frames, m - 1, m, e); }
      }
    }
  }

  lemma FrameSat(ts: TS, frames: seq<set<Cube>>, m: nat, e: Env)
    requires Wf(ts) && 0 < m < |frames| && FrameHas(ts, frames, m, e)
    ensures AllSat(ts, frames[m], e)
  {
    hide AllSat;
  }

  lemma FrameBelow(ts: TS, frames: seq<set<Cube>>, m: nat, e: Env)
    requires Wf(ts) && 0 < m && m + 1 < |frames| && FrameHas(ts, frames, m + 1, e)
    requires forall c | c in frames[m] :: SatClause(ts, c, e)
    ensures FrameHas(ts, frames, m, e)
  {
    hide SatClause;
    forall j | m <= j < |frames| ensures AllSat(ts, frames[j], e) {}
  }

  /** The clauses of the frames are pushed as far as they go, and no two neighbours have converged. */
  ghost predicate Unconverged(ts: TS, frames: seq<set<Cube>>)
    requires Wf(ts)
  {
    forall j: nat | 0 < j && j + 1 < |frames| ::
      Pushed(ts, frames, j) && (frames[j] == {} || !(frames[j] <= frames[j + 1]))
  }

  ghost predicate SomeBad(ts: TS) {
    exists e :: e <= Names(ts) && Eval(ts.bad, e)
  }

  /** Then the frontier is clean, and the frame is one that holds clauses, all of which its successor
      has once nothing is left to push. */
  lemma EqualFrames(ts: TS, frames: seq<set<Cube>>, i: nat)
    requires Wf(ts) && Inv(ts, frames) && AllPushed(ts, frames) && 0 < i && i + 1 < |frames|
    requires Equal(ts, frames, i, i + 1)
    ensures Clean(ts, frames, |frames| - 1)
    ensures SomeBad(ts) ==> frames[i] != {}
    ensures Full(ts, frames, i) ==> frames[i] <= frames[i + 1]
  {
    hide Wf, Covers, AllSat, InductiveRel, Pushed, FramesOk;
    var k := |frames| - 1;
    EqualOn(ts, frames, i, k);
    assert Clean(ts, frames, i);
    if frames[i] == {} && SomeBad(ts) {
      NoneAfter(frames, i);
      EmptyHas(ts, frames, i);
    }
    forall c | c in frames[i] ensures InductiveRel(ts, frames, c, i) { SameInductiveAll(ts, frames, i, i, c); }
  }

  lemma NoneNext(frames: seq<set<Cube>>, j: nat)
    requires Nested(frames) && 0 < j && j + 1 < |frames|
    ensures frames[j + 1] != {} ==> frames[j] != {}
  {
    if frames[j + 1] != {} {
      var c := Pick(frames[j + 1]);
      assert Kept(frames[j], c);
    }
  }

  lemma NoneAfter(frames: seq<set<Cube>>, i: nat)
    requires Nested(frames) && 0 < i < |frames| && frames[i] == {}
    ensures forall j | i <= j < |frames| :: frames[j] == {}
  {
    var j := i;
    while j + 1 < |frames|
      invariant i <= j < |frames| && forall m | i <= m <= j :: frames[m] == {}
    {
      NoneNext(frames, j);
      j := j + 1;
    }
  }

  lemma EmptyHas(ts: TS, frames: seq<set<Cube>>, i: nat)
    requires Wf(ts) && 0 < i && forall j | i <= j < |frames| :: frames[j] == {}
    ensures forall e :: FrameHas(ts, frames, i, e)
  {
  }

  // ---- some neighbours have the same states --------------------------------------------------------

  ghost function StatesIn(ts: TS, frames: seq<set<Cube>>, i: nat): set<Env>
    requires Wf(ts)
  {
    set e | e in AllStates(ts) && FrameHas(ts, frames, i, e)
  }

  lemma EqualStates(ts: TS, frames: seq<set<Cube>>, i: nat)
    requires Wf(ts) && StatesIn(ts, frames, i) == StatesIn(ts, frames, i + 1)
    ensures Equal(ts, frames, i, i + 1)
  {
    hide FrameHas, Wf;
    forall e ensures FrameHas(ts, frames, i, e) <==> FrameHas(ts, frames, i + 1, e) {
      var st := e * States(ts);
      assert st * States(ts) == st && st in AllStates(ts);
      FrameState(ts, frames, i, e, st);
      FrameState(ts, frames, i + 1, e, st);
      assert st in StatesIn(ts, frames, i) <==> st in StatesIn(ts, frames, i + 1);
    }
  }

  /** Without such neighbours before it, a frame has as many states as frames before it. */
  lemma {:induction false} GrowingStates(ts: TS, frames: seq<set<Cube>>, i: nat)
    requires Wf(ts) && Covers(ts, frames) && 0 < i < |frames|
    requires forall j: nat | 0 < j < i :: StatesIn(ts, frames, j) != StatesIn(ts, frames, j + 1)
    ensures |StatesIn(ts, frames, i)| >= i - 1
    decreases i
  {
    hide FrameHas, Wf, Covers;
    if i > 1 {
      GrowingStates(ts, frames, i - 1);
      var a, b := StatesIn(ts, frames, i - 1), StatesIn(ts, frames, i);
      forall e | e in a ensures e in b { FrameMonotone(ts, frames, i - 1, i, e); }
      assert a < b;
      assert b == a + (b - a) && b - a != {};
    }
  }

  lemma NeighboursFound(ts: TS, frames: seq<set<Cube>>) returns (i: nat)
    requires Wf(ts) && Covers(ts, frames) && |frames| > |AllStates(ts)| + 2
    ensures 0 < i <= |AllStates(ts)| + 1 && Equal(ts, frames, i, i + 1)
  {
    hide FrameHas, Wf, Covers, AllStates;
    var n := |AllStates(ts)|;
    if forall j: nat | 0 < j < n + 2 :: StatesIn(ts, frames, j) != StatesIn(ts, frames, j + 1) {
      GrowingStates(ts, frames, n + 2);
      Fewer(StatesIn(ts, frames, n + 2), AllStates(ts));
    }
    i :| 0 < i < n + 2 && StatesIn(ts, frames, i) == StatesIn(ts, frames, i + 1);
    EqualStates(ts, frames, i);
  }

  // ---- how many frames are enough --------------------------------------------------------------------

  /** With more frames than this the engine comes to a verdict. */
  ghost function Enough(ts: TS): nat {
    |AllStates(ts)| + 2 + (|AllStates(ts)| + 1) * TooMany(ts)
  }

  lemma MoreEnough(m: nat, n: nat, p: nat, q: nat)
    requires m <= n && p <= q
    ensures m + 2 + (m + 1) * p <= n + 2 + (n + 1) * q
  {
    assert (m + 1) * p <= (m + 1) * q;
    assert (m + 1) * q <= (n + 1) * q;
  }

  ghost function SubsetsOf(s: set<Name>): set<Env> {
    set e: Env | e <= s
  }

  lemma {:induction false} Subsets(s: set<Name>)
    ensures |SubsetsOf(s)| == Pow2(|s|)
    decreases s
  {
    hide SubsetsOf, Pow2;
    if s == {} {
      SubsetsNone();
      NoBits();
    } else {
      var x := Pick(s);
      Subsets(s - {x});
      SubsetsTwice(s, x);
      Pow2Next(|s - {x}|);
      assert s == (s - {x}) + {x};
    }
  }

  lemma NoBits()
    ensures Pow2(0) == 1
  {
  }

  lemma SubsetsTwice(s: set<Name>, x: Name)
    requires x in s
    ensures |SubsetsOf(s)| == 2 * |SubsetsOf(s - {x})|
  {
    hide SubsetsOf;
    var without := SubsetsOf(s - {x});
    SubsetsSplit(s, x);
    AddedCount(without, x);
  }

  lemma SubsetsNone()
    ensures SubsetsOf({}) == {{}}
  {
    forall e ensures e in SubsetsOf({}) <==> e == {} {}
  }

  lemma SubsetsSplit(s: set<Name>, x: Name)
    requires x in s
    ensures var without := SubsetsOf(s - {x});
      var with_ := Adding(without, x);
      && SubsetsOf(s) == without + with_ && without !! with_ && forall e | e in without :: x !in e
  {
    var without := SubsetsOf(s - {x});
    var with_ := Adding(without, x);
    forall e ensures e in SubsetsOf(s) <==> e in without + with_ {
      if e <= s && x in e {
        assert e == (e - {x}) + {x} && e - {x} in without;
      }
    }
  }

  ghost function Adding(es: set<Env>, x: Name): set<Env> {
    set e | e in es :: e + {x}
  }

  lemma {:induction false} AddedCount(es: set<Env>, x: Name)
    requires forall e | e in es :: x !in e
    ensures |Adding(es, x)| == |es|
    decreases es
  {
    hide Adding;
    if es == {} {
      AddedNone(x);
    } else {
      var e := Pick(es);
      AddedCount(es - {e}, x);
      AddedOne(es, x, e);
    }
  }

  lemma AddedNone(x: Name)
    ensures Adding({}, x) == {}
  {
  }

  lemma AddedOne(es: set<Env>, x: Name, e: Env)
    requires e in es && forall d | d in es :: x !in d
    ensures Adding(es, x) == Adding(es - {e}, x) + {e + {x}} && e + {x} !in Adding(es - {e}, x)
  {
    forall d ensures d in Adding(es, x) <==> d in Adding(es - {e}, x) + {e + {x}} {
      if d in Adding(es, x) {
        var u :| u in es && u + {x} == d;
      }
    }
    forall u | u in es - {e} ensures u + {x} != e + {x} {
      assert u == (u + {x}) - {x} && e == (e + {x}) - {x};
    }
  }

  /** 2^n states for n state bits. */
  lemma StateCount(ts: TS)
    ensures |AllStates(ts)| == Pow2(|States(ts)|)
  {
    assert AllStates(ts) == SubsetsOf(States(ts));
    Subsets(States(ts));
  }

  // ---- the rounds of the engine ------------------------------------------------------------------

  /** How far (j, s) is from (1, 0), in steps. */
  ghost function Distance(ts: TS, j: nat, s: nat): int {
    (j - 1) * TooMany(ts) + s
  }

  /** How far pushing has come in so many frames: at least one step a round, from the round on in
      which some neighbours must have the same states. */
  ghost predicate OnTheWay(ts: TS, frames: seq<set<Cube>>, j: nat, s: nat)
    requires Wf(ts)
  {
    && 0 < j <= |AllStates(ts)| + 2 && s < TooMany(ts) && (j == |AllStates(ts)| + 2 ==> s == 0)
    && Ahead(ts, frames, j, s)
    && |frames| - 1 <= |AllStates(ts)| + 2 + Distance(ts, j, s)
    && (|frames| - 1 < |AllStates(ts)| + 2 ==> j == 1 && s == 0)
  }

  lemma FirstOnTheWay(ts: TS, frames: seq<set<Cube>>)
    requires Wf(ts) && |frames| - 1 <= |AllStates(ts)| + 2
    ensures OnTheWay(ts, frames, 1, 0)
  {
    hide Ahead, AllStates;
    AheadFirst(ts, frames);
  }

  lemma AtMostEnough(ts: TS, frames: seq<set<Cube>>, j: nat, s: nat)
    requires Wf(ts) && OnTheWay(ts, frames, j, s)
    ensures |frames| - 1 <= Enough(ts)
  {
    hide Ahead, AllStates, TooMany;
    var n, t := |AllStates(ts)|, TooMany(ts);
    if j == n + 2 {
      assert (j - 1) * t == (n + 1) * t;
    } else {
      assert (j - 1) * t <= n * t;
      assert (n + 1) * t == n * t + t;
    }
  }

  /** The next step. */
  ghost function NextStep(ts: TS, j: nat, s: nat): (nat, nat) {
    if s + 1 < TooMany(ts) then (j, s + 1) else (j + 1, 0)
  }

  /** A round without verdict, once there are enough frames: the frontier was clean, and pushing came a
      step further. */
  lemma StepFurther(ts: TS, frames: seq<set<Cube>>, frames': seq<set<Cube>>, j: nat, s: nat)
    requires Wf(ts) && Inv(ts, frames) && Unconverged(ts, frames) && OnTheWay(ts, frames, j, s) && SomeBad(ts)
    requires |frames| > |AllStates(ts)| + 2 && |frames'| == |frames| + 1 && FramesOk(ts, frames')
    requires Unconverged(ts, frames') && (forall m | 0 <= m <= j && m < |frames| :: frames'[m] == frames[m])
    requires Ahead(ts, frames', j, s + 1)
    ensures OnTheWay(ts, frames', NextStep(ts, j, s).0, NextStep(ts, j, s).1)
  {
    hide AllStates, TooMany, Inv, FramesOk, Wf, Full, LacksFrom, Pushed;
    var n, t := |AllStates(ts)|, TooMany(ts);
    InvCovers(ts, frames);
    var i := NeighboursFound(ts, frames);
    UnconvergedPushed(ts, frames);
    EqualFrames(ts, frames, i);
    if s + 1 == t {
      AheadNext(ts, frames', j);
      assert j * t == (j - 1) * t + t;
    }
  }

  lemma InvCovers(ts: TS, frames: seq<set<Cube>>)
    requires Wf(ts) && Inv(ts, frames)
    ensures Covers(ts, frames)
  {
  }

  lemma UnconvergedPushed(ts: TS, frames: seq<set<Cube>>)
    requires Wf(ts) && Unconverged(ts, frames)
    ensures AllPushed(ts, frames)
  {
    hide Pushed;
  }

  /** And the frontier was clean from the start. */
  lemma FrontierClean(ts: TS, frames: seq<set<Cube>>)
    requires Wf(ts) && Inv(ts, frames) && Unconverged(ts, frames) && |frames| > |AllStates(ts)| + 2
    ensures Clean(ts, frames, |frames| - 1)
  {
    hide AllStates, Inv, Wf, Pushed, Clean;
    InvCovers(ts, frames);
    var i := NeighboursFound(ts, frames);
    UnconvergedPushed(ts, frames);
    EqualFrames(ts, frames, i);
  }
}

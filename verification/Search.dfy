/** The main search: what a learned clause, a restart, a decision and a verdict
    are worth. */
module Search {
  import opened Sets
  import opened Sat
  import opened Trail
  import opened WatchLists
  import opened Learning

  // ---- learning -------------------------------------------------------------

  /** Back at level `bj`, the learned clause is unit: its first literal is free
      and the rest are false, the second of them at this very level. */
  ghost predicate Ready(n: nat, f: seq<seq<int>>, a: Asg, learnt: seq<int>) {
    && |learnt| >= 1 && ClauseOk(n, learnt) && DistinctVars(learnt) && Entails(f, learnt)
    && Var(learnt[0]) !in a.assign && Unit(learnt, a, learnt[0])
    && (forall q | q in learnt && q != learnt[0] :: Var(q) in a.level && a.level[Var(q)] <= |a.lim|)
    && (if |learnt| == 1 then |a.lim| == 0
        else Var(learnt[1]) in a.level && a.level[Var(learnt[1])] == |a.lim|)
  }

  lemma CutReady(n: nat, f: seq<seq<int>>, a: Asg, learnt: seq<int>, bj: nat)
    requires TrailOk(n, a) && Learned(n, f, a, learnt, bj) && 0 < |a.lim|
    ensures bj < |a.lim| && Ready(n, f, a.Cut(bj), learnt)
    ensures a.lim[bj] <= a.Start() <= |a.trail|
  {
    var b := a.Cut(bj);
    assert learnt[0] in learnt;
    assert LevelOk(a, Var(learnt[0]));
    assert a.lim[bj] <= a.lim[|a.lim| - 1];
    forall k | 1 <= k < |learnt|
      ensures b.False(learnt[k]) && Var(learnt[k]) in b.level && b.level[Var(learnt[k])] == a.level[Var(learnt[k])]
    {
      assert learnt[k] in learnt && LevelOk(a, Var(learnt[k]));
      assert a.pos[Var(learnt[k])] < a.lim[bj] by {
        assert a.lim[a.level[Var(learnt[k])]] <= a.lim[bj];
      }
    }
    forall q | q in learnt && q != learnt[0] ensures b.False(q) && Var(q) in b.level && b.level[Var(q)] <= bj {
      var k :| 0 <= k < |learnt| && learnt[k] == q;
    }
  }

  lemma LearnMeans(f: seq<seq<int>>, db: seq<seq<int>>, a: Asg, empty: bool, c: seq<int>)
    requires Means(f, db, a, empty) && Entails(f, c)
    ensures Means(f, db + [c], a, empty)
  {
    forall m: Model ensures HoldsAll(m, db + [c]) <==> HoldsAll(m, db) && HoldsClause(m, c) {
      HoldsAllAppend(m, db, c);
    }
  }

  lemma UnitMeans(n: nat, f: seq<seq<int>>, db: seq<seq<int>>, a: Asg, empty: bool, l: int)
    requires TrailOk(n, a) && Means(f, db, a, empty) && Entails(f, [l]) && |a.lim| == 0
    requires LitOk(n, l) && Var(l) !in a.assign
    ensures Means(f, db, a.Push(l, None), empty)
  {
    forall m: Model
      ensures RootHolds(m, a.Push(l, None)) <==> RootHolds(m, a) && HoldsLit(m, l)
      ensures HoldsAll(m, f) ==> HoldsLit(m, l)
    {
      RootPush(n, m, a, l, None);
      if HoldsAll(m, f) { assert HoldsClause(m, [l]); }
    }
  }

  lemma ReadyFacts(n: nat, f: seq<seq<int>>, a: Asg, learnt: seq<int>)
    requires Ready(n, f, a, learnt)
    ensures |learnt| >= 1 && LitOk(n, learnt[0]) && Var(learnt[0]) !in a.assign && Entails(f, learnt)
    ensures ClauseOk(n, learnt) && DistinctVars(learnt) && Unit(learnt, a, learnt[0])
    ensures |learnt| == 1 ==> |a.lim| == 0
  {
    assert learnt[0] in learnt;
  }

  lemma LimsBelow(n: nat, a: Asg)
    requires TrailOk(n, a)
    ensures forall k | 0 <= k < |a.lim| :: a.lim[k] <= |a.trail|
  {
  }

  lemma SameLims(a: Asg, b: Asg)
    requires Extends(a, b)
    ensures a.lim == b.lim
  {
  }

  /** The clause just learned is properly watched once its first literal is on. */
  lemma LearntWatched(n: nat, f: seq<seq<int>>, a: Asg, learnt: seq<int>, r: Option<nat>)
    requires TrailOk(n, a) && Ready(n, f, a, learnt) && |learnt| >= 2
    ensures ClauseWatched(learnt, a.Push(learnt[0], r), |a.trail|)
  {
    assert learnt[0] in learnt && learnt[1] in learnt;
    assert Var(learnt[0]) != Var(learnt[1]);
  }

  lemma AppendWatched(n: nat, db: seq<seq<int>>, a: Asg, c: seq<int>, limit: nat)
    requires WatchInv(db, a, limit) && ClauseWatched(c, a, limit)
    ensures WatchInv(db + [c], a, limit)
  {
    forall i | 0 <= i < |db + [c]| ensures ClauseWatched((db + [c])[i], a, limit) {
      if i < |db| { assert ClauseWatched(db[i], a, limit); }
    }
  }

  // ---- termination ------------------------------------------------------------

  /** The clauses the solver holds, as literal sets: the table and the root facts. */
  ghost function Known(db: seq<seq<int>>, a: Asg): set<set<int>> {
    (set c | 0 <= c < |db| :: LitSet(db[c])) +
    (set v | v in a.assign && v in a.level && a.level[v] == 0 :: {a.Lit(v)})
  }

  lemma KnownBounded(n: nat, db: seq<seq<int>>, a: Asg)
    requires DbOk(n, db) && TrailOk(n, a)
    ensures Known(db, a) <= AllClauses(n)
  {
    forall s | s in Known(db, a) ensures s <= Literals(n) {
      if v :| v in a.assign && a.level[v] == 0 && s == {a.Lit(v)} {
        assert Var(a.trail[a.pos[v]]) == v && LitOk(n, a.trail[a.pos[v]]);
        assert LitOk(n, a.Lit(v));
      } else {
        var c :| 0 <= c < |db| && s == LitSet(db[c]);
        forall l | l in s ensures l in Literals(n) { assert LitOk(n, l); }
      }
    }
  }

  lemma SameLitSet(c: seq<int>, d: seq<int>)
    requires SameLits(c, d)
    ensures LitSet(c) == LitSet(d)
  {
    assert forall l :: l in LitSet(c) <==> l in LitSet(d);
  }

  lemma KnownGrows(n: nat, db: seq<seq<int>>, a: Asg, db': seq<seq<int>>, b: Asg)
    requires TrailOk(n, a) && TrailOk(n, b) && |db| <= |db'|
    requires forall c | 0 <= c < |db| :: SameLits(db[c], db'[c])
    requires forall v | v in a.assign && a.level[v] == 0 ::
      v in b.assign && b.assign[v] == a.assign[v] && b.level[v] == 0
    ensures Known(db, a) <= Known(db', b)
  {
    forall s | s in Known(db, a) ensures s in Known(db', b) {
      if v :| v in a.assign && a.level[v] == 0 && s == {a.Lit(v)} {
        assert b.Lit(v) == a.Lit(v);
      } else {
        var c :| 0 <= c < |db| && s == LitSet(db[c]);
        SameLitSet(db[c], db'[c]);
      }
    }
  }

  lemma KnownUnit(n: nat, db: seq<seq<int>>, a: Asg, l: int)
    requires TrailOk(n, a) && |a.lim| == 0 && LitOk(n, l) && Var(l) !in a.assign
    ensures Known(db, a) + {LitSet([l])} <= Known(db, a.Push(l, None))
  {
    var b := a.Push(l, None);
    PushKeepsTrail(n, a, l, None);
    KnownGrows(n, db, a, db, b);
    assert b.Lit(Var(l)) == l && LitSet([l]) == {l};
    assert {b.Lit(Var(l))} in Known(db, b);
  }

  lemma KnownClause(n: nat, db: seq<seq<int>>, a: Asg, c: seq<int>, b: Asg)
    requires TrailOk(n, a) && TrailOk(n, b) && Extends(a, b)
    ensures Known(db, a) + {LitSet(c)} <= Known(db + [c], b)
  {
    KnownGrows(n, db, a, db + [c], b);
    assert (db + [c])[|db|] == c;
  }

  lemma DecideGrows(n: nat, db: seq<seq<int>>, a: Asg, l: int)
    requires TrailOk(n, a) && LitOk(n, l) && Var(l) !in a.assign
    ensures Known(db, a) <= Known(db, a.NewLevel().Push(l, None))
    ensures TopFrom(a.NewLevel().Push(l, None), |a.trail|)
    ensures forall q | a.True(q) :: a.NewLevel().Push(l, None).True(q)
    ensures Vars(n) - a.NewLevel().Push(l, None).assign.Keys < Vars(n) - a.assign.Keys
  {
    var b := a.NewLevel().Push(l, None);
    NewLevelKeepsTrail(n, a);
    PushKeepsTrail(n, a.NewLevel(), l, None);
    KnownGrows(n, db, a, db, b);
    var v: int := Var(l);
    assert v in Vars(n) - a.assign.Keys && v !in Vars(n) - b.assign.Keys;
  }

  lemma CutRoots(n: nat, a: Asg, lvl: nat)
    requires TrailOk(n, a) && lvl < |a.lim|
    ensures forall v | v in a.assign && a.level[v] == 0 ::
      v in a.Cut(lvl).assign && a.Cut(lvl).assign[v] == a.assign[v] && a.Cut(lvl).level[v] == 0
  {
    forall v | v in a.assign && a.level[v] == 0 ensures v in a.Cut(lvl).assign {
      assert LevelOk(a, v);
      assert a.lim[0] <= a.lim[lvl];
    }
  }

  /** Complete propagation below the conflict makes the learned clause new. */
  lemma LearntIsNew(n: nat, f: seq<seq<int>>, db: seq<seq<int>>, a: Asg, learnt: seq<int>, bj: nat)
    requires TrailOk(n, a) && DbOk(n, db) && WatchInv(db, a, a.Start()) && 0 < |a.lim|
    requires Learned(n, f, a, learnt, bj)
    ensures LitSet(learnt) !in Known(db, a)
  {
    forall c | 0 <= c < |db| ensures LitSet(db[c]) != LitSet(learnt) {
      if LitSet(db[c]) == LitSet(learnt) {
        NotAllFalseBelow(n, f, db[c], a, learnt, bj);
      }
    }
    forall v | v in a.assign && a.level[v] == 0 ensures {a.Lit(v)} != LitSet(learnt) {
      assert learnt[0] in LitSet(learnt) && a.False(learnt[0]);
    }
  }

  lemma NotAllFalseBelow(n: nat, f: seq<seq<int>>, c: seq<int>, a: Asg, learnt: seq<int>, bj: nat)
    requires TrailOk(n, a) && |c| >= 2 && DistinctVars(c) && ClauseWatched(c, a, a.Start()) && 0 < |a.lim|
    requires Learned(n, f, a, learnt, bj)
    ensures LitSet(c) != LitSet(learnt)
  {
    forall l | l in learnt ensures a.False(l) && (OnLevel(a, l) ==> l == learnt[0]) {
      var k :| 0 <= k < |learnt| && learnt[k] == l;
      assert k > 0 ==> a.level[Var(l)] < |a.lim|;
    }
    assert Var(c[0]) != Var(c[1]);
    FalseWatches(n, c, a);
    assert c[0] !in learnt || c[1] !in learnt;
    assert c[0] in LitSet(c) && c[1] in LitSet(c);
  }

  ghost predicate OnLevel(a: Asg, l: int) {
    Var(l) in a.level && a.level[Var(l)] == |a.lim|
  }

  lemma FalseWatches(n: nat, c: seq<int>, a: Asg)
    requires TrailOk(n, a) && ClauseWatched(c, a, a.Start()) && 0 < |a.lim|
    ensures a.False(c[0]) && a.False(c[1]) ==> OnLevel(a, c[0]) && OnLevel(a, c[1])
  {
    forall l | a.False(l) ensures Var(l) in a.pos && (a.pos[Var(l)] >= a.Start() ==> OnLevel(a, l)) {
      assert LevelOk(a, Var(l));
    }
  }

  // ---- decisions and assumptions ------------------------------------------------

  /** All of the first `j` assumptions were true before trail index `x`. */
  ghost predicate AllBefore(asm: seq<int>, j: nat, a: Asg, x: nat) {
    j <= |asm| && forall k | 0 <= k < j :: a.True(asm[k]) && Var(asm[k]) in a.pos && a.pos[Var(asm[k])] < x
  }

  /** The decision at trail index `x` is an assumption whose predecessors held, or
      it was made when all the assumptions held. */
  ghost predicate DecisionOk(asm: seq<int>, a: Asg, x: nat) {
    x < |a.trail| && exists j: nat :: AllBefore(asm, j, a, x) && (j < |asm| ==> a.trail[x] == asm[j])
  }

  ghost predicate DecisionsOk(asm: seq<int>, a: Asg) {
    && (forall j, k | 0 <= j < k < |a.lim| :: a.lim[j] < a.lim[k])
    && (forall i | 0 <= i < |a.lim| :: DecisionOk(asm, a, a.lim[i]))
  }

  lemma DecisionSurvives(n: nat, asm: seq<int>, a: Asg, b: Asg, x: nat)
    requires TrailOk(n, a) && DecisionOk(asm, a, x)
    requires x < |b.trail| && b.trail[x] == a.trail[x]
    requires forall v | v in a.assign && a.pos[v] < x ::
      v in b.assign && b.assign[v] == a.assign[v] && v in b.pos && b.pos[v] == a.pos[v]
    ensures DecisionOk(asm, b, x)
  {
    var j: nat :| AllBefore(asm, j, a, x) && (j < |asm| ==> a.trail[x] == asm[j]);
    assert AllBefore(asm, j, b, x);
  }

  lemma ExtendDecisions(n: nat, asm: seq<int>, a: Asg, b: Asg)
    requires TrailOk(n, a) && TrailOk(n, b) && DecisionsOk(asm, a) && Extends(a, b)
    ensures DecisionsOk(asm, b)
  {
    forall i | 0 <= i < |b.lim| ensures DecisionOk(asm, b, b.lim[i]) {
      assert DecisionOk(asm, a, a.lim[i]);
      assert b.trail[a.lim[i]] == b.trail[..|a.trail|][a.lim[i]];
      DecisionSurvives(n, asm, a, b, a.lim[i]);
    }
  }

  lemma CutDecisions(n: nat, asm: seq<int>, a: Asg, lvl: nat)
    requires TrailOk(n, a) && DecisionsOk(asm, a) && lvl < |a.lim|
    ensures DecisionsOk(asm, a.Cut(lvl))
  {
    var b := a.Cut(lvl);
    forall i | 0 <= i < |b.lim| ensures DecisionOk(asm, b, b.lim[i]) {
      assert DecisionOk(asm, a, a.lim[i]);
      DecisionSurvives(n, asm, a, b, a.lim[i]);
    }
  }

  lemma DecideDecisions(n: nat, asm: seq<int>, a: Asg, l: int, j: nat)
    requires TrailOk(n, a) && DecisionsOk(asm, a) && LitOk(n, l) && Var(l) !in a.assign
    requires j <= |asm| && (forall k | 0 <= k < j :: a.True(asm[k])) && (j < |asm| ==> l == asm[j])
    ensures DecisionsOk(asm, a.NewLevel().Push(l, None))
  {
    var b := a.NewLevel().Push(l, None);
    forall i | 0 <= i < |b.lim| ensures DecisionOk(asm, b, b.lim[i]) {
      if i < |a.lim| {
        assert DecisionOk(asm, a, a.lim[i]);
        DecisionSurvives(n, asm, a, b, a.lim[i]);
      } else {
        assert AllBefore(asm, j, b, |a.trail|);
      }
    }
  }

  /** While some assumption among the first `ui` is false, every decision on the
      trail is one of those assumptions. */
  lemma DecisionsAssumed(n: nat, db: seq<seq<int>>, asm: seq<int>, a: Asg, ui: nat)
    requires TrailOk(n, a) && ReasonsOk(db, a) && DecisionsOk(asm, a)
    requires 0 < ui <= |asm| && a.False(asm[ui - 1]) && LitOk(n, asm[ui - 1])
    ensures Assumed(asm[..ui], a)
  {
    forall v | v in a.assign && v !in a.reason && v in a.level && a.level[v] > 0 ensures a.Lit(v) in asm[..ui] {
      var x := a.lim[a.level[v] - 1];
      assert a.pos[v] == x && DecisionOk(asm, a, x);
      var j: nat :| AllBefore(asm, j, a, x) && (j < |asm| ==> a.trail[x] == asm[j]);
      assert a.True(a.trail[x]) && a.Lit(v) == a.trail[x];
      assert j < ui;
      assert asm[..ui][j] == asm[j];
    }
  }

  ghost predicate Assumed(asm: seq<int>, a: Asg) {
    forall v | v in a.assign && v !in a.reason && v in a.level && a.level[v] > 0 :: a.Lit(v) in asm
  }

  // ---- verdicts -------------------------------------------------------------------

  lemma RootConflict(n: nat, f: seq<seq<int>>, db: seq<seq<int>>, a: Asg, empty: bool, c: nat)
    requires TrailOk(n, a) && Means(f, db, a, empty) && |a.lim| == 0
    requires c < |db| && ClauseOk(n, db[c]) && AllFalse(db[c], a)
    ensures Refutes(f, [])
  {
    forall m: Model ensures !HoldsAll(m, f) {
      if RootHolds(m, a) {
        RootFalse(n, m, a, db[c]);
      }
    }
  }

  lemma RootFalse(n: nat, m: Model, a: Asg, c: seq<int>)
    requires TrailOk(n, a) && |a.lim| == 0 && ClauseOk(n, c) && AllFalse(c, a) && RootHolds(m, a)
    ensures !HoldsClause(m, c)
  {
    forall q | q in c ensures !HoldsLit(m, q) {
      assert LitOk(n, q) && a.False(q) && LevelOk(a, Var(q));
      assert HoldsLit(m, a.Lit(Var(q)));
    }
  }

  ghost function TrueVars(a: Asg): Model {
    set v | v in a.assign && a.assign[v]
  }

  /** Every variable assigned, every watch visited, no conflict: a model. */
  lemma CompleteModel(n: nat, f: seq<seq<int>>, db: seq<seq<int>>, a: Asg)
    requires TrailOk(n, a) && DbOk(n, db) && Means(f, db, a, false) && WatchInv(db, a, |a.trail|)
    requires forall v | 1 <= v <= n :: v in a.assign
    ensures HoldsAll(TrueVars(a), f)
  {
    var m := TrueVars(a);
    forall c | 0 <= c < |db| ensures HoldsClause(m, db[c]) {
      TrueWatch(n, db[c], a);
      var q :| q in db[c] && a.True(q);
      assert LitOk(n, q) && HoldsLit(m, q);
    }
  }

  lemma TrueWatch(n: nat, c: seq<int>, a: Asg)
    requires TrailOk(n, a) && ClauseOk(n, c) && ClauseWatched(c, a, |a.trail|)
    requires forall v | 1 <= v <= n :: v in a.assign
    ensures exists q :: q in c && a.True(q)
  {
    assert c[0] in c && c[1] in c && LitOk(n, c[0]) && LitOk(n, c[1]);
    assert a.True(c[0]) || a.False(c[0]);
    assert a.True(c[0]) || a.True(c[1]);
  }

  // ---- assumption cores -------------------------------------------------------------

  /** Variable `v` has been worked off: an assumption's own decision is in the
      core, an implied literal's antecedent has been followed. */
  ghost predicate Traced(db: seq<seq<int>>, a: Asg, seen: set<int>, core: set<int>, v: int) {
    && v in a.assign && v in a.level
    && (v !in a.reason && a.level[v] > 0 ==> a.Lit(v) in core)
    && (v in a.reason ==> a.reason[v] < |db| && Followed(db[a.reason[v]], a, seen))
  }

  ghost predicate Followed(c: seq<int>, a: Asg, seen: set<int>) {
    forall q | q in c :: Var(q) in a.level && (a.level[Var(q)] > 0 ==> Var(q) in seen)
  }

  /** The antecedent of `v` mentions `u`, which is above the root. */
  ghost predicate Leads(db: seq<seq<int>>, a: Asg, v: int, u: int) {
    && v in a.reason && a.reason[v] < |db| && u in a.level && a.level[u] > 0
    && exists q :: q in db[a.reason[v]] && Var(q) == u
  }

  ghost predicate LeadingPath(db: seq<seq<int>>, a: Asg, path: seq<int>) {
    path != [] && forall k | 0 <= k < |path| - 1 :: Leads(db, a, path[k], path[k + 1])
  }

  /** Antecedents lead from `v` to `u`. */
  ghost predicate Reached(db: seq<seq<int>>, a: Asg, v: int, u: int) {
    exists path :: LeadingPath(db, a, path) && path[0] == v && path[|path| - 1] == u
  }

  /** The core of a failed assumption: itself, and the assumptions decided on from which it follows. */
  ghost predicate CoreFrom(db: seq<seq<int>>, a: Asg, failed: int, assumed: seq<int>, core: seq<int>) {
    forall l :: l in core <==>
      l in assumed && (l == failed || (Var(l) !in a.reason && Reached(db, a, Var(failed), Var(l))))
  }

  /** No core at a conflict at the root; else that of the first assumption that the others falsify. */
  ghost predicate CoreOf(db: seq<seq<int>>, a: Asg, assumptions: seq<int>, core: seq<int>) {
    core == [] || exists i :: FailedAt(db, a, assumptions, core, i)
  }

  ghost predicate FailedAt(db: seq<seq<int>>, a: Asg, assumptions: seq<int>, core: seq<int>, i: int) {
    && 0 <= i < |assumptions| && a.False(assumptions[i]) && (forall k | 0 <= k < i :: a.True(assumptions[k]))
    && CoreFrom(db, a, assumptions[i], assumptions[..i + 1], core)
  }

  lemma NoCore(db: seq<seq<int>>, a: Asg, assumptions: seq<int>)
    ensures CoreOf(db, a, assumptions, [])
  {
  }

  lemma ReachedSelf(db: seq<seq<int>>, a: Asg, v: int)
    ensures Reached(db, a, v, v)
  {
    assert LeadingPath(db, a, [v]) && [v][0] == v;
  }

  lemma ReachedNext(db: seq<seq<int>>, a: Asg, v: int, u: int, x: int)
    requires Reached(db, a, v, u) && Leads(db, a, u, x)
    ensures Reached(db, a, v, x)
  {
    hide Leads;
    var path :| LeadingPath(db, a, path) && path[0] == v && path[|path| - 1] == u;
    var longer := path + [x];
    forall k | 0 <= k < |longer| - 1 ensures Leads(db, a, longer[k], longer[k + 1]) {
      if k + 1 < |path| { assert longer[k] == path[k] && longer[k + 1] == path[k + 1]; }
    }
    assert LeadingPath(db, a, longer) && longer[0] == v && longer[|longer| - 1] == x;
  }

  /** Tracing everything traced comes to all that antecedents lead to. */
  lemma {:induction false} PathTraced(db: seq<seq<int>>, a: Asg, seen: set<int>, core: set<int>, path: seq<int>)
    requires LeadingPath(db, a, path) && path[0] in seen && forall u | u in seen :: Traced(db, a, seen, core, u)
    ensures path[|path| - 1] in seen
    decreases |path|
  {
    if |path| > 1 {
      assert Leads(db, a, path[0], path[1]) && Traced(db, a, seen, core, path[0]);
      var q :| q in db[a.reason[path[0]]] && Var(q) == path[1];
      var rest := path[1..];
      forall k | 0 <= k < |rest| - 1 ensures Leads(db, a, rest[k], rest[k + 1]) {
        assert rest[k] == path[k + 1] && rest[k + 1] == path[k + 1 + 1];
      }
      PathTraced(db, a, seen, core, rest);
    }
  }

  lemma CoreExact(db: seq<seq<int>>, a: Asg, seen: set<int>, kept: set<int>, failed: int, assumed: seq<int>,
      core: seq<int>)
    requires (forall u | u in seen :: Traced(db, a, seen, kept, u)) && Var(failed) in seen && failed in kept
    requires forall u | u in seen :: Reached(db, a, Var(failed), u)
    requires forall u, l | u in seen && u !in a.reason && l in assumed && Var(l) == u :: l in kept
    requires forall l | l in kept :: l == failed || (Var(l) in seen && Var(l) !in a.reason)
    requires forall l :: l in core <==> l in assumed && l in kept
    ensures CoreFrom(db, a, failed, assumed, core)
  {
    hide Traced;
    forall l | l in assumed && Var(l) !in a.reason && Reached(db, a, Var(failed), Var(l)) ensures l in core {
      var path :| LeadingPath(db, a, path) && path[0] == Var(failed) && path[|path| - 1] == Var(l);
      PathTraced(db, a, seen, kept, path);
    }
  }

  /** Whatever was traced back is implied by the formula and the core. */
  lemma {:induction false} CoreImplies(n: nat, f: seq<seq<int>>, db: seq<seq<int>>, a: Asg, empty: bool,
                                       seen: set<int>, core: set<int>, m: Model, v: int)
    requires TrailOk(n, a) && ReasonsOk(db, a) && Means(f, db, a, empty) && DbOk(n, db)
    requires forall u | u in seen :: Traced(db, a, seen, core, u)
    requires HoldsAll(m, f) && (forall l | l in core :: HoldsLit(m, l))
    requires v in seen && v in a.assign && v in a.pos
    ensures HoldsLit(m, a.Lit(v))
    decreases a.pos[v]
  {
    assert Traced(db, a, seen, core, v);
    if v in a.reason {
      var c := db[a.reason[v]];
      assert Forces(c, a, v) && ClauseOk(n, c);
      forall q | q in c && q != a.Lit(v) ensures !HoldsLit(m, q) {
        assert a.False(q) && LitOk(n, q) && Earlier(a, Var(q), v);
        if a.level[Var(q)] > 0 {
          CoreImplies(n, f, db, a, empty, seen, core, m, Var(q));
        }
        assert HoldsLit(m, a.Lit(Var(q)));
      }
      assert HoldsClause(m, c);
    }
  }

  lemma CoreRefutes(n: nat, f: seq<seq<int>>, db: seq<seq<int>>, a: Asg, empty: bool,
                    seen: set<int>, core: set<int>, failed: int, lits: seq<int>)
    requires TrailOk(n, a) && ReasonsOk(db, a) && Means(f, db, a, empty) && DbOk(n, db)
    requires forall u | u in seen :: Traced(db, a, seen, core, u)
    requires LitOk(n, failed) && a.False(failed) && Var(failed) in seen && failed in core
    requires forall l :: l in lits <==> l in core
    ensures Refutes(f, lits)
  {
    assert a.Lit(Var(failed)) == -failed;
    forall m: Model | HoldsAll(m, f) ensures !HoldsLits(m, lits) {
      if forall l | l in core && l != failed :: HoldsLit(m, l) {
        if HoldsLit(m, failed) {
          CoreImplies(n, f, db, a, empty, seen, core, m, Var(failed));
        }
      }
    }
  }

  lemma TraceStart(n: nat, a: Asg, l: int)
    requires TrailOk(n, a) && a.False(l)
    ensures Var(l) in a.assign && Var(l) in a.level
  {
  }

  lemma TraceFacts(n: nat, db: seq<seq<int>>, a: Asg, v: int)
    requires TrailOk(n, a) && ReasonsOk(db, a) && v in a.assign
    ensures v in a.level
    ensures v in a.reason ==> a.reason[v] < |db| && InTables(db[a.reason[v]], a)
  {
    if v in a.reason {
      assert Forces(db[a.reason[v]], a, v);
      forall q | q in db[a.reason[v]] ensures Var(q) in a.assign && Var(q) in a.level {
        if q == a.Lit(v) { assert Var(a.trail[a.pos[v]]) == v && LitOk(n, a.trail[a.pos[v]]); }
      }
    }
  }

  ghost predicate InTables(c: seq<int>, a: Asg) {
    forall q | q in c :: Var(q) in a.assign && Var(q) in a.level
  }

  lemma TraceDecision(n: nat, a: Asg, assumed: seq<int>, kept: set<int>, v: int)
    requires TrailOk(n, a) && Assumed(assumed, a) && v in a.assign && v !in a.reason
    requires forall l | l in assumed && Var(l) == v :: l in kept
    ensures a.level[v] > 0 ==> a.Lit(v) in kept
  {
    assert Var(a.trail[a.pos[v]]) == v && LitOk(n, a.trail[a.pos[v]]);
    assert Var(a.Lit(v)) == v;
  }

  lemma TracedNow(db: seq<seq<int>>, a: Asg, traced: set<int>, kept: set<int>, v: int)
    requires v in a.assign && v in a.level
    requires v !in a.reason && a.level[v] > 0 ==> a.Lit(v) in kept
    requires v in a.reason ==> a.reason[v] < |db| && Followed(db[a.reason[v]], a, traced)
    ensures Traced(db, a, traced, kept, v)
  {
  }

  lemma TracedGrows(db: seq<seq<int>>, a: Asg, traced: set<int>, kept: set<int>, traced': set<int>, kept': set<int>,
      v: int)
    requires Traced(db, a, traced, kept, v) && traced <= traced' && kept <= kept'
    ensures Traced(db, a, traced', kept', v)
  {
  }

  lemma MoreRefutes(f: seq<seq<int>>, some: seq<int>, more: seq<int>)
    requires Refutes(f, some) && forall l | l in some :: l in more
    ensures Refutes(f, more)
  {
  }

  /** At the root nothing has been visited and nothing decided. */
  lemma RootStart(n: nat, db: seq<seq<int>>, a: Asg, asm: seq<int>)
    requires TrailOk(n, a) && DbOk(n, db) && |a.lim| == 0
    ensures WatchInv(db, a, 0) && TopFrom(a, 0) && DecisionsOk(asm, a)
  {
    forall c | 0 <= c < |db| ensures ClauseWatched(db[c], a, 0) {
      assert |db[c]| >= 2;
    }
    forall i | 0 <= i < |a.trail| ensures Var(a.trail[i]) in a.level && a.level[Var(a.trail[i])] == 0 {
      assert a.True(a.trail[i]) && LevelOk(a, Var(a.trail[i]));
    }
  }

  /** Propagation only adds to what is known. */
  lemma PropagateKeeps(n: nat, db: seq<seq<int>>, a: Asg, db': seq<seq<int>>, b: Asg, asm: seq<int>)
    requires TrailOk(n, a) && TrailOk(n, b) && SameDb(db, db') && Extends(a, b) && DecisionsOk(asm, a)
    requires DbOk(n, db')
    ensures DecisionsOk(asm, b) && Known(db, a) <= Known(db', b) <= AllClauses(n)
    ensures Vars(n) - b.assign.Keys <= Vars(n) - a.assign.Keys
    ensures forall q | a.True(q) :: b.True(q)
  {
    ExtendDecisions(n, asm, a, b);
    KnownGrows(n, db, a, db', b);
    KnownBounded(n, db', b);
    FewerUnassigned(n, a, b);
  }

  lemma FewerUnknown(known: set<set<int>>, more: set<set<int>>, all: set<set<int>>)
    requires known < more <= all
    ensures all - more < all - known
  {
    var c := PickBeyond(more, known);
    assert c in all - known && c !in all - more;
  }

  lemma FewerLeft(some: set<int>, more: set<int>, all: set<int>)
    requires some < more && forall u | u in more - some :: u in all
    ensures all - more < all - some
  {
    var c := PickBeyond(more, some);
    assert c in all - some && c !in all - more;
  }

  lemma AssumptionsHold(n: nat, a: Asg, asm: seq<int>)
    requires TrailOk(n, a) && ClauseOk(n, asm) && forall k | 0 <= k < |asm| :: a.True(asm[k])
    ensures HoldsLits(TrueVars(a), asm)
  {
    forall l | l in asm ensures HoldsLit(TrueVars(a), l) {
      var k :| 0 <= k < |asm| && asm[k] == l;
      assert LitOk(n, l);
    }
  }
}

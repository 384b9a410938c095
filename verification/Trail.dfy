/** The solver's partial assignment and clause table as values, and the
    invariants that link them. `Cdcl.Solver` keeps these in mutable fields; every
    step of it is one of the functions below. */
module Trail {
  import opened Sat

  datatype Option<T> = None | Some(value: T)

  /** `pos` is a proof aid: where each assigned variable stands on the trail. */
  datatype Asg = Asg(
    trail: seq<int>, lim: seq<nat>,
    assign: map<int, bool>, level: map<int, nat>, reason: map<int, nat>,
    pos: map<int, nat>)
  {
    ghost predicate True(l: int) {
      Var(l) in assign && assign[Var(l)] == (l > 0)
    }

    ghost predicate False(l: int) {
      Var(l) in assign && assign[Var(l)] == (l < 0)
    }

    /** The assigned literal of variable `v`. */
    ghost function Lit(v: int): int
      requires v in assign
    {
      if assign[v] then v else -v
    }

    /** Where the current decision level starts. */
    ghost function Start(): nat {
      if |lim| == 0 then 0 else lim[|lim| - 1]
    }

    /** trail.append(l) at the current decision level. */
    ghost function Push(l: int, r: Option<nat>): Asg {
      Asg(trail + [l], lim, assign[Var(l) := l > 0], level[Var(l) := |lim|],
          if r.Some? then reason[Var(l) := r.value] else reason,
          pos[Var(l) := |trail|])
    }

    ghost function NewLevel(): Asg {
      this.(lim := lim + [|trail|])
    }

    /** The variables at trail index `k` or later. */
    ghost function From(k: nat): set<int>
      requires forall v | v in assign :: v in pos
    {
      set v | v in assign && pos[v] >= k
    }

    /** Forget everything from trail index `lim[lvl]` on. */
    ghost function Cut(lvl: nat): Asg
      requires lvl < |lim| && lim[lvl] <= |trail|
      requires forall v | v in assign :: v in pos
    {
      var gone := From(lim[lvl]);
      Asg(trail[..lim[lvl]], lim[..lvl], assign - gone, level - gone, reason - gone, pos - gone)
    }
  }

  /** Every clause has at least two literals, over different variables. */
  ghost predicate DbOk(n: nat, db: seq<seq<int>>) {
    forall c | 0 <= c < |db| ::
      |db[c]| >= 2 && ClauseOk(n, db[c]) && DistinctVars(db[c])
  }

  ghost predicate DistinctVars(c: seq<int>) {
    forall j, k | 0 <= j < k < |c| :: Var(c[j]) != Var(c[k])
  }

  /** The trail, the three per-variable tables and the level marks agree. */
  ghost predicate TrailOk(n: nat, a: Asg) {
    && (forall i | 0 <= i < |a.trail| ::
         && LitOk(n, a.trail[i]) && a.True(a.trail[i])
         && Var(a.trail[i]) in a.pos && a.pos[Var(a.trail[i])] == i)
    && (forall v | v in a.assign ::
         && v in a.pos && v in a.level
         && a.pos[v] < |a.trail| && Var(a.trail[a.pos[v]]) == v)
    && (forall k | 0 <= k < |a.lim| :: a.lim[k] <= |a.trail|)
    && (forall j, k | 0 <= j < k < |a.lim| :: a.lim[j] <= a.lim[k])
    && (forall v | v in a.assign :: LevelOk(a, v))
  }

  /** `level[v]` is the number of level marks at or before v's trail index. */
  ghost predicate LevelOk(a: Asg, v: int)
    requires v in a.level && v in a.pos
  {
    && a.level[v] <= |a.lim|
    && (a.level[v] > 0 ==> a.lim[a.level[v] - 1] <= a.pos[v])
    && (a.level[v] < |a.lim| ==> a.pos[v] < a.lim[a.level[v]])
  }

  /** The antecedent of an implied literal forces it: the other literals were
      false first. A literal above level 0 with no antecedent is the decision
      that opened its level. */
  ghost predicate ReasonsOk(db: seq<seq<int>>, a: Asg) {
    && (forall v | v in a.reason :: v in a.assign)
    && (forall v | v in a.assign && v in a.reason ::
         a.reason[v] < |db| && Forces(db[a.reason[v]], a, v))
    && (forall v | v in a.assign && v !in a.reason && v in a.level && a.level[v] > 0 ::
         v in a.pos && a.level[v] <= |a.lim| && a.pos[v] == a.lim[a.level[v] - 1])
  }

  ghost predicate Forces(c: seq<int>, a: Asg, v: int)
    requires v in a.assign
  {
    && a.Lit(v) in c
    && forall q | q in c && q != a.Lit(v) :: a.False(q) && Earlier(a, Var(q), v)
  }

  ghost predicate Earlier(a: Asg, u: int, v: int) {
    u in a.pos && v in a.pos && a.pos[u] < a.pos[v]
  }

  /** The two-watched-literal invariant for the trail below `limit`: a watch that
      has been false for long enough to be visited is excused only by the other
      watch being true, at no higher a level. */
  ghost predicate WatchInv(db: seq<seq<int>>, a: Asg, limit: nat) {
    forall c | 0 <= c < |db| :: ClauseWatched(db[c], a, limit)
  }

  ghost predicate ClauseWatched(c: seq<int>, a: Asg, limit: nat) {
    |c| >= 2 && Excused(a, c[0], c[1], limit) && Excused(a, c[1], c[0], limit)
  }

  ghost predicate Excused(a: Asg, w: int, other: int, limit: nat) {
    a.False(w) && Var(w) in a.pos && a.pos[Var(w)] < limit ==>
      && a.True(other)
      && Var(w) in a.level && Var(other) in a.level
      && a.level[Var(other)] <= a.level[Var(w)]
  }

  /** The clause table plus the root literals mean exactly the added formula. */
  ghost predicate RootHolds(m: Model, a: Asg) {
    forall v | v in a.assign && v in a.level && a.level[v] == 0 :: HoldsLit(m, a.Lit(v))
  }

  ghost predicate Means(f: seq<seq<int>>, db: seq<seq<int>>, a: Asg, empty: bool) {
    forall m: Model ::
      && (HoldsAll(m, f) ==> !empty && HoldsAll(m, db) && RootHolds(m, a))
      && (!empty && HoldsAll(m, db) && RootHolds(m, a) ==> HoldsAll(m, f))
  }

  /** watches[p] lists, once each, the clauses that watch -p. */
  ghost predicate WatchesOk(n: nat, db: seq<seq<int>>, watches: map<int, seq<nat>>) {
    && (forall p | LitOk(n, p) :: p in watches && ListOk(db, watches[p], p))
    && (forall c | 0 <= c < |db| :: Listed(db[c], c, watches))
  }

  ghost predicate Listed(lits: seq<int>, c: nat, watches: map<int, seq<nat>>) {
    && |lits| >= 2
    && -lits[0] in watches && c in watches[-lits[0]]
    && -lits[1] in watches && c in watches[-lits[1]]
  }

  ghost predicate ListOk(db: seq<seq<int>>, ws: seq<nat>, p: int) {
    && (forall k | 0 <= k < |ws| :: ws[k] < |db| && Watching(db[ws[k]], p))
    && (forall j, k | 0 <= j < k < |ws| :: ws[j] != ws[k])
  }

  /** All of the clause but `l` is false. */
  ghost predicate Unit(c: seq<int>, a: Asg, l: int) {
    l in c && forall q | q in c && q != l :: a.False(q)
  }

  ghost predicate AllFalse(c: seq<int>, a: Asg) {
    forall q | q in c :: a.False(q)
  }

  lemma UnitFalse(c: seq<int>, a: Asg)
    requires |c| > 0 && Unit(c, a, c[0]) && a.False(c[0])
    ensures AllFalse(c, a)
  {
  }

  ghost predicate Watching(lits: seq<int>, p: int) {
    |lits| >= 2 && (lits[0] == -p || lits[1] == -p)
  }

  /** `b` is `a` with more literals assigned, all at the current level. */
  ghost predicate Extends(a: Asg, b: Asg) {
    && b.lim == a.lim && |a.trail| <= |b.trail| && b.trail[..|a.trail|] == a.trail
    && (forall v | v in a.assign && v in a.level && v in a.pos ::
         && v in b.assign && b.assign[v] == a.assign[v]
         && v in b.level && b.level[v] == a.level[v] && v in b.pos && b.pos[v] == a.pos[v])
    && (forall v | v in b.assign && v !in a.assign && v in b.level :: b.level[v] == |b.lim|)
  }

  lemma ExtendsSelf(n: nat, a: Asg)
    ensures Extends(a, a)
  {
  }

  lemma ExtendsTrans(n: nat, a: Asg, b: Asg, c: Asg)
    requires TrailOk(n, a) && TrailOk(n, b) && TrailOk(n, c) && Extends(a, b) && Extends(b, c)
    ensures Extends(a, c)
  {
  }

  lemma PushExtends(n: nat, a: Asg, l: int, r: Option<nat>)
    requires TrailOk(n, a) && LitOk(n, l) && Var(l) !in a.assign
    ensures Extends(a, a.Push(l, r))
  {
  }

  /** The literals from trail index `k` on are at the current level. */
  ghost predicate TopFrom(a: Asg, k: nat) {
    forall i | k <= i < |a.trail| :: Var(a.trail[i]) in a.level && a.level[Var(a.trail[i])] == |a.lim|
  }

  lemma TopFromEnd(a: Asg)
    ensures TopFrom(a, |a.trail|)
  {
  }

  lemma ExtendsTop(n: nat, a: Asg, b: Asg, k: nat)
    requires TrailOk(n, a) && TrailOk(n, b) && Extends(a, b) && TopFrom(a, k)
    ensures TopFrom(b, k) && TopFrom(b, k + 1)
  {
    forall i | k <= i < |b.trail| ensures b.level[Var(b.trail[i])] == |b.lim| {
      if i < |a.trail| {
        assert b.trail[i] == b.trail[..|a.trail|][i] == a.trail[i];
        assert a.True(a.trail[i]);
      } else {
        var v := Var(b.trail[i]);
        assert b.True(b.trail[i]) && b.pos[v] == i;
        assert forall u | u in a.assign :: a.pos[u] < |a.trail|;
      }
    }
  }

  // ---- what each step keeps ------------------------------------------------

  lemma PushKeepsTrail(n: nat, a: Asg, l: int, r: Option<nat>)
    requires TrailOk(n, a)
    requires LitOk(n, l) && Var(l) !in a.assign
    ensures TrailOk(n, a.Push(l, r))
  {
    var b := a.Push(l, r);
    forall i | 0 <= i < |b.trail|
      ensures LitOk(n, b.trail[i]) && b.True(b.trail[i])
      ensures Var(b.trail[i]) in b.pos && b.pos[Var(b.trail[i])] == i
    {
      if i < |a.trail| {
        assert b.trail[i] == a.trail[i] && a.True(a.trail[i]);
      }
    }
    forall v | v in b.assign ensures b.pos[v] < |b.trail| && Var(b.trail[b.pos[v]]) == v && LevelOk(b, v) {
      if v != Var(l) {
        assert LevelOk(a, v);
      }
    }
  }

  lemma PushKeepsReasons(n: nat, db: seq<seq<int>>, a: Asg, l: int, r: Option<nat>)
    requires TrailOk(n, a) && ReasonsOk(db, a)
    requires LitOk(n, l) && Var(l) !in a.assign
    requires r.Some? ==> r.value < |db| && Unit(db[r.value], a, l)
    requires r.None? ==> |a.lim| == 0 || a.lim[|a.lim| - 1] == |a.trail|
    ensures ReasonsOk(db, a.Push(l, r))
  {
    var b := a.Push(l, r);
    assert Var(l) !in a.reason;
    forall v | v in b.assign && v in b.reason
      ensures b.reason[v] < |db| && Forces(db[b.reason[v]], b, v)
    {
      if v == Var(l) {
        assert b.Lit(v) == l;
      } else {
        ForcesPush(n, db[a.reason[v]], a, v, l, r);
      }
    }
  }

  lemma ForcesPush(n: nat, c: seq<int>, a: Asg, v: int, l: int, r: Option<nat>)
    requires TrailOk(n, a) && v in a.assign && Forces(c, a, v)
    requires LitOk(n, l) && Var(l) !in a.assign
    ensures Forces(c, a.Push(l, r), v)
  {
  }

  lemma PushKeepsWatch(n: nat, db: seq<seq<int>>, a: Asg, l: int, r: Option<nat>, limit: nat)
    requires TrailOk(n, a) && WatchInv(db, a, limit) && limit <= |a.trail|
    requires LitOk(n, l) && Var(l) !in a.assign
    ensures WatchInv(db, a.Push(l, r), limit)
  {
    forall c | 0 <= c < |db| ensures ClauseWatched(db[c], a.Push(l, r), limit) {
      PushKeepsClause(n, db[c], a, l, r, limit);
    }
  }

  lemma PushKeepsClause(n: nat, c: seq<int>, a: Asg, l: int, r: Option<nat>, limit: nat)
    requires TrailOk(n, a) && ClauseWatched(c, a, limit) && limit <= |a.trail|
    requires LitOk(n, l) && Var(l) !in a.assign
    ensures ClauseWatched(c, a.Push(l, r), limit)
  {
  }

  lemma NewLevelKeepsTrail(n: nat, a: Asg)
    requires TrailOk(n, a)
    ensures TrailOk(n, a.NewLevel())
  {
    var b := a.NewLevel();
    forall i | 0 <= i < |b.trail| ensures LitOk(n, b.trail[i]) && b.True(b.trail[i]) {
      assert a.True(a.trail[i]);
    }
    forall v | v in b.assign ensures LevelOk(b, v) {
      assert LevelOk(a, v);
    }
  }

  lemma NewLevelKeepsReasons(db: seq<seq<int>>, a: Asg)
    requires ReasonsOk(db, a)
    ensures ReasonsOk(db, a.NewLevel())
  {
    var b := a.NewLevel();
    forall v | v in b.assign && v in b.reason ensures Forces(db[b.reason[v]], b, v) {
      assert Forces(db[a.reason[v]], a, v);
    }
  }

  lemma NewLevelKeepsWatch(db: seq<seq<int>>, a: Asg, limit: nat)
    requires WatchInv(db, a, limit)
    ensures WatchInv(db, a.NewLevel(), limit)
  {
    forall c | 0 <= c < |db| ensures ClauseWatched(db[c], a.NewLevel(), limit) {
      assert ClauseWatched(db[c], a, limit);
    }
  }

  lemma FromSteps(n: nat, a: Asg)
    requires TrailOk(n, a)
    ensures forall k | 0 <= k < |a.lim| :: a.lim[k] <= |a.trail|
    ensures forall v | v in a.assign :: v in a.pos
    ensures a.From(|a.trail|) == {}
    ensures forall i: nat | i < |a.trail| :: a.From(i) == a.From(i + 1) + {Var(a.trail[i])}
  {
    forall i: nat | i < |a.trail| ensures a.From(i) == a.From(i + 1) + {Var(a.trail[i])} {
      assert a.True(a.trail[i]);
      forall v | v in a.From(i) ensures v in a.From(i + 1) + {Var(a.trail[i])} {
        assert Var(a.trail[a.pos[v]]) == v;
      }
    }
    assert forall v | v in a.assign :: a.pos[v] < |a.trail|;
  }

  lemma CutKeepsTrail(n: nat, a: Asg, lvl: nat)
    requires TrailOk(n, a) && lvl < |a.lim|
    ensures TrailOk(n, a.Cut(lvl))
  {
    var b := a.Cut(lvl);
    forall v | v in b.assign ensures LevelOk(b, v) {
      assert LevelOk(a, v);
    }
  }

  lemma CutKeepsReasons(n: nat, db: seq<seq<int>>, a: Asg, lvl: nat)
    requires TrailOk(n, a) && ReasonsOk(db, a) && lvl < |a.lim|
    ensures ReasonsOk(db, a.Cut(lvl))
  {
    var b := a.Cut(lvl);
    forall v | v in b.assign && v in b.reason ensures Forces(db[b.reason[v]], b, v) {
      assert Forces(db[a.reason[v]], a, v);
    }
    forall v | v in b.assign && v !in b.reason && b.level[v] > 0
      ensures b.level[v] <= |b.lim| && b.pos[v] == b.lim[b.level[v] - 1]
    {
      assert LevelOk(a, v);
    }
  }

  /** Backtracking to `lvl` keeps the watch invariant for all of the shorter
      trail, as long as it held up to there. */
  lemma CutKeepsWatch(n: nat, db: seq<seq<int>>, a: Asg, lvl: nat, limit: nat)
    requires TrailOk(n, a) && WatchInv(db, a, limit) && lvl < |a.lim| && limit >= a.lim[lvl]
    ensures WatchInv(db, a.Cut(lvl), |a.Cut(lvl).trail|)
  {
    var b := a.Cut(lvl);
    forall c | 0 <= c < |db| ensures ClauseWatched(db[c], b, |b.trail|) {
      assert ClauseWatched(db[c], a, limit);
      CutKeepsExcuse(n, a, lvl, limit, db[c][0], db[c][1]);
      CutKeepsExcuse(n, a, lvl, limit, db[c][1], db[c][0]);
    }
  }

  lemma CutKeepsExcuse(n: nat, a: Asg, lvl: nat, limit: nat, w: int, other: int)
    requires TrailOk(n, a) && Excused(a, w, other, limit) && lvl < |a.lim| && limit >= a.lim[lvl]
    ensures Excused(a.Cut(lvl), w, other, |a.Cut(lvl).trail|)
  {
    var b := a.Cut(lvl);
    if b.False(w) {
      assert LevelOk(a, Var(w)) && LevelOk(a, Var(other));
    }
  }

  /** A longer trail leaves fewer variables unassigned. */
  lemma FewerUnassigned(n: nat, a: Asg, b: Asg)
    requires TrailOk(n, a) && TrailOk(n, b) && Extends(a, b)
    ensures Vars(n) - b.assign.Keys <= Vars(n) - a.assign.Keys
    ensures |b.trail| > |a.trail| ==> Vars(n) - b.assign.Keys < Vars(n) - a.assign.Keys
  {
    if |b.trail| > |a.trail| {
      var v := Var(b.trail[|a.trail|]);
      assert b.True(b.trail[|a.trail|]) && b.pos[v] == |a.trail|;
      assert v !in a.assign by { assert forall u | u in a.assign :: a.pos[u] < |a.trail|; }
      assert v in Vars(n) - a.assign.Keys && v !in Vars(n) - b.assign.Keys;
    }
  }

  /** A conflict met at trail index `q` of the current level leaves the lower
      levels completely propagated. */
  lemma ConflictOnTop(n: nat, db: seq<seq<int>>, a: Asg, b: Asg, p: int, q: nat)
    requires TrailOk(n, a) && TrailOk(n, b) && Extends(a, b) && WatchInv(db, b, q)
    requires q < |a.trail| && a.trail[q] == p && TopFrom(a, q)
    ensures WatchInv(db, b, b.Start()) && Var(-p) in b.level && b.level[Var(-p)] == |b.lim|
  {
    assert a.True(p) && LevelOk(a, Var(p));
    assert b.Start() <= q;
    forall c | 0 <= c < |db| ensures ClauseWatched(db[c], b, b.Start()) {
      assert ClauseWatched(db[c], b, q);
    }
  }
}

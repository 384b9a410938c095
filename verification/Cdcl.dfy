/** The conflict-driven clause-learning solver. */
module Cdcl {
  import opened Sets
  import opened Sat
  import opened Trail
  import opened WatchLists
  import opened Learning
  import opened Search
  import opened Formula

  predicate CoreAssumed(core: seq<int>, assumptions: seq<int>) {
    forall l | l in core :: l in assumptions
  }

  class Solver {
    var nVars: nat
    var db: seq<seq<int>>             // original and learned clauses; a clause is its index
    var watches: map<int, seq<nat>>   // watches[p]: the clauses whose watch -p dies when p turns true
    var assign: map<int, bool>        // absent: unassigned
    var level: map<int, nat>
    var reason: map<int, nat>         // absent: no antecedent
    var trail: seq<int>
    var trailLim: seq<nat>
    var qhead: nat
    var seen: set<int>
    var conflictCore: seq<int>
    var empty: bool
    var trueLit: int                  // the encoder's constant-true literal; 0: not yet made
    ghost var pos: map<int, nat>
    ghost var formula: seq<seq<int>>  // every clause passed to AddClause, in order

    ghost function A(): Asg
      reads this
    {
      Asg(trail, trailLim, assign, level, reason, pos)
    }

    /** Everything but the watch lists. */
    ghost predicate Inv()
      reads this
    {
      && DbOk(nVars, db) && TrailOk(nVars, A()) && ReasonsOk(db, A())
      && Means(formula, db, A(), empty)
      && (forall i | 0 <= i < |formula| :: ClauseOk(nVars, formula[i]))
      && qhead <= |trail|
    }

    ghost predicate Valid()
      reads this
    {
      Inv() && WatchesOk(nVars, db, watches) && seen == {}
    }

    constructor ()
      ensures Valid() && nVars == 0 && formula == [] && trueLit == 0 && !empty && trail == []
    {
      nVars, db, watches := 0, [], map[];
      assign, level, reason, trail, trailLim, qhead := map[], map[], map[], [], [], 0;
      seen, conflictCore, empty, trueLit := {}, [], false, 0;
      pos, formula := map[], [];
    }

    function Value(l: int): (r: Option<bool>)
      reads this
      ensures r == Some(true) <==> A().True(l)
      ensures l != 0 ==> (r == Some(false) <==> A().False(l))
    {
      if Var(l) !in assign then None
      else Some(if l > 0 then assign[Var(l)] else !assign[Var(l)])
    }

    /** _enqueue for an unassigned literal. */
    method Enqueue(l: int, r: Option<nat>)
      requires Var(l) !in assign && TrailOk(nVars, A()) && ReasonsOk(db, A()) && LitOk(nVars, l)
      requires r.Some? ==> r.value < |db| && Unit(db[r.value], A(), l)
      requires r.None? ==> |trailLim| == 0 || trailLim[|trailLim| - 1] == |trail|
      modifies `trail, `assign, `level, `reason, `pos
      ensures A() == old(A()).Push(l, r)
      ensures TrailOk(nVars, A()) && ReasonsOk(db, A())
    {
      hide TrailOk, ReasonsOk, Unit;
      PushKeepsTrail(nVars, A(), l, r);
      PushKeepsReasons(nVars, db, A(), l, r);
      assign := assign[Var(l) := l > 0];
      level := level[Var(l) := |trailLim|];
      if r.Some? { reason := reason[Var(l) := r.value]; }
      pos := pos[Var(l) := |trail|];
      trail := trail + [l];
    }

    method CancelUntil(lvl: nat)
      requires Inv()
      modifies `trail, `trailLim, `assign, `level, `reason, `pos, `qhead
      ensures Inv() && |trailLim| <= lvl
      ensures |old(trailLim)| <= lvl ==> A() == old(A()) && qhead == old(qhead)
      ensures lvl < |old(trailLim)| ==>
        && |trailLim| == lvl && A() == old(A()).Cut(lvl)
        && qhead == if old(qhead) < |trail| then old(qhead) else |trail|
    {
      if |trailLim| <= lvl {
        return;
      }
      hide TrailOk, ReasonsOk, DbOk, Means;
      ghost var a := A();
      FromSteps(nVars, a);
      CutKeepsTrail(nVars, a, lvl);
      CutKeepsReasons(nVars, db, a, lvl);
      CutMeans(nVars, formula, db, a, empty, lvl);
      Unassign(trailLim[lvl]);
      trail := trail[..trailLim[lvl]];
      trailLim := trailLim[..lvl];
      qhead := if qhead < |trail| then qhead else |trail|;
    }

    /** The loop of _cancel_until: clear the variables from trail index `k` on. */
    method Unassign(k: nat)
      requires TrailOk(nVars, A()) && k <= |trail|
      modifies `assign, `level, `reason, `pos
      ensures var gone := old(A().From(k));
        && assign == old(assign) - gone && level == old(level) - gone
        && reason == old(reason) - gone && pos == old(pos) - gone
    {
      ghost var a := A();
      FromSteps(nVars, a);
      hide TrailOk;
      ghost var gone := {};
      var i: nat := |trail|;
      while i > k
        invariant k <= i <= |trail| && gone == a.From(i)
        invariant assign == a.assign - gone && level == a.level - gone
        invariant reason == a.reason - gone && pos == a.pos - gone
      {
        i := i - 1;
        var v := Var(trail[i]);
        assign, level, reason, pos := assign - {v}, level - {v}, reason - {v}, pos - {v};
        gone := gone + {v};
      }
    }

    // ---- unit propagation ----------------------------------------------------

    /** Store clause `c` with its literals reordered. */
    method Reorder(c: nat, d: seq<int>)
      requires Inv() && c < |db| && Permuted(nVars, db[c], d)
      modifies `db
      ensures Inv() && db == old(db)[c := d]
    {
      PermutedDb(nVars, db, c, d);
      SameDbReasons(db, db[c := d], A());
      SameDbMeans(formula, db, db[c := d], A(), empty);
      hide TrailOk, ReasonsOk, DbOk, Means;
      db := db[c := d];
    }

    /** The first literal from index 2 on that is not false, if any. */
    method FindWatch(lits: seq<int>) returns (k: nat)
      requires |lits| >= 2 && ClauseOk(nVars, lits) && A().False(lits[1])
      ensures 2 <= k <= |lits|
      ensures k < |lits| ==> !A().False(lits[k])
      ensures k == |lits| ==> Unit(lits, A(), lits[0])
    {
      k := 2;
      while k < |lits| && Value(lits[k]) == Some(false)
        invariant 2 <= k <= |lits| && forall j | 2 <= j < k :: A().False(lits[j])
      {
        assert LitOk(nVars, lits[k]);
        k := k + 1;
      }
      if k < |lits| { assert LitOk(nVars, lits[k]); }
    }

    /** The other watch is true: only the order of the literals changes. */
    method Keep(c: nat, lits: seq<int>, p: int)
      requires Inv() && c < |db| && |lits| >= 2 && Permuted(nVars, db[c], lits) && SamePair(db[c], lits)
      requires lits[1] == -p && A().True(lits[0])
      modifies `db
      ensures Inv() && Step(Kept, nVars, c, p, old(db), A(), watches, db, A(), watches)
    {
      hide TrailOk, ReasonsOk, DbOk, Means;
      Reorder(c, lits);
    }

    /** Trade the watch `-p` of clause `c`, second in `lits`, for literal `k`. */
    method Rewatch(c: nat, lits: seq<int>, k: nat, p: int)
      requires Inv() && c < |db| && |lits| >= 2 && Permuted(nVars, db[c], lits) && SamePair(db[c], lits)
      requires lits[1] == -p && 2 <= k < |lits| && !A().False(lits[k])
      requires forall q | LitOk(nVars, q) :: q in watches
      modifies `db, `watches
      ensures Inv() && Step(Moved, nVars, c, p, old(db), A(), old(watches), db, A(), watches)
    {
      hide TrailOk, ReasonsOk, DbOk, Means;
      assert lits[k] in lits && LitOk(nVars, lits[k]) && LitOk(nVars, -lits[k]);
      SwapKeeps(nVars, lits, 1, k);
      watches := watches[-lits[k] := watches[-lits[k]] + [c]];
      Reorder(c, Swapped(lits, 1, k));
    }

    /** No other watch to be had: the first literal is forced, or false too. */
    method Settle(c: nat, lits: seq<int>, p: int) returns (r: Visited)
      requires Inv() && c < |db| && |lits| >= 2 && Permuted(nVars, db[c], lits) && SamePair(db[c], lits)
      requires lits[1] == -p && LitOk(nVars, lits[0]) && !A().True(lits[0]) && Unit(lits, A(), lits[0])
      modifies `db, `trail, `assign, `level, `reason, `pos
      ensures Inv() && (r.Implied? || r.Falsified?)
      ensures Step(r, nVars, c, p, old(db), old(A()), watches, db, A(), watches)
    {
      hide TrailOk, ReasonsOk, DbOk, Means, Unit, AllFalse;
      Reorder(c, lits);
      if Value(lits[0]) == Some(false) {
        UnitFalse(lits, A());
        r := Falsified;
      } else {
        ImpliedMeans(nVars, formula, db, A(), empty, lits[0], c);
        Enqueue(lits[0], Some(c));
        r := Implied;
      }
    }

    /** One clause of the watch list of the newly true literal `p`. */
    method Visit(c: nat, p: int) returns (r: Visited)
      requires Inv() && c < |db| && A().False(-p) && Watching(db[c], p)
      requires forall q | LitOk(nVars, q) :: q in watches
      modifies `db, `watches, `trail, `assign, `level, `reason, `pos
      ensures Inv() && Step(r, nVars, c, p, old(db), old(A()), old(watches), db, A(), watches)
    {
      assert DistinctVars(db[c]) && ClauseOk(nVars, db[c]);
      var lits := Facing(db[c], p);
      FacingKeeps(nVars, db[c], p);
      hide TrailOk, ReasonsOk, DbOk, Means, Permuted, SamePair, Facing, Unit, Step, Inv;
      if Value(lits[0]) == Some(true) {
        Keep(c, lits, p);
        r := Kept;
      } else {
        var k := FindWatch(lits);
        if k < |lits| {
          Rewatch(c, lits, k, p);
          r := Moved;
        } else {
          r := Settle(c, lits, p);
        }
      }
    }

    /** The next clause `c` of the list of `p`, trail literal number `q`. */
    method VisitNext(c: nat, p: int, ghost q: nat, ghost front: seq<nat>, ghost back: seq<nat>) returns (r: Visited)
      requires Inv() && OnTop(A(), p, q) && LitOk(nVars, p)
      requires Scan(nVars, db, A(), watches, p, q, front, [c] + back)
      modifies `db, `watches, `trail, `assign, `level, `reason, `pos
      ensures Inv() && OnTop(A(), p, q) && SameDb(old(db), db) && Extends(old(A()), A())
      ensures r != Falsified ==>
        Scan(nVars, db, A(), watches, p, q, if r == Moved then front else front + [c], back)
      ensures r == Falsified ==>
        && WatchesOk(nVars, db, watches[p := front + [c] + back]) && WatchInv(db, A(), q)
        && c < |db| && AllFalse(db[c], A()) && -p in db[c]
    {
      ghost var db0, a0, ws0 := db, A(), watches;
      ScanNext(nVars, db, A(), watches, p, q, front, c, back);
      hide TrailOk, ReasonsOk, DbOk, Means, WatchInv, SameDb, Extends, Scan, Step, AllFalse, WatchesOk;
      r := Visit(c, p);
      StepExtends(r, nVars, c, p, q, db0, a0, ws0, db, A(), watches);
      if r == Falsified {
        ScanConflict(nVars, c, p, q, front, back, db0, a0, ws0, db, A(), watches);
      } else {
        ScanStep(r, nVars, c, p, q, front, back, db0, a0, ws0, db, A(), watches);
      }
    }

    /** The inner loop of _propagate, over a copy of the list of `p`: which of its
        clauses still watch -p, and the first falsified one. */
    method ScanList(p: int, ws: seq<nat>, ghost q: nat) returns (confl: Option<nat>, kept: seq<nat>)
      requires Inv() && OnTop(A(), p, q) && LitOk(nVars, p)
      requires Scan(nVars, db, A(), watches, p, q, [], ws)
      modifies `db, `watches, `trail, `assign, `level, `reason, `pos
      ensures Inv() && SameDb(old(db), db) && Extends(old(A()), A())
      ensures WatchesOk(nVars, db, watches[p := kept]) && WatchInv(db, A(), if confl.None? then q + 1 else q)
      ensures confl.Some? ==> confl.value < |db| && AllFalse(db[confl.value], A()) && -p in db[confl.value]
    {
      ghost var db0, a0 := db, A();
      SameDbSelf(db);
      ExtendsSelf(nVars, a0);
      confl, kept := None, [];
      var i := 0;
      assert ws[0..] == ws;
      hide TrailOk, ReasonsOk, DbOk, Means, WatchInv, SameDb, Extends, Scan, AllFalse, WatchesOk, OnTop;
      while i < |ws|
        invariant i <= |ws| && Inv() && OnTop(A(), p, q)
        invariant SameDb(db0, db) && Extends(a0, A())
        invariant Scan(nVars, db, A(), watches, p, q, kept, ws[i..])
      {
        var c := ws[i];
        ghost var db1, a1 := db, A();
        assert ws[i..] == [c] + ws[i + 1..];
        var r := VisitNext(c, p, q, kept, ws[i + 1..]);
        SameDbTrans(db0, db1, db);
        ExtendsTrans(nVars, a0, a1, A());
        if r == Falsified {
          return Some(c), kept + [c] + ws[i + 1..];
        }
        kept := if r == Moved then kept else kept + [c];
        i := i + 1;
      }
      assert ws[i..] == [];
      ScanEnd(nVars, db, A(), watches, p, q, kept);
    }

    /** Visit every clause that watches -p, for the trail literal `p` just dequeued. */
    method ScanWatches(p: int) returns (confl: Option<nat>)
      requires Valid() && 0 < qhead && p == trail[qhead - 1] && TopFrom(A(), qhead - 1)
      requires WatchInv(db, A(), qhead - 1)
      modifies `db, `watches, `trail, `assign, `level, `reason, `pos, `qhead
      ensures Valid() && SameDb(old(db), db) && Extends(old(A()), A())
      ensures WatchInv(db, A(), if confl.None? then qhead else old(qhead) - 1)
      ensures qhead == if confl.None? then old(qhead) else |trail|
      ensures confl.Some? ==> confl.value < |db| && AllFalse(db[confl.value], A()) && -p in db[confl.value]
    {
      hide TrailOk, ReasonsOk, DbOk, Means, WatchInv, SameDb, Scan, AllFalse, WatchesOk, OnTop, TopFrom;
      ScanStart(nVars, db, A(), watches, p, qhead - 1);
      var kept;
      confl, kept := ScanList(p, watches[p], qhead - 1);
      watches := watches[p := kept];
      if confl.Some? {
        qhead := |trail|;
      }
    }

    method Propagate() returns (confl: Option<nat>)
      requires Valid() && TopFrom(A(), qhead) && WatchInv(db, A(), qhead)
      modifies `db, `watches, `trail, `assign, `level, `reason, `pos, `qhead
      ensures Valid() && SameDb(old(db), db) && Extends(old(A()), A()) && qhead == |trail|
      ensures confl.None? ==> WatchInv(db, A(), qhead)
      ensures confl.Some? ==>
        && WatchInv(db, A(), A().Start()) && confl.value < |db| && AllFalse(db[confl.value], A())
        && TouchesTop(db[confl.value], A())
    {
      hide TrailOk, ReasonsOk, DbOk, Means, WatchInv, SameDb, Scan, AllFalse, WatchesOk, TopFrom, Extends;
      ghost var db0, a0 := db, A();
      SameDbSelf(db);
      ExtendsSelf(nVars, a0);
      TopFromEnd(A());
      while qhead < |trail|
        invariant Valid() && SameDb(db0, db) && Extends(a0, A())
        invariant TopFrom(A(), qhead) && WatchInv(db, A(), qhead)
        decreases Vars(nVars) - assign.Keys, |trail| - qhead
      {
        var p := trail[qhead];
        qhead := qhead + 1;
        ghost var db1, a1, q := db, A(), qhead - 1;
        confl := ScanWatches(p);
        FewerUnassigned(nVars, a1, A());
        SameDbTrans(db0, db1, db);
        ExtendsTrans(nVars, a0, a1, A());
        if confl.Some? {
          ConflictOnTop(nVars, db, a1, A(), p, q);
          return;
        }
        ExtendsTop(nVars, a1, A(), q);
      }
      confl := None;
    }

    // ---- conflict analysis ---------------------------------------------------

    /** Take the literals of clause `c` other than `p` into the analysis. */
    method TakeClause(c: nat, p: int, learnt: seq<int>, counter: int, ghost idx: int)
      returns (learnt': seq<int>, counter': int)
      requires Inv() && c < |db| && 0 < |trailLim| && |learnt| >= 1 && (p != 0 ==> LitOk(nVars, p))
      requires Marking(nVars, A(), seen, learnt[1..], counter, idx)
      requires Resolved(formula, A(), seen, learnt[1..], p)
      requires forall q | q in db[c] && q != p :: A().False(q) && Var(q) in pos && pos[Var(q)] <= idx
      modifies `seen
      ensures |learnt'| >= 1 && Marking(nVars, A(), seen, learnt'[1..], counter', idx)
      ensures Resolvent(formula, A(), seen, learnt'[1..]) && Taken(db[c], A(), seen, p)
      ensures seen == old(seen) + Marks(db[c], A(), p)
    {
      hide TrailOk, ReasonsOk, DbOk, Means, Marking, Resolved, Resolvent, Taken, Marks;
      var lits := db[c];
      learnt', counter' := learnt, counter;
      ghost var a, seen0 := A(), seen;
      ClauseFacts(nVars, db, a, c, p, idx);
      TakenNone(a, seen, p);
      assert lits[..0] == [];
      MarksNone(a, p);
      var k := 0;
      while k < |lits|
        invariant k <= |lits| && |learnt'| >= 1 && A() == a && seen0 <= seen
        invariant Marking(nVars, a, seen, learnt'[1..], counter', idx)
        invariant forall q | q in learnt[1..] :: q in learnt'[1..]
        invariant Taken(lits[..k], a, seen, p)
        invariant seen == seen0 + Marks(lits[..k], a, p)
      {
        var q := lits[k];
        assert q in lits && LitOk(nVars, q);
        ghost var seen1 := seen;
        if q != p && Var(q) !in seen && level[Var(q)] > 0 {
          if level[Var(q)] >= |trailLim| {
            MarkCurrent(nVars, a, seen, learnt'[1..], counter', idx, q);
            counter' := counter' + 1;
          } else {
            MarkLower(nVars, a, seen, learnt'[1..], counter', idx, q);
            assert (learnt' + [q])[1..] == learnt'[1..] + [q];
            learnt' := learnt' + [q];
          }
          seen := seen + {Var(q)};
        }
        TakenNext(lits, k, a, seen1, seen, p);
        MarksNext(lits, k, a, p);
        k := k + 1;
      }
      assert lits[..k] == lits;
      MarkingTail(nVars, a, seen, learnt'[1..], counter', idx);
      ResolveStep(nVars, formula, db, a, empty, c, p, seen0, learnt[1..], seen, learnt'[1..]);
    }

    /** Scan down the trail from `start` to the next seen literal. */
    method NextSeen(start: nat, ghost tail: seq<int>, ghost counter: int) returns (idx: nat)
      requires Inv() && 0 < |trailLim| && start < |trail| && counter > 0
      requires Marking(nVars, A(), seen, tail, counter, start)
      ensures idx <= start && Marking(nVars, A(), seen, tail, counter, idx) && Var(trail[idx]) in Cur(A(), seen)
      ensures forall j | idx < j <= start :: Var(trail[j]) !in seen
    {
      hide TrailOk, ReasonsOk, DbOk, Means, Marking;
      idx := start;
      SeenOnTop(nVars, A(), seen, tail, counter, idx);
      while Var(trail[idx]) !in seen
        invariant idx <= start && Marking(nVars, A(), seen, tail, counter, idx)
        invariant Var(trail[idx]) in seen ==> Var(trail[idx]) in Cur(A(), seen)
        invariant forall j | idx < j <= start :: Var(trail[j]) !in seen
        decreases idx
      {
        SeenOnTop(nVars, A(), seen, tail, counter, idx);
        idx := idx - 1;
        SeenOnTop(nVars, A(), seen, tail, counter, idx);
      }
    }

    /** The marks left on the literals of the learned clause. */
    method ClearSeen(learnt: seq<int>)
      requires forall v | v in seen :: exists k :: 0 <= k < |learnt| && Var(learnt[k]) == v
      modifies `seen
      ensures seen == {}
    {
      var i := 0;
      while i < |learnt|
        invariant i <= |learnt|
        invariant forall v | v in seen :: exists k :: i <= k < |learnt| && Var(learnt[k]) == v
      {
        seen := seen - {Var(learnt[i])};
        i := i + 1;
      }
      assert forall v :: v !in seen;
    }

    /** Put a literal of the highest level below the current one second. */
    method BackjumpLevel(c: seq<int>) returns (learnt: seq<int>, bj: nat)
      requires Asserting(nVars, formula, A(), c)
      ensures Learned(nVars, formula, A(), learnt, bj) && VarsOf(learnt) == VarsOf(c)
    {
      if |c| == 1 {
        return c, 0;
      }
      var mx, k := 1, 2;
      while k < |c|
        invariant 1 <= mx < |c| && 2 <= k <= |c|
        invariant forall j | 1 <= j < k :: level[Var(c[j])] <= level[Var(c[mx])]
      {
        if level[Var(c[k])] > level[Var(c[mx])] {
          mx := k;
        }
        k := k + 1;
      }
      LearnedFrom(nVars, formula, A(), c, mx);
      SwappedVars(c, 1, mx);
      return Swapped(c, 1, mx), level[Var(c[mx])];
    }

    /** _analyze: resolve back from the conflict to the first unique implication point. */
    method Analyze(confl: nat) returns (learnt: seq<int>, bj: nat)
      requires Valid() && 0 < |trailLim| && confl < |db| && AllFalse(db[confl], A()) && TouchesTop(db[confl], A())
      modifies `seen
      ensures Valid() && Learned(nVars, formula, A(), learnt, bj)
      ensures VarsOf(learnt) == FirstUip(db, A(), confl)
    {
      ghost var a := A();
      assert ClauseOk(nVars, db[confl]);
      hide TrailOk, ReasonsOk, DbOk, Means, Marking, Resolved, Resolvent, Taken, WatchesOk, Asserting, AllFalse,
          TouchesTop;
      learnt := Uip(confl);
      ClearSeen(learnt);
      learnt, bj := BackjumpLevel(learnt);
    }

    /** The loop of _analyze: the clause left at the first unique implication point. */
    method Uip(confl: nat) returns (learnt: seq<int>)
      requires Inv() && seen == {} && 0 < |trailLim| && confl < |db| && ClauseOk(nVars, db[confl])
      requires AllFalse(db[confl], A()) && TouchesTop(db[confl], A())
      modifies `seen
      ensures Inv() && Asserting(nVars, formula, A(), learnt)
      ensures forall v | v in seen :: exists k :: 0 <= k < |learnt| && Var(learnt[k]) == v
      ensures VarsOf(learnt) == FirstUip(db, A(), confl)
    {
      hide TrailOk, ReasonsOk, DbOk, Means, Marking, Resolvent, Taken, WatchesOk, Asserting, AllFalse, TouchesTop,
        Left, Marks, VarsOf, Cur;
      ghost var a := A();
      ConflictStart(nVars, a, db[confl]);
      learnt := [0];
      assert learnt[1..] == [];
      var c: nat, counter, p := confl, 0, 0;
      var idx: int := |trail| - 1;
      var i: nat := 0;
      ghost var marked: set<int> := {};
      assert {} + Marks(db[confl], a, 0) == Marks(db[confl], a, 0);
      while true
        invariant |learnt| >= 1 && -1 <= idx < |trail| && c < |db| && A() == a
        invariant Marking(nVars, a, seen, learnt[1..], counter, idx)
        invariant Resolved(formula, a, seen, learnt[1..], p) && (p != 0 ==> LitOk(nVars, p))
        invariant forall q | q in db[c] && q != p :: a.False(q) && Var(q) in pos && pos[Var(q)] <= idx
        invariant |Cur(a, seen)| > 0 || (p == 0 && c == confl)
        invariant Left(db, a, seen + Marks(db[c], a, p), idx) == FirstUip(db, a, confl)
        decreases idx
      {
        ghost var before := seen;
        learnt, counter := TakeClause(c, p, learnt, counter, idx);
        SomeMarked(nVars, a, before, seen, learnt[1..], counter, idx, db[c]);
        i := NextSeen(idx, learnt[1..], counter);
        LeftSkips(db, a, seen, idx, i);
        marked := seen;
        Unmark(nVars, formula, a, seen, learnt[1..], counter, i);
        p := trail[i];
        seen := seen - {Var(p)};
        counter := counter - 1;
        if counter <= 0 {
          ResolveEnds(nVars, db, a, marked, learnt[1..], counter, i);
          break;
        }
        ResolveOn(nVars, db, a, marked, learnt[1..], counter, i);
        c := reason[Var(p)];
        idx := i - 1;
      }
      UipDone(nVars, formula, a, marked, learnt[1..], i, [-p] + learnt[1..]);
      learnt := [-p] + learnt[1..];
    }

    // ---- building the formula ------------------------------------------------

    method NewVar() returns (v: int)
      requires Valid()
      modifies `nVars, `watches
      ensures Valid() && v == nVars == old(nVars) + 1
    {
      hide TrailOk, ReasonsOk, DbOk, Means, WatchesOk;
      NewVarKeeps(nVars, db, A(), watches);
      FormulaGrows(nVars, formula);
      nVars := nVars + 1;
      v := nVars;
      watches := watches[v := []][-v := []];
    }

    /** The literals without repetitions, unless two of them are opposite. */
    method Distinct(lits: seq<int>) returns (out: seq<int>, tautology: bool)
      requires ClauseOk(nVars, lits)
      ensures tautology ==> Tautology(lits)
      ensures lits == [] ==> !tautology && out == []
      ensures !tautology ==> SameLits(lits, out) && DistinctVars(out) && ClauseOk(nVars, out)
    {
      out, tautology := [], false;
      var met: set<int> := {};
      var i := 0;
      while i < |lits|
        invariant |out| <= i <= |lits| && DistinctVars(out)
        invariant (forall l :: l in met <==> l in out) && (forall l :: l in lits[..i] <==> l in out)
        invariant forall l | l in out :: l in lits
      {
        var l := lits[i];
        assert l in lits && LitOk(nVars, l) && lits[..i + 1] == lits[..i] + [l];
        if -l in met {
          return out, true;
        }
        if l !in met {
          met := met + {l};
          DistinctAppend(out, l);
          out := out + [l];
        }
        i := i + 1;
      }
      assert lits[..i] == lits;
    }

    /** Store a clause of two or more literals and watch its first two. */
    method Attach(c: seq<int>)
      requires DbOk(nVars, db) && ReasonsOk(db, A()) && WatchesOk(nVars, db, watches)
      requires |c| >= 2 && ClauseOk(nVars, c) && DistinctVars(c)
      modifies `db, `watches
      ensures db == old(db) + [c]
      ensures DbOk(nVars, db) && ReasonsOk(db, A()) && WatchesOk(nVars, db, watches)
    {
      assert c[0] in c && c[1] in c && Var(c[0]) != Var(c[1]);
      hide TrailOk, ReasonsOk, DbOk, Means, WatchesOk;
      AppendDb(nVars, db, c);
      AppendReasons(db, A(), c);
      AttachedWatches(nVars, db, watches, c);
      watches := watches[-c[0] := watches[-c[0]] + [|db|]][-c[1] := watches[-c[1]] + [|db|]];
      db := db + [c];
    }

    /** A one-literal clause `lits` becomes a root fact, or a contradiction. */
    method AddUnit(ghost lits: seq<int>, l: int) returns (ok: bool)
      requires Valid() && |trailLim| == 0 && ClauseOk(nVars, lits) && SameLits(lits, [l]) && LitOk(nVars, l)
      modifies `trail, `assign, `level, `reason, `pos, `empty, `formula
      ensures Valid() && formula == old(formula) + [lits] && empty == (old(empty) || !ok)
    {
      hide TrailOk, ReasonsOk, DbOk, Means, WatchesOk;
      match Value(l) {
        case None =>
          FreeUnitMeans(nVars, formula, db, A(), empty, lits, l);
          Enqueue(l, None);
          ok := true;
        case Some(b) =>
          KnownUnitMeans(nVars, formula, db, A(), empty, lits, l);
          ok := b;
          empty := empty || !b;
      }
      formula := formula + [lits];
    }

    method AddClause(lits: seq<int>) returns (ok: bool)
      requires Valid() && ClauseOk(nVars, lits)
      modifies `db, `watches, `trail, `trailLim, `assign, `level, `reason, `pos, `qhead, `empty, `formula
      ensures Valid() && formula == old(formula) + [lits]
      ensures empty == (old(empty) || !ok) && (empty ==> Refutes(formula, []))
      ensures lits == [] ==> !ok
    {
      hide TrailOk, ReasonsOk, DbOk, WatchesOk, Means;
      CancelUntil(0);
      var out, tautology := Distinct(lits);
      ok := true;
      if tautology {
        TautologyMeans(formula, db, A(), empty, lits);
        formula := formula + [lits];
      } else if |out| == 0 {
        EmptyMeans(formula, db, A(), empty, lits);
        formula := formula + [lits];
        empty := true;
        ok := false;
      } else if |out| == 1 {
        assert out == [out[0]] && out[0] in out;
        ok := AddUnit(lits, out[0]);
      } else {
        ClauseMeans(formula, db, A(), empty, lits, out);
        Attach(out);
        formula := formula + [lits];
      }
      EmptyRefutes(formula, db, A(), empty);
    }

    lemma EmptyUnsat()
      requires Valid()
      ensures empty ==> Refutes(formula, [])
    {
      EmptyRefutes(formula, db, A(), empty);
    }

    lemma ClausesOk()
      requires Valid()
      ensures forall i | 0 <= i < |formula| :: ClauseOk(nVars, formula[i])
    {
    }

    /** The encoder's attribute on the solver; nothing in the solver reads it. */
    method SetTrueLit(t: int)
      requires Valid()
      modifies `trueLit
      ensures Valid() && trueLit == t
    {
      trueLit := t;
    }

    // ---- the main search -----------------------------------------------------

    /** The state between two steps of the search under the assumptions `asm`. */
    ghost predicate Searching(asm: seq<int>)
      reads this
    {
      Valid() && WatchInv(db, A(), qhead) && TopFrom(A(), qhead) && DecisionsOk(asm, A())
    }

    /** Backtrack to `lvl` in a state propagated at least that far. */
    method Backtrack(lvl: nat, ghost asm: seq<int>, ghost limit: nat)
      requires Valid() && DecisionsOk(asm, A()) && WatchInv(db, A(), limit) && lvl < |trailLim|
      requires trailLim[lvl] <= limit && trailLim[lvl] <= qhead
      modifies `trail, `trailLim, `assign, `level, `reason, `pos, `qhead
      ensures Searching(asm) && A() == old(A()).Cut(lvl) && |trailLim| == lvl && qhead == |trail|
      ensures Known(db, old(A())) <= Known(db, A())
    {
      ghost var a := A();
      CutKeepsWatch(nVars, db, a, lvl, limit);
      CutDecisions(nVars, asm, a, lvl);
      CutRoots(nVars, a, lvl);
      hide ReasonsOk, DbOk, Means, WatchesOk, WatchInv, DecisionsOk, Known;
      CancelUntil(lvl);
      SameDbSelf(db);
      KnownGrows(nVars, db, a, db, A());
    }

    /** _record for a one-literal clause: it becomes a root fact. */
    method RecordUnit(l: int)
      requires Inv() && WatchesOk(nVars, db, watches) && seen == {} && WatchInv(db, A(), qhead)
      requires qhead == |trail| && Ready(nVars, formula, A(), [l])
      modifies `trail, `assign, `level, `reason, `pos
      ensures Valid() && WatchInv(db, A(), qhead) && Extends(old(A()), A()) && |trail| == qhead + 1
      ensures Known(old(db), old(A())) + {LitSet([l])} <= Known(db, A())
    {
      hide ReasonsOk, DbOk, Means, WatchesOk, WatchInv, Known, TrailOk, Extends, Ready;
      ReadyFacts(nVars, formula, A(), [l]);
      PushExtends(nVars, A(), l, None);
      UnitMeans(nVars, formula, db, A(), empty, l);
      PushKeepsWatch(nVars, db, A(), l, None, qhead);
      KnownUnit(nVars, db, A(), l);
      Enqueue(l, None);
    }

    /** _record for a longer clause: store it, watch it, enqueue its first literal. */
    method RecordClause(learnt: seq<int>)
      requires Inv() && WatchesOk(nVars, db, watches) && seen == {} && WatchInv(db, A(), qhead)
      requires qhead == |trail| && Ready(nVars, formula, A(), learnt) && |learnt| >= 2
      modifies `db, `watches, `trail, `assign, `level, `reason, `pos
      ensures Valid() && WatchInv(db, A(), qhead) && Extends(old(A()), A()) && |trail| == qhead + 1
      ensures Known(old(db), old(A())) + {LitSet(learnt)} <= Known(db, A())
    {
      hide ReasonsOk, DbOk, Means, WatchesOk, WatchInv, Known, TrailOk, Extends, Ready;
      ghost var a, db0, c := A(), db, |db|;
      ReadyFacts(nVars, formula, a, learnt);
      LearnMeans(formula, db, a, empty, learnt);
      Attach(learnt);
      PushKeepsWatch(nVars, db0, a, learnt[0], Some(c), qhead);
      LearntWatched(nVars, formula, a, learnt, Some(c));
      AppendWatched(nVars, db0, a.Push(learnt[0], Some(c)), learnt, qhead);
      ImpliedMeans(nVars, formula, db, a, empty, learnt[0], c);
      PushExtends(nVars, a, learnt[0], Some(c));
      Enqueue(learnt[0], Some(|db| - 1));
      KnownClause(nVars, db0, a, learnt, A());
    }

    /** _record: keep the learned clause and enqueue its asserting literal. */
    method Record(learnt: seq<int>, ghost asm: seq<int>)
      requires Searching(asm) && qhead == |trail| && Ready(nVars, formula, A(), learnt)
      modifies `db, `watches, `trail, `assign, `level, `reason, `pos
      ensures Searching(asm) && forall k | 0 <= k < |trailLim| :: trailLim[k] <= qhead
      ensures Known(old(db), old(A())) + {LitSet(learnt)} <= Known(db, A())
    {
      hide ReasonsOk, DbOk, Means, WatchesOk, WatchInv, DecisionsOk, Known, TrailOk, TopFrom, Extends, Ready;
      ghost var a := A();
      LimsBelow(nVars, a);
      ReadyFacts(nVars, formula, a, learnt);
      if |learnt| == 1 {
        assert learnt == [learnt[0]];
        RecordUnit(learnt[0]);
      } else {
        RecordClause(learnt);
      }
      SameLims(a, A());
      ExtendsTop(nVars, a, A(), qhead);
      ExtendDecisions(nVars, asm, a, A());
    }

    /** A conflict above the root: learn from it, backjump, assert. */
    method Learn(confl: nat, ghost asm: seq<int>)
      requires Valid() && DecisionsOk(asm, A()) && qhead == |trail| && 0 < |trailLim|
      requires WatchInv(db, A(), A().Start()) && confl < |db| && AllFalse(db[confl], A()) && TouchesTop(db[confl], A())
      modifies `db, `watches, `trail, `trailLim, `assign, `level, `reason, `pos, `qhead, `seen
      ensures Searching(asm) && forall k | 0 <= k < |trailLim| :: trailLim[k] <= qhead
      ensures Known(old(db), old(A())) < Known(db, A()) <= AllClauses(nVars)
    {
      hide ReasonsOk, DbOk, Means, WatchesOk, WatchInv, DecisionsOk, Known, TrailOk, TopFrom, Ready, Learned, AllFalse,
          TouchesTop;
      ghost var a, db0 := A(), db;
      var learnt, bj := Analyze(confl);
      LearntIsNew(nVars, formula, db, a, learnt, bj);
      CutReady(nVars, formula, a, learnt, bj);
      Backtrack(bj, asm, a.Start());
      Record(learnt, asm);
      KnownBounded(nVars, db, A());
      assert LitSet(learnt) in {LitSet(learnt)};
      assert LitSet(learnt) in Known(db, A()) && LitSet(learnt) !in Known(db0, a);
    }

    method Restart(ghost asm: seq<int>)
      requires Searching(asm) && forall k | 0 <= k < |trailLim| :: trailLim[k] <= qhead
      modifies `trail, `trailLim, `assign, `level, `reason, `pos, `qhead
      ensures Searching(asm) && Known(db, old(A())) <= Known(db, A())
    {
      hide ReasonsOk, DbOk, Means, WatchesOk, WatchInv, DecisionsOk, Known, TrailOk, TopFrom;
      if |trailLim| > 0 {
        Backtrack(0, asm, qhead);
      }
    }

    /** Open a decision level with `l`: the assumption number `j`, or, when all of
        them hold already, any literal. */
    method Decide(l: int, ghost asm: seq<int>, ghost j: nat)
      requires Searching(asm) && qhead == |trail| && LitOk(nVars, l) && Var(l) !in assign
      requires j <= |asm| && (forall k | 0 <= k < j :: A().True(asm[k])) && (j < |asm| ==> l == asm[j])
      modifies `trail, `trailLim, `assign, `level, `reason, `pos
      ensures Searching(asm) && Known(db, old(A())) <= Known(db, A())
      ensures A().True(l) && forall k | 0 <= k < j :: A().True(asm[k])
      ensures Vars(nVars) - assign.Keys < Vars(nVars) - old(assign.Keys)
    {
      ghost var a := A();
      hide ReasonsOk, DbOk, Means, WatchesOk, WatchInv, DecisionsOk, Known, TrailOk, TopFrom, Extends;
      NewLevelKeepsTrail(nVars, a);
      NewLevelKeepsReasons(db, a);
      NewLevelKeepsWatch(db, a, qhead);
      DecideMeans(nVars, formula, db, a, empty, l);
      DecideDecisions(nVars, asm, a, l, j);
      PushKeepsWatch(nVars, db, a.NewLevel(), l, None, qhead);
      DecideGrows(nVars, db, a, l);
      trailLim := trailLim + [|trail|];
      Enqueue(l, None);
    }

    /** An unassigned variable with either sign, or 0 when there is none. The
        activities and saved phases that choose among them are left open. */
    method PickBranch() returns (l: int)
      requires Inv()
      ensures l == 0 ==> forall v | 1 <= v <= nVars :: v in assign
      ensures l != 0 ==> LitOk(nVars, l) && Var(l) !in assign
    {
      var free := set v | v in Vars(nVars) && v !in assign;
      if free == {} {
        forall v | 1 <= v <= nVars ensures v in assign { assert v in Vars(nVars) && v !in free; }
        return 0;
      }
      ghost var some := Pick(free);
      var v :| v in free;
      var phase: bool := *;
      l := if phase then v else -v;
    }

    /** Push the antecedent's variables above the root that are not yet traced. */
    method Follow(c: nat, traced0: set<int>, stack0: seq<int>) returns (traced: set<int>, stack: seq<int>)
      requires Inv() && c < |db| && InTables(db[c], A())
      ensures Followed(db[c], A(), traced) && traced0 <= traced && (traced == traced0 ==> stack == stack0)
      ensures forall v :: v in stack <==> v in stack0 || v in traced - traced0
      ensures forall v | v in traced - traced0 :: v in assign && v in level
      ensures forall v | v in traced - traced0 :: level[v] > 0 && exists q :: q in db[c] && Var(q) == v
    {
      hide ReasonsOk, DbOk, Means, TrailOk;
      traced, stack := traced0, stack0;
      var lits := db[c];
      var k := 0;
      while k < |lits|
        invariant k <= |lits| && traced0 <= traced && (traced == traced0 ==> stack == stack0)
        invariant Followed(lits[..k], A(), traced)
        invariant forall v :: v in stack <==> v in stack0 || v in traced - traced0
        invariant forall v | v in traced - traced0 :: v in assign && v in level
        invariant forall v | v in traced - traced0 :: level[v] > 0 && exists q :: q in lits && Var(q) == v
      {
        var u: int := Var(lits[k]);
        assert lits[k] in lits && lits[..k + 1] == lits[..k] + [lits[k]];
        if u !in traced && level[u] > 0 {
          traced := traced + {u};
          stack := stack + [u];
        }
        k := k + 1;
      }
      assert lits[..k] == lits;
    }

    /** The assumptions that are in the core, in their given order. */
    method Filter(assumed: seq<int>, kept: set<int>) returns (core: seq<int>)
      ensures forall l :: l in core <==> l in assumed && l in kept
    {
      core := [];
      var i := 0;
      while i < |assumed|
        invariant i <= |assumed| && forall l :: l in core <==> l in assumed[..i] && l in kept
      {
        assert assumed[..i + 1] == assumed[..i] + [assumed[i]];
        if assumed[i] in kept {
          core := core + [assumed[i]];
        }
        i := i + 1;
      }
      assert assumed[..i] == assumed;
    }

    /** Work off variable `v`: take its assumption, or follow its antecedent. */
    method Trace(v: int, rest: seq<int>, assumed: seq<int>, traced0: set<int>, kept0: set<int>)
      returns (traced: set<int>, kept: set<int>, stack: seq<int>)
      requires Inv() && Assumed(assumed, A()) && v in assign && v in level
      ensures Traced(db, A(), traced, kept, v) && traced0 <= traced && kept0 <= kept
      ensures forall l | l in kept - kept0 :: l in assumed
      ensures forall u | u in traced - traced0 :: u in assign && u in level && u in stack
      ensures forall u | u in stack :: u in rest || u in traced
      ensures forall u | u in rest :: u in stack
      ensures traced == traced0 ==> stack == rest
      ensures forall u | u in traced - traced0 :: Leads(db, A(), v, u)
      ensures v !in reason ==> forall l | l in assumed && Var(l) == v :: l in kept
      ensures forall l | l in kept - kept0 :: Var(l) == v && v !in reason
    {
      hide ReasonsOk, DbOk, Means, WatchesOk, TrailOk, Assumed, Traced, Followed, InTables;
      TraceFacts(nVars, db, A(), v);
      traced, kept, stack := traced0, kept0, rest;
      if v in reason {
        traced, stack := Follow(reason[v], traced0, rest);
      } else {
        kept := kept0 + set l | l in assumed && Var(l) == v;
        TraceDecision(nVars, A(), assumed, kept, v);
      }
      TracedNow(db, A(), traced, kept, v);
    }

    /** _assumption_core: trace the antecedents back from a failed assumption. */
    method AssumptionCore(failed: int, assumed: seq<int>) returns (core: seq<int>)
      requires Valid() && LitOk(nVars, failed) && A().False(failed) && failed in assumed && Assumed(assumed, A())
      ensures (forall l | l in core :: l in assumed) && Refutes(formula, core)
      ensures CoreFrom(db, A(), failed, assumed, core)
    {
      hide ReasonsOk, DbOk, Means, WatchesOk, TrailOk, Assumed, Traced, Followed, Leads, Reached, CoreFrom;
      ghost var a := A();
      TraceStart(nVars, a, failed);
      var kept, traced := {failed}, {Var(failed) as int};
      var stack: seq<int> := [Var(failed)];
      ReachedSelf(db, a, Var(failed));
      while stack != []
        invariant Var(failed) in traced && failed in kept && forall l | l in kept :: l in assumed
        invariant forall v | v in stack :: v in traced
        invariant forall v | v in traced :: v in assign && v in level
        invariant forall v | v in traced && v !in stack :: Traced(db, a, traced, kept, v)
        invariant forall v | v in traced :: Reached(db, a, Var(failed), v)
        invariant forall v, l | v in traced && v !in stack && v !in reason && l in assumed && Var(l) == v :: l in kept
        invariant forall l | l in kept :: l == failed || (Var(l) in traced && Var(l) !in reason)
        decreases level.Keys - traced, |stack|
      {
        var v := stack[|stack| - 1];
        var rest := stack[..|stack| - 1];
        assert stack == rest + [v];
        ghost var traced0, kept0, stack0 := traced, kept, stack;
        traced, kept, stack := Trace(v, rest, assumed, traced, kept);
        if traced != traced0 { FewerLeft(traced0, traced, level.Keys); }
        forall u | u in traced && u !in stack ensures Traced(db, a, traced, kept, u) {
          if u != v { TracedGrows(db, a, traced0, kept0, traced, kept, u); }
        }
        forall u | u in traced - traced0 ensures Reached(db, a, Var(failed), u) {
          ReachedNext(db, a, Var(failed), v, u);
        }
      }
      core := Filter(assumed, kept);
      CoreRefutes(nVars, formula, db, a, empty, traced, kept, failed, core);
      CoreExact(db, a, traced, kept, failed, assumed, core);
    }

    // ---- solve -------------------------------------------------------------------

    /** A conflict at the root refutes the formula by itself. */
    lemma RootRefutes(c: nat)
      requires Inv() && |trailLim| == 0 && c < |db| && AllFalse(db[c], A())
      ensures Refutes(formula, [])
    {
      assert ClauseOk(nVars, db[c]);
      RootConflict(nVars, formula, db, A(), empty, c);
    }

    /** Propagate, as one step of the search. */
    method Propagated(ghost asm: seq<int>) returns (confl: Option<nat>)
      requires Searching(asm)
      modifies `db, `watches, `trail, `assign, `level, `reason, `pos, `qhead
      ensures Valid() && DecisionsOk(asm, A()) && qhead == |trail| && |trailLim| == |old(trailLim)|
      ensures confl.None? ==> Searching(asm)
      ensures confl.Some? ==>
        && WatchInv(db, A(), A().Start()) && confl.value < |db|
        && AllFalse(db[confl.value], A()) && TouchesTop(db[confl.value], A())
      ensures Known(old(db), old(A())) <= Known(db, A()) <= AllClauses(nVars)
      ensures Vars(nVars) - assign.Keys <= Vars(nVars) - old(assign.Keys)
      ensures forall q | old(A().True(q)) :: A().True(q)
    {
      hide ReasonsOk, DbOk, Means, WatchesOk, TrailOk, WatchInv, DecisionsOk, Known, TopFrom, AllFalse, TouchesTop,
          Extends, SameDb;
      ghost var db0, a0 := db, A();
      confl := Propagate();
      PropagateKeeps(nVars, db0, a0, db, A(), asm);
      SameLims(a0, A());
      TopFromEnd(A());
    }

    /** Learn from a conflict above the root and, now and then, restart. */
    method Recover(confl: nat, asm: seq<int>, restart: bool)
      requires Valid() && DecisionsOk(asm, A()) && qhead == |trail| && 0 < |trailLim|
      requires WatchInv(db, A(), A().Start()) && confl < |db| && AllFalse(db[confl], A()) && TouchesTop(db[confl], A())
      modifies `db, `watches, `trail, `trailLim, `assign, `level, `reason, `pos, `qhead, `seen
      ensures Searching(asm) && AllClauses(nVars) - Known(db, A()) < AllClauses(nVars) - Known(old(db), old(A()))
    {
      hide ReasonsOk, DbOk, Means, WatchesOk, TrailOk, WatchInv, DecisionsOk, Known, TopFrom, AllFalse, TouchesTop;
      ghost var a, db0 := A(), db;
      Learn(confl, asm);
      FewerUnknown(Known(db0, a), Known(db, A()), AllClauses(nVars));
      if restart {
        ghost var b := A();
        Restart(asm);
        KnownBounded(nVars, db, A());
        assert Known(db, b) <= Known(db, A());
      }
    }

    /** No conflict: the next assumption or decision, or the verdict. */
    method Advance(asm: seq<int>, ui0: nat) returns (ui: nat, verdict: Option<bool>)
      requires Searching(asm) && qhead == |trail| && ClauseOk(nVars, asm) && !empty
      requires ui0 <= |asm| && forall k | 0 <= k < ui0 :: A().True(asm[k])
      modifies `trail, `trailLim, `assign, `level, `reason, `pos, `conflictCore
      ensures Searching(asm) && ui <= |asm| && forall k | 0 <= k < ui :: A().True(asm[k])
      ensures verdict == Some(true) ==> HoldsAll(TrueVars(A()), formula) && HoldsLits(TrueVars(A()), asm)
      ensures verdict == Some(false) ==> Refutes(formula, conflictCore) && forall l | l in conflictCore :: l in asm
      ensures verdict == Some(false) ==> CoreOf(db, A(), asm, conflictCore)
      ensures verdict.None? ==>
        && conflictCore == old(conflictCore)
        && Known(db, old(A())) <= Known(db, A())
        && (Vars(nVars) - assign.Keys < Vars(nVars) - old(assign.Keys) || (A() == old(A()) && ui > ui0))
    {
      hide ReasonsOk, DbOk, Means, WatchesOk, TrailOk, WatchInv, DecisionsOk, Known, TopFrom, Refutes, CoreFrom;
      ui, verdict := ui0, None;
      if ui0 < |asm| {
        var l := asm[ui0];
        assert l in asm && LitOk(nVars, l);
        match Value(l) {
          case Some(b) =>
            if b {
              ui := ui0 + 1;
            } else {
              DecisionsAssumed(nVars, db, asm, A(), ui0 + 1);
              assert asm[..ui0 + 1][ui0] == l;
              conflictCore := AssumptionCore(l, asm[..ui0 + 1]);
              assert FailedAt(db, A(), asm, conflictCore, ui0);
              verdict := Some(false);
            }
          case None =>
            Decide(l, asm, ui0);
            ui := ui0 + 1;
        }
      } else {
        var l := PickBranch();
        if l == 0 {
          CompleteModel(nVars, formula, db, A());
          AssumptionsHold(nVars, A(), asm);
          verdict := Some(true);
        } else {
          Decide(l, asm, ui0);
        }
      }
    }

    /** Back to the root, with everything to propagate again: clauses may have come
        since the last call whose watches were false already. */
    method Begin(ghost asm: seq<int>)
      requires Valid()
      modifies `trail, `trailLim, `assign, `level, `reason, `pos, `qhead
      ensures Searching(asm) && |trailLim| == 0
    {
      hide ReasonsOk, DbOk, Means, WatchesOk, TrailOk, WatchInv, DecisionsOk, TopFrom;
      CancelUntil(0);
      qhead := 0;
      RootStart(nVars, db, A(), asm);
    }

    /** The search proper: no empty clause is known. */
    method Search(assumptions: seq<int>) returns (sat: bool)
      requires Searching(assumptions) && |trailLim| == 0 && !empty && ClauseOk(nVars, assumptions) && conflictCore == []
      modifies `db, `watches, `trail, `trailLim, `assign, `level, `reason, `pos, `qhead, `seen, `conflictCore
      ensures Valid()
      ensures sat ==> HoldsAll(TrueVars(A()), formula) && HoldsLits(TrueVars(A()), assumptions)
      ensures !sat ==> Refutes(formula, conflictCore) && forall l | l in conflictCore :: l in assumptions
      ensures !sat ==> CoreOf(db, A(), assumptions, conflictCore)
    {
      hide ReasonsOk, DbOk, Means, WatchesOk, TrailOk, WatchInv, DecisionsOk, Known, TopFrom, AllFalse, TouchesTop,
          Refutes, HoldsAll, HoldsLits, TrueVars, AllClauses, ClauseOk, CoreOf;
      var confl := Propagated(assumptions);
      if confl.Some? {
        RootRefutes(confl.value);
        NoCore(db, A(), assumptions);
        return false;
      }
      var conflicts, restartBase, restartAt := 0, 100, 100;
      var ui: nat := 0;
      while true
        invariant Searching(assumptions) && conflictCore == []
        invariant ui <= |assumptions| && forall k | 0 <= k < ui :: A().True(assumptions[k])
        decreases AllClauses(nVars) - Known(db, A()), Vars(nVars) - assign.Keys, |assumptions| - ui
      {
        confl := Propagated(assumptions);
        if confl.Some? {
          conflicts := conflicts + 1;
          if |trailLim| == 0 {
            RootRefutes(confl.value);
            NoCore(db, A(), assumptions);
            return false;
          }
          Recover(confl.value, assumptions, conflicts >= restartAt);
          ui := 0;
          if conflicts >= restartAt {
            restartBase := if 3 * restartBase / 2 > 100 then 3 * restartBase / 2 else 100;
            restartAt := conflicts + restartBase;
          }
        } else {
          var verdict;
          ui, verdict := Advance(assumptions, ui);
          if verdict.Some? {
            return verdict.value;
          }
        }
      }
    }

    /** Is the formula satisfiable together with the assumptions? If so the
        assignment is a model; if not, `conflictCore` holds assumptions that
        cannot all hold, unless an empty clause was known already: then it is
        left over from the call before. */
    method Solve(assumptions: seq<int>) returns (sat: bool)
      requires Valid() && ClauseOk(nVars, assumptions)
      modifies `db, `watches, `trail, `trailLim, `assign, `level, `reason, `pos, `qhead, `seen, `conflictCore
      ensures Valid()
      ensures sat ==> HoldsAll(TrueVars(A()), formula) && HoldsLits(TrueVars(A()), assumptions)
      ensures !sat ==> Refutes(formula, assumptions) && Refutes(formula, conflictCore)
      ensures !sat ==>
          (CoreAssumed(conflictCore, assumptions) <==> !empty || CoreAssumed(old(conflictCore), assumptions))
      ensures empty ==> !sat && conflictCore == old(conflictCore)
      ensures !sat && !empty ==> CoreOf(db, A(), assumptions, conflictCore)
    {
      hide ReasonsOk, DbOk, Means, WatchesOk, TrailOk, WatchInv, DecisionsOk, TopFrom, Refutes, CoreOf;
      if empty {
        EmptyRefutes(formula, db, A(), empty);
        MoreRefutes(formula, [], assumptions);
        MoreRefutes(formula, [], conflictCore);
        return false;
      }
      conflictCore := [];
      Begin(assumptions);
      sat := Search(assumptions);
      if !sat {
        MoreRefutes(formula, conflictCore, assumptions);
      }
    }

    /** The value of a variable in the model; unassigned counts as false. */
    function GetValue(v: int): (b: bool)
      reads this
      ensures b <==> v in TrueVars(A())
    {
      v in assign && assign[v]
    }
  }

  /** A core left over from an earlier call: with the empty clause known, solve answers
      before it clears the core, and the answer names a literal nobody assumed. */
  method StaleCore() returns (s: Solver, asked: seq<int>, sat: bool)
    ensures fresh(s) && s.Valid() && asked == [2] && !sat && s.formula == [[-1], []]
    ensures 1 in s.conflictCore && !CoreAssumed(s.conflictCore, asked)
  {
    hide Solver.Valid;
    s := new Solver();
    var a := s.NewVar();
    var b := s.NewVar();
    var _ := s.AddClause([-a]);
    FalseModel(s.formula);
    s.EmptyUnsat();
    var first := s.Solve([a]);
    OneRefuted(s.formula, s.conflictCore);
    var _ := s.AddClause([]);
    asked := [b];
    sat := s.Solve(asked);
    assert s.formula == [[-1], []];
  }

  lemma FalseModel(f: seq<seq<int>>)
    requires f == [[-1]]
    ensures !Refutes(f, []) && Refutes(f, [1])
  {
    var m: Model := {};
    assert -1 in f[0] && HoldsLit(m, -1);
    assert HoldsAll(m, f) && HoldsLits(m, []);
    forall m: Model | HoldsAll(m, f) ensures !HoldsLits(m, [1]) {
      assert HoldsClause(m, f[0]) && 1 in [1];
    }
  }

  lemma OneRefuted(f: seq<seq<int>>, core: seq<int>)
    requires f == [[-1]] && CoreAssumed(core, [1]) && Refutes(f, core)
    ensures 1 in core
  {
    var m: Model := {};
    assert -1 in f[0] && HoldsAll(m, f);
    assert !HoldsLits(m, core);
  }
}

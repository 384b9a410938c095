/** What conflict analysis carries from one antecedent to the next, and what the
    clause it ends with is worth. */
module Learning {
  import opened Sets
  import opened Sat
  import opened Trail
  import opened WatchLists

  /** The seen variables of the current level. */
  ghost function Cur(a: Asg, seen: set<int>): set<int> {
    set v | v in seen && v in a.level && a.level[v] == |a.lim|
  }

  /** The seen variables below the current level are exactly the tail's. */
  ghost predicate TailOk(n: nat, a: Asg, seen: set<int>, tail: seq<int>) {
    && DistinctVars(tail)
    && (forall k | 0 <= k < |tail| :: TailLit(n, a, seen, tail[k]))
    && (forall v | v in seen :: SeenVar(a, v, tail))
  }

  ghost predicate TailLit(n: nat, a: Asg, seen: set<int>, q: int) {
    && LitOk(n, q) && a.False(q) && Var(q) in seen
    && Var(q) in a.level && 0 < a.level[Var(q)] < |a.lim|
  }

  ghost predicate SeenVar(a: Asg, v: int, tail: seq<int>) {
    && v >= 1 && v in a.assign && v in a.level && v in a.pos
    && (a.level[v] == |a.lim| || -a.Lit(v) in tail)
  }

  /** The clause being resolved: the tail, and the negations of the seen literals
      of the current level. */
  ghost predicate HoldsRes(m: Model, a: Asg, seen: set<int>, tail: seq<int>) {
    HoldsClause(m, tail) || exists v | v in Cur(a, seen) :: v in a.assign && !HoldsLit(m, a.Lit(v))
  }

  /** The formula entails the clause being resolved, with -p besides unless p is
      0: before the conflict clause itself is added there is nothing yet. */
  ghost predicate Resolved(f: seq<seq<int>>, a: Asg, seen: set<int>, tail: seq<int>, p: int) {
    p == 0 || forall m: Model | HoldsAll(m, f) :: HoldsRes(m, a, seen, tail) || !HoldsLit(m, p)
  }

  ghost predicate Resolvent(f: seq<seq<int>>, a: Asg, seen: set<int>, tail: seq<int>) {
    forall m: Model | HoldsAll(m, f) :: HoldsRes(m, a, seen, tail)
  }

  /** All of the clause but `p` is false, and seen unless it is a root fact. */
  ghost predicate Taken(c: seq<int>, a: Asg, seen: set<int>, p: int) {
    forall q | q in c && q != p :: a.False(q) && Var(q) in a.level && (a.level[Var(q)] > 0 ==> Var(q) in seen)
  }

  lemma ResolveStep(n: nat, f: seq<seq<int>>, db: seq<seq<int>>, a: Asg, empty: bool, c: nat, p: int,
                    seen: set<int>, tail: seq<int>, seen': set<int>, tail': seq<int>)
    requires TrailOk(n, a) && Means(f, db, a, empty) && c < |db| && ClauseOk(n, db[c])
    requires Resolved(f, a, seen, tail, p) && Taken(db[c], a, seen', p) && TailOk(n, a, seen', tail')
    requires seen <= seen' && (forall q | q in tail :: q in tail')
    requires p != 0 ==> LitOk(n, p)
    ensures Resolvent(f, a, seen', tail')
  {
    forall m: Model | HoldsAll(m, f) ensures HoldsRes(m, a, seen', tail') {
      if p != 0 && HoldsRes(m, a, seen, tail) {
        ResGrows(m, a, seen, tail, seen', tail');
      } else {
        assert HoldsClause(m, db[c]);
        var q :| q in db[c] && HoldsLit(m, q);
        TakenLiteral(n, m, a, q, seen', tail') by {
          assert LitOk(n, q);
        }
      }
    }
  }

  lemma ResGrows(m: Model, a: Asg, seen: set<int>, tail: seq<int>, seen': set<int>, tail': seq<int>)
    requires HoldsRes(m, a, seen, tail) && seen <= seen' && (forall q | q in tail :: q in tail')
    ensures HoldsRes(m, a, seen', tail')
  {
    if !HoldsClause(m, tail) {
      var v :| v in Cur(a, seen) && v in a.assign && !HoldsLit(m, a.Lit(v));
      assert v in Cur(a, seen');
    }
  }

  lemma TakenLiteral(n: nat, m: Model, a: Asg, q: int, seen: set<int>, tail: seq<int>)
    requires TailOk(n, a, seen, tail) && RootHolds(m, a) && LitOk(n, q) && HoldsLit(m, q)
    requires a.False(q) && Var(q) in a.level && (a.level[Var(q)] > 0 ==> Var(q) in seen)
    ensures HoldsRes(m, a, seen, tail)
  {
    hide DistinctVars, TailLit;
    var v: int := Var(q);
    assert v in seen ==> SeenVar(a, v, tail);
    assert a.Lit(v) == -q && !HoldsLit(m, a.Lit(v));
    assert a.level[v] > 0;
    if a.level[v] == |a.lim| {
      assert v in Cur(a, seen);
    } else {
      assert q in tail;
    }
  }

  /** The variables above the root that a clause mentions besides `p`. */
  ghost function Marks(c: seq<int>, a: Asg, p: int): set<int> {
    set q | q in c && q != p && Var(q) in a.level && a.level[Var(q)] > 0 :: Var(q) as int
  }

  /** Resolving down the trail from index `idx`, each time on the latest variable of the current level and
      with its antecedent, until only one of them is left: the variables of the clause then. */
  ghost function Left(db: seq<seq<int>>, a: Asg, seen: set<int>, idx: int): set<int>
    decreases idx + 1
  {
    if idx < 0 || idx >= |a.trail| then seen
    else
      var v: int := Var(a.trail[idx]);
      if v !in Cur(a, seen) then Left(db, a, seen, idx - 1)
      else if Cur(a, seen) == {v} || v !in a.reason || a.reason[v] >= |db| then seen
      else Left(db, a, (seen - {v}) + Marks(db[a.reason[v]], a, a.trail[idx]), idx - 1)
  }

  /** What is left at the first unique implication point of a conflict. */
  ghost function FirstUip(db: seq<seq<int>>, a: Asg, confl: nat): set<int>
    requires confl < |db|
  {
    Left(db, a, Marks(db[confl], a, 0), |a.trail| - 1)
  }

  ghost function VarsOf(c: seq<int>): set<int> {
    set q | q in c :: Var(q) as int
  }

  /** Nothing of the current level between: the scan may go on. */
  lemma {:induction false} LeftSkips(db: seq<seq<int>>, a: Asg, seen: set<int>, idx: int, i: nat)
    requires i <= idx < |a.trail| && forall j | i < j <= idx :: Var(a.trail[j]) !in seen
    ensures Left(db, a, seen, idx) == Left(db, a, seen, i)
    decreases idx
  {
    if i < idx {
      LeftSkips(db, a, seen, idx - 1, i);
    }
  }

  lemma MarksNone(a: Asg, p: int)
    ensures Marks([], a, p) == {}
  {
  }

  lemma MarksNext(c: seq<int>, k: nat, a: Asg, p: int)
    requires k < |c|
    ensures Marks(c[..k + 1], a, p) ==
      Marks(c[..k], a, p) +
      (if c[k] != p && Var(c[k]) in a.level && a.level[Var(c[k])] > 0 then {Var(c[k]) as int} else {})
  {
    assert c[..k + 1] == c[..k] + [c[k]];
  }

  lemma CurWithout(a: Asg, seen: set<int>, v: int)
    ensures Cur(a, seen - {v}) == Cur(a, seen) - {v}
    ensures v in Cur(a, seen) ==> v in a.level && a.level[v] == |a.lim| && seen == (seen - {v}) + {v}
  {
  }

  lemma LastLeft(db: seq<seq<int>>, a: Asg, seen: set<int>, i: nat)
    requires i < |a.trail| && Var(a.trail[i]) in Cur(a, seen) && Cur(a, seen) - {Var(a.trail[i])} == {}
    ensures Left(db, a, seen, i) == seen
  {
    hide Cur;
    assert Cur(a, seen) == {Var(a.trail[i]) as int};
  }

  lemma LeftStep(db: seq<seq<int>>, a: Asg, seen: set<int>, i: nat)
    requires i < |a.trail| && Var(a.trail[i]) in Cur(a, seen) && Cur(a, seen) - {Var(a.trail[i])} != {}
    requires Var(a.trail[i]) in a.reason && a.reason[Var(a.trail[i])] < |db|
    ensures Left(db, a, seen, i) ==
      Left(db, a, (seen - {Var(a.trail[i])}) + Marks(db[a.reason[Var(a.trail[i])]], a, a.trail[i]), i - 1)
  {
    hide Cur, Marks;
  }

  lemma SwappedVars(c: seq<int>, j: nat, k: nat)
    requires j < |c| && k < |c|
    ensures VarsOf(Swapped(c, j, k)) == VarsOf(c)
  {
    var d := Swapped(c, j, k);
    assert multiset(d) == multiset(c);
    forall l ensures l in d <==> l in c { assert l in multiset(d) <==> l in multiset(c); }
  }

  /** At the first unique implication point: the clause of what is marked. */
  lemma UipDone(n: nat, f: seq<seq<int>>, a: Asg, marked: set<int>, tail: seq<int>, idx: nat, c: seq<int>)
    requires TrailOk(n, a) && idx < |a.trail| && Var(a.trail[idx]) in Cur(a, marked)
    requires TailOk(n, a, marked - {Var(a.trail[idx])}, tail) && Cur(a, marked - {Var(a.trail[idx])}) == {}
    requires Resolved(f, a, marked - {Var(a.trail[idx])}, tail, a.trail[idx]) && c == [-a.trail[idx]] + tail
    ensures Asserting(n, f, a, c) && VarsOf(c) == marked
    ensures forall v | v in marked :: exists k :: 0 <= k < |c| && Var(c[k]) == v
  {
    hide TrailOk, TailOk, Cur, Resolved, VarsOf;
    var p := a.trail[idx];
    var seen := marked - {Var(p)};
    CurWithout(a, marked, Var(p));
    UipAsserting(n, f, a, seen, tail, idx);
    assert c[1..] == tail && Var(-p) == Var(p);
    SeenCovered(n, a, seen, c);
    assert LitOk(n, c[0]) by { AssertingOk(n, f, a, c); }
    SameVars(a, seen, tail, p, c);
    assert Var(c[0]) == Var(p);
  }

  lemma AssertingOk(n: nat, f: seq<seq<int>>, a: Asg, c: seq<int>)
    requires Asserting(n, f, a, c)
    ensures LitOk(n, c[0])
  {
    assert c[0] in c;
  }

  lemma SameVars(a: Asg, seen: set<int>, tail: seq<int>, p: int, c: seq<int>)
    requires c == [-p] + tail && Var(p) >= 1 && Var(-p) == Var(p)
    requires forall q | q in tail :: Var(q) in seen
    requires forall v | v in seen :: exists k :: 0 <= k < |c| && Var(c[k]) == v
    ensures VarsOf(c) == seen + {Var(p) as int}
  {
    forall v ensures v in VarsOf(c) <==> v in seen + {Var(p) as int} {
      if v in seen {
        var k :| 0 <= k < |c| && Var(c[k]) == v;
        assert c[k] in c;
      }
      assert c[0] == -p && c[0] in c;
    }
  }

  /** The learned clause: entailed, false under the trail, with exactly one
      literal of the current level, so that it asserts that literal's negation
      once the solver is back at level `bj`. */
  ghost predicate Learned(n: nat, f: seq<seq<int>>, a: Asg, learnt: seq<int>, bj: nat) {
    && |learnt| >= 1 && ClauseOk(n, learnt) && DistinctVars(learnt) && AllFalse(learnt, a)
    && Entails(f, learnt)
    && Var(learnt[0]) in a.level && a.level[Var(learnt[0])] == |a.lim|
    && (forall k | 1 <= k < |learnt| ::
         Var(learnt[k]) in a.level && 0 < a.level[Var(learnt[k])] <= bj)
    && (if |learnt| == 1 then bj == 0
        else bj < |a.lim| && Var(learnt[1]) in a.level && a.level[Var(learnt[1])] == bj)
  }

  /** The analysis is done: what is left of the resolvent, as a clause. */
  ghost predicate Asserting(n: nat, f: seq<seq<int>>, a: Asg, c: seq<int>) {
    && |c| >= 1 && ClauseOk(n, c) && DistinctVars(c) && AllFalse(c, a) && Entails(f, c)
    && Var(c[0]) in a.level && a.level[Var(c[0])] == |a.lim|
    && forall k | 1 <= k < |c| :: Var(c[k]) in a.level && 0 < a.level[Var(c[k])] < |a.lim|
  }

  /** At the first unique implication point `p` is all that was left of its level. */
  lemma UipAsserting(n: nat, f: seq<seq<int>>, a: Asg, seen: set<int>, tail: seq<int>, idx: nat)
    requires TrailOk(n, a) && TailOk(n, a, seen, tail) && Cur(a, seen) == {} && idx < |a.trail|
    requires Resolved(f, a, seen, tail, a.trail[idx])
    requires Var(a.trail[idx]) in a.level && a.level[Var(a.trail[idx])] == |a.lim|
    ensures Asserting(n, f, a, [-a.trail[idx]] + tail)
  {
    var p := a.trail[idx];
    assert a.True(p) && LitOk(n, p);
    TailClause(n, a, seen, tail, -p);
    UipEntailed(n, f, a, seen, tail, p);
  }

  lemma TailClause(n: nat, a: Asg, seen: set<int>, tail: seq<int>, l: int)
    requires TailOk(n, a, seen, tail) && LitOk(n, l) && a.False(l)
    requires Var(l) in a.level && a.level[Var(l)] == |a.lim|
    ensures var c := [l] + tail; ClauseOk(n, c) && DistinctVars(c) && AllFalse(c, a)
    ensures forall k | 1 <= k < |[l] + tail| ::
      Var(([l] + tail)[k]) in a.level && 0 < a.level[Var(([l] + tail)[k])] < |a.lim|
  {
    var c := [l] + tail;
    hide SeenVar;
    assert forall k | 1 <= k < |c| :: c[k] == tail[k - 1] && TailLit(n, a, seen, c[k]);
    forall q | q in c ensures LitOk(n, q) && a.False(q) {
      var k :| 0 <= k < |c| && c[k] == q;
    }
    forall j, k | 0 <= j < k < |c| ensures Var(c[j]) != Var(c[k]) {
      assert TailLit(n, a, seen, c[k]) && (j > 0 ==> Var(tail[j - 1]) != Var(tail[k - 1]));
    }
  }

  lemma SeenInTail(n: nat, a: Asg, seen: set<int>, tail: seq<int>, v: int)
    requires TailOk(n, a, seen, tail) && Cur(a, seen) == {} && v in seen
    ensures exists k :: 0 <= k < |tail| && Var(tail[k]) == v
  {
    assert SeenVar(a, v, tail) && (a.level[v] == |a.lim| ==> v in Cur(a, seen));
    var k :| 0 <= k < |tail| && tail[k] == -a.Lit(v);
  }

  lemma SeenCovered(n: nat, a: Asg, seen: set<int>, c: seq<int>)
    requires |c| >= 1 && TailOk(n, a, seen, c[1..]) && Cur(a, seen) == {}
    ensures forall v | v in seen :: exists k :: 0 <= k < |c| && Var(c[k]) == v
    ensures forall q | q in c[1..] :: Var(q) in seen
  {
    forall q | q in c[1..] ensures Var(q) in seen {
      var k :| 0 <= k < |c[1..]| && c[1..][k] == q;
      assert TailLit(n, a, seen, c[1..][k]);
    }
    forall v | v in seen ensures exists k :: 0 <= k < |c| && Var(c[k]) == v {
      SeenInTail(n, a, seen, c[1..], v);
      var k :| 0 <= k < |c[1..]| && Var(c[1..][k]) == v;
      assert c[k + 1] == c[1..][k];
    }
  }

  lemma UipEntailed(n: nat, f: seq<seq<int>>, a: Asg, seen: set<int>, tail: seq<int>, p: int)
    requires Resolved(f, a, seen, tail, p) && Cur(a, seen) == {} && LitOk(n, p)
    ensures Entails(f, [-p] + tail)
  {
    var c := [-p] + tail;
    forall m: Model | HoldsAll(m, f) ensures HoldsClause(m, c) {
      if HoldsLit(m, p) {
        assert HoldsClause(m, tail);
        var q :| q in tail && HoldsLit(m, q);
        assert q in c;
      } else {
        assert -p in c && HoldsLit(m, -p);
      }
    }
  }

  lemma PermutedEntailed(f: seq<seq<int>>, c: seq<int>, d: seq<int>)
    requires Entails(f, c) && SameLits(c, d)
    ensures Entails(f, d)
  {
    forall m: Model | HoldsAll(m, f) ensures HoldsClause(m, d) {
      var q :| q in c && HoldsLit(m, q);
      assert q in d;
    }
  }

  // ---- the steps of the analysis -------------------------------------------

  /** `seen`, `tail` and the current-level count, none of it past trail index `idx`. */
  ghost predicate Marking(n: nat, a: Asg, seen: set<int>, tail: seq<int>, counter: int, idx: int) {
    && TailOk(n, a, seen, tail) && counter == |Cur(a, seen)|
    && forall v | v in Cur(a, seen) :: v in a.pos && a.pos[v] <= idx
  }

  lemma TakenNone(a: Asg, seen: set<int>, p: int)
    ensures Taken([], a, seen, p)
  {
  }

  lemma TakenNext(c: seq<int>, k: nat, a: Asg, seen: set<int>, seen': set<int>, p: int)
    requires k < |c| && Taken(c[..k], a, seen, p) && seen <= seen'
    requires c[k] != p ==> a.False(c[k]) && Var(c[k]) in a.level && (a.level[Var(c[k])] > 0 ==> Var(c[k]) in seen')
    ensures Taken(c[..k + 1], a, seen', p)
  {
    assert c[..k + 1] == c[..k] + [c[k]];
  }

  lemma ClauseFacts(n: nat, db: seq<seq<int>>, a: Asg, c: nat, p: int, idx: int)
    requires TrailOk(n, a) && DbOk(n, db) && c < |db|
    requires forall q | q in db[c] && q != p :: a.False(q) && Var(q) in a.pos && a.pos[Var(q)] <= idx
    ensures ClauseOk(n, db[c])
    ensures forall q | q in db[c] && q != p ::
      a.False(q) && Var(q) in a.pos && Var(q) in a.level && a.level[Var(q)] <= |a.lim|
  {
    LevelsOk(n, a);
  }

  lemma LevelsOk(n: nat, a: Asg)
    requires TrailOk(n, a)
    ensures forall v | v in a.assign :: v in a.level && a.level[v] <= |a.lim|
  {
    forall v | v in a.assign ensures a.level[v] <= |a.lim| { assert LevelOk(a, v); }
  }

  lemma MarkingTail(n: nat, a: Asg, seen: set<int>, tail: seq<int>, counter: int, idx: int)
    requires Marking(n, a, seen, tail, counter, idx)
    ensures TailOk(n, a, seen, tail)
  {
  }

  lemma MarkingCount(n: nat, a: Asg, seen: set<int>, tail: seq<int>, counter: int, idx: int)
    requires Marking(n, a, seen, tail, counter, idx)
    ensures TailOk(n, a, seen, tail) && counter == |Cur(a, seen)|
    ensures counter <= 0 ==> Cur(a, seen) == {}
  {
  }

  lemma MarkCurrent(n: nat, a: Asg, seen: set<int>, tail: seq<int>, counter: int, idx: int, q: int)
    requires TrailOk(n, a) && Marking(n, a, seen, tail, counter, idx)
    requires LitOk(n, q) && a.False(q) && a.level[Var(q)] == |a.lim| && a.pos[Var(q)] <= idx && Var(q) !in seen
    ensures Marking(n, a, seen + {Var(q)}, tail, counter + 1, idx)
  {
    var v: int := Var(q);
    assert v in a.pos;
    hide TrailOk;
    assert Cur(a, seen + {v}) == Cur(a, seen) + {v};
    assert SeenVar(a, v, tail);
    hide SeenVar;
    forall k | 0 <= k < |tail| ensures TailLit(n, a, seen + {v}, tail[k]) {
      assert TailLit(n, a, seen, tail[k]);
    }
  }

  lemma MarkLower(n: nat, a: Asg, seen: set<int>, tail: seq<int>, counter: int, idx: int, q: int)
    requires TrailOk(n, a) && Marking(n, a, seen, tail, counter, idx) && LitOk(n, q)
    requires a.False(q) && 0 < a.level[Var(q)] < |a.lim| && Var(q) !in seen
    ensures Marking(n, a, seen + {Var(q)}, tail + [q], counter, idx)
  {
    var v: int := Var(q);
    assert v in a.pos;
    assert Cur(a, seen + {v}) == Cur(a, seen);
    hide TrailOk;
    TailGrows(n, a, seen, tail, q);
  }

  lemma TailGrows(n: nat, a: Asg, seen: set<int>, tail: seq<int>, q: int)
    requires TailOk(n, a, seen, tail) && LitOk(n, q) && a.False(q) && Var(q) !in seen
    requires Var(q) in a.pos && Var(q) in a.level && 0 < a.level[Var(q)] < |a.lim|
    ensures TailOk(n, a, seen + {Var(q)}, tail + [q])
  {
    var tail', seen' := tail + [q], seen + {Var(q)};
    forall j, k | 0 <= j < k < |tail'| ensures Var(tail'[j]) != Var(tail'[k]) {
      assert TailLit(n, a, seen, tail[j]) && tail'[j] == tail[j];
    }
    forall k | 0 <= k < |tail'| ensures TailLit(n, a, seen', tail'[k]) {
      assert k < |tail| ==> TailLit(n, a, seen, tail[k]);
    }
    hide TailLit;
    forall v | v in seen' ensures SeenVar(a, v, tail') {
      if v == Var(q) {
        assert -a.Lit(v) == q && q in tail';
      } else {
        assert SeenVar(a, v, tail);
      }
    }
  }

  /** Resolving on the trail literal `p` takes it out of the marks. */
  lemma Unmark(n: nat, f: seq<seq<int>>, a: Asg, seen: set<int>, tail: seq<int>, counter: int, idx: nat)
    requires TrailOk(n, a) && Marking(n, a, seen, tail, counter, idx) && idx < |a.trail|
    requires Var(a.trail[idx]) in Cur(a, seen) && Resolvent(f, a, seen, tail)
    ensures Marking(n, a, seen - {Var(a.trail[idx])}, tail, counter - 1, idx - 1)
    ensures Resolved(f, a, seen - {Var(a.trail[idx])}, tail, a.trail[idx]) && LitOk(n, a.trail[idx])
  {
    var p := a.trail[idx];
    var v: int := Var(p);
    assert a.True(p) && a.pos[v] == idx && a.Lit(v) == p;
    var seen' := seen - {v};
    assert Cur(a, seen') == Cur(a, seen) - {v};
    forall u | u in Cur(a, seen') ensures u in a.pos && a.pos[u] <= idx - 1 {
      assert u in Cur(a, seen) && Var(a.trail[a.pos[u]]) == u;
    }
    hide TrailOk;
    TailShrinks(n, a, seen, tail, v);
    ResShrinks(f, a, seen, tail, p);
  }

  lemma TailShrinks(n: nat, a: Asg, seen: set<int>, tail: seq<int>, v: int)
    requires TailOk(n, a, seen, tail) && v in Cur(a, seen)
    ensures TailOk(n, a, seen - {v}, tail)
  {
    forall k | 0 <= k < |tail| ensures TailLit(n, a, seen - {v}, tail[k]) {
      assert TailLit(n, a, seen, tail[k]);
    }
    hide TailLit, SeenVar;
  }

  lemma ResShrinks(f: seq<seq<int>>, a: Asg, seen: set<int>, tail: seq<int>, p: int)
    requires Resolvent(f, a, seen, tail) && Var(p) in a.assign && a.Lit(Var(p)) == p
    ensures Resolved(f, a, seen - {Var(p)}, tail, p)
  {
    var v: int := Var(p);
    forall m: Model | HoldsAll(m, f) ensures HoldsRes(m, a, seen - {v}, tail) || !HoldsLit(m, p) {
      assert HoldsRes(m, a, seen, tail);
      if !HoldsClause(m, tail) {
        var u: int :| u in Cur(a, seen) && u in a.assign && !HoldsLit(m, a.Lit(u));
        assert u == v || u in Cur(a, seen - {v});
      }
    }
  }

  /** A marked literal of the current level that is not the last one left has an
      antecedent: only the decision has none, and it comes first. */
  lemma HasReason(n: nat, db: seq<seq<int>>, a: Asg, seen: set<int>, tail: seq<int>, counter: int, idx: nat)
    requires TrailOk(n, a) && ReasonsOk(db, a) && idx < |a.trail| && 0 < |a.lim| && counter > 0
    requires Marking(n, a, seen, tail, counter, idx - 1)
    requires Var(a.trail[idx]) in a.level && a.level[Var(a.trail[idx])] == |a.lim|
    ensures Var(a.trail[idx]) in a.reason && a.reason[Var(a.trail[idx])] < |db|
    ensures forall q | q in db[a.reason[Var(a.trail[idx])]] && q != a.trail[idx] ::
      a.False(q) && Var(q) in a.pos && a.pos[Var(q)] <= idx - 1
  {
    var v: int := Var(a.trail[idx]);
    assert a.True(a.trail[idx]) && a.pos[v] == idx && a.Lit(v) == a.trail[idx];
    var u := Pick(Cur(a, seen));
    assert u in a.assign by { assert SeenVar(a, u, tail); }
    assert LevelOk(a, u) && a.lim[|a.lim| - 1] <= a.pos[u] < idx;
    assert v in a.reason;
    assert Forces(db[a.reason[v]], a, v);
  }

  /** The first seen literal found scanning down the trail is of the current level. */
  lemma SeenOnTop(n: nat, a: Asg, seen: set<int>, tail: seq<int>, counter: int, idx: nat)
    requires TrailOk(n, a) && Marking(n, a, seen, tail, counter, idx) && counter > 0
    ensures 0 < |a.lim| ==> idx >= a.lim[|a.lim| - 1]
    ensures idx < |a.trail| && 0 < |a.lim| && Var(a.trail[idx]) in seen ==> Var(a.trail[idx]) in Cur(a, seen)
    ensures idx < |a.trail| && Var(a.trail[idx]) !in seen ==>
      idx > 0 && Marking(n, a, seen, tail, counter, idx - 1)
  {
    var u := Pick(Cur(a, seen));
    assert SeenVar(a, u, tail);
    assert LevelOk(a, u);
    if idx < |a.trail| {
      var v: int := Var(a.trail[idx]);
      assert a.True(a.trail[idx]) && a.pos[v] == idx && LevelOk(a, v);
      if v !in seen {
        forall w | w in Cur(a, seen) ensures a.pos[w] <= idx - 1 {
          assert SeenVar(a, w, tail);
          assert Var(a.trail[a.pos[w]]) == w;
        }
      }
    }
  }

  ghost predicate TouchesTop(c: seq<int>, a: Asg) {
    exists l | l in c :: Var(l) in a.level && a.level[Var(l)] == |a.lim|
  }

  lemma ConflictStart(n: nat, a: Asg, c: seq<int>)
    requires TrailOk(n, a) && ClauseOk(n, c) && AllFalse(c, a)
    ensures Marking(n, a, {}, [], 0, |a.trail| - 1)
    ensures forall q | q in c :: a.False(q) && Var(q) in a.pos && a.pos[Var(q)] <= |a.trail| - 1
  {
    assert Cur(a, {}) == {};
  }

  /** There is a literal of the current level to resolve on: from before, or from
      the conflict clause itself. */
  lemma SomeMarked(n: nat, a: Asg, before: set<int>, seen: set<int>, tail: seq<int>, counter: int, idx: int,
      c: seq<int>)
    requires Marking(n, a, seen, tail, counter, idx) && before <= seen && 0 < |a.lim|
    requires |Cur(a, before)| > 0 || (Taken(c, a, seen, 0) && ClauseOk(n, c) && TouchesTop(c, a))
    ensures counter > 0 && idx >= 0
  {
    if |Cur(a, before)| > 0 {
      var u := Pick(Cur(a, before));
      assert u in Cur(a, seen) && SeenVar(a, u, tail);
    } else {
      var l :| l in c && Var(l) in a.level && a.level[Var(l)] == |a.lim|;
      assert LitOk(n, l) && Var(l) in seen;
      assert Var(l) in Cur(a, seen) && SeenVar(a, Var(l), tail);
    }
  }

  lemma LearnedFrom(n: nat, f: seq<seq<int>>, a: Asg, c: seq<int>, mx: nat)
    requires Asserting(n, f, a, c) && 1 <= mx < |c|
    requires forall k | 1 <= k < |c| :: a.level[Var(c[k])] <= a.level[Var(c[mx])]
    ensures Learned(n, f, a, Swapped(c, 1, mx), a.level[Var(c[mx])])
  {
    SwapKeeps(n, c, 1, mx);
    PermutedEntailed(f, c, Swapped(c, 1, mx));
  }

  /** More than one marked literal of the level: resolve on the latest with its antecedent. */
  lemma ResolveOn(n: nat, db: seq<seq<int>>, a: Asg, marked: set<int>, tail: seq<int>, counter: int, i: nat)
    requires TrailOk(n, a) && ReasonsOk(db, a) && i < |a.trail| && 0 < |a.lim| && counter > 0
    requires Var(a.trail[i]) in Cur(a, marked) && Marking(n, a, marked - {Var(a.trail[i])}, tail, counter, i - 1)
    ensures Var(a.trail[i]) in a.reason && a.reason[Var(a.trail[i])] < |db|
    ensures var c := db[a.reason[Var(a.trail[i])]];
      && (forall q | q in c && q != a.trail[i] :: a.False(q) && Var(q) in a.pos && a.pos[Var(q)] <= i - 1)
      && Left(db, a, (marked - {Var(a.trail[i])}) + Marks(c, a, a.trail[i]), i - 1) == Left(db, a, marked, i)
    ensures |Cur(a, marked - {Var(a.trail[i])})| > 0
  {
    hide TrailOk, ReasonsOk, Marking, Cur, Left, Marks;
    var v := Var(a.trail[i]);
    MarkingCount(n, a, marked - {v}, tail, counter, i - 1);
    CurWithout(a, marked, v);
    HasReason(n, db, a, marked - {v}, tail, counter, i);
    LeftStep(db, a, marked, i);
  }

  /** None but this one: the scan ends here. */
  lemma ResolveEnds(n: nat, db: seq<seq<int>>, a: Asg, marked: set<int>, tail: seq<int>, counter: int, i: nat)
    requires i < |a.trail| && counter <= 0
    requires Var(a.trail[i]) in Cur(a, marked) && Marking(n, a, marked - {Var(a.trail[i])}, tail, counter, i - 1)
    ensures TailOk(n, a, marked - {Var(a.trail[i])}, tail) && Cur(a, marked - {Var(a.trail[i])}) == {}
    ensures Left(db, a, marked, i) == marked
  {
    hide Marking, Cur, Left;
    MarkingCount(n, a, marked - {Var(a.trail[i])}, tail, counter, i - 1);
    CurWithout(a, marked, Var(a.trail[i]));
    LastLeft(db, a, marked, i);
  }
}

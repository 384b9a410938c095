/** What adding a variable or a clause does to the solver's state. */
module Formula {
  import opened Sat
  import opened Trail
  import opened WatchLists

  lemma NewVarKeeps(n: nat, db: seq<seq<int>>, a: Asg, ws: map<int, seq<nat>>)
    requires DbOk(n, db) && TrailOk(n, a) && WatchesOk(n, db, ws)
    ensures DbOk(n + 1, db) && TrailOk(n + 1, a)
    ensures WatchesOk(n + 1, db, ws[n + 1 := []][-(n + 1) := []])
  {
    forall c | 0 <= c < |db| ensures ClauseOk(n + 1, db[c]) {
      assert ClauseOk(n, db[c]);
    }
    forall i | 0 <= i < |a.trail| ensures LitOk(n + 1, a.trail[i]) {
      assert LitOk(n, a.trail[i]);
    }
    var v: int := n + 1;
    var ws' := ws[v := []][-v := []];
    forall p | LitOk(n + 1, p) ensures p in ws' && ListOk(db, ws'[p], p) {
      assert LitOk(n, p) ==> p in ws && ListOk(db, ws[p], p);
    }
    forall c | 0 <= c < |db| ensures Listed(db[c], c, ws') {
      assert Listed(db[c], c, ws) && ClauseOk(n, db[c]);
      assert LitOk(n, db[c][0]) && LitOk(n, db[c][1]);
    }
  }

  lemma FormulaGrows(n: nat, f: seq<seq<int>>)
    requires forall i | 0 <= i < |f| :: ClauseOk(n, f[i])
    ensures forall i | 0 <= i < |f| :: ClauseOk(n + 1, f[i])
  {
    forall i | 0 <= i < |f| ensures ClauseOk(n + 1, f[i]) {
      assert ClauseOk(n, f[i]);
    }
  }

  lemma EmptyRefutes(f: seq<seq<int>>, db: seq<seq<int>>, a: Asg, empty: bool)
    requires Means(f, db, a, empty)
    ensures empty ==> Refutes(f, [])
  {
  }

  lemma DistinctAppend(c: seq<int>, l: int)
    requires DistinctVars(c) && l !in c && -l !in c
    ensures DistinctVars(c + [l])
  {
    assert forall k | 0 <= k < |c| :: c[k] in c;
  }

  ghost predicate Tautology(c: seq<int>) {
    exists l :: l in c && -l in c && l != 0
  }

  lemma TautologyMeans(f: seq<seq<int>>, db: seq<seq<int>>, a: Asg, empty: bool, c: seq<int>)
    requires Means(f, db, a, empty) && Tautology(c)
    ensures Means(f + [c], db, a, empty)
  {
    var l :| l in c && -l in c && l != 0;
    forall m: Model ensures HoldsAll(m, f + [c]) <==> HoldsAll(m, f) {
      HoldsAllAppend(m, f, c);
      assert HoldsLit(m, l) || HoldsLit(m, -l);
    }
  }

  lemma EmptyMeans(f: seq<seq<int>>, db: seq<seq<int>>, a: Asg, empty: bool, c: seq<int>)
    requires Means(f, db, a, empty)
    requires forall m: Model | RootHolds(m, a) :: !HoldsClause(m, c)
    ensures Means(f + [c], db, a, true)
  {
    forall m: Model ensures !HoldsAll(m, f + [c]) {
      HoldsAllAppend(m, f, c);
    }
  }

  lemma ClauseMeans(f: seq<seq<int>>, db: seq<seq<int>>, a: Asg, empty: bool, c: seq<int>, d: seq<int>)
    requires Means(f, db, a, empty) && SameLits(c, d)
    ensures Means(f + [c], db + [d], a, empty)
  {
    forall m: Model ensures HoldsAll(m, f + [c]) <==> HoldsAll(m, f) && HoldsClause(m, d)
      ensures HoldsAll(m, db + [d]) <==> HoldsAll(m, db) && HoldsClause(m, d)
    {
      HoldsAllAppend(m, f, c);
      HoldsAllAppend(m, db, d);
      SameHolds(m, c, d);
    }
  }

  lemma SameHolds(m: Model, c: seq<int>, d: seq<int>)
    requires SameLits(c, d)
    ensures HoldsClause(m, c) <==> HoldsClause(m, d)
  {
  }

  lemma FreeUnitMeans(n: nat, f: seq<seq<int>>, db: seq<seq<int>>, a: Asg, empty: bool, c: seq<int>, l: int)
    requires TrailOk(n, a) && Means(f, db, a, empty) && |a.lim| == 0
    requires SameLits(c, [l]) && LitOk(n, l) && Var(l) !in a.assign
    ensures Means(f + [c], db, a.Push(l, None), empty)
  {
    forall m: Model
      ensures HoldsAll(m, f + [c]) <==> HoldsAll(m, f) && HoldsLit(m, l)
      ensures RootHolds(m, a.Push(l, None)) <==> RootHolds(m, a) && HoldsLit(m, l)
    {
      HoldsAllAppend(m, f, c);
      UnitHolds(m, c, l);
      RootPush(n, m, a, l, None);
    }
  }

  lemma UnitHolds(m: Model, c: seq<int>, l: int)
    requires SameLits(c, [l])
    ensures HoldsClause(m, c) <==> HoldsLit(m, l)
  {
    assert l in [l];
  }

  /** A unit clause over a root-assigned variable: redundant, or a contradiction. */
  lemma KnownUnitMeans(n: nat, f: seq<seq<int>>, db: seq<seq<int>>, a: Asg, empty: bool, c: seq<int>, l: int)
    requires TrailOk(n, a) && Means(f, db, a, empty) && |a.lim| == 0
    requires SameLits(c, [l]) && LitOk(n, l) && Var(l) in a.assign
    ensures Means(f + [c], db, a, empty || a.False(l))
  {
    assert LevelOk(a, Var(l));
    forall m: Model
      ensures HoldsAll(m, f + [c]) <==> HoldsAll(m, f) && HoldsLit(m, l)
      ensures RootHolds(m, a) ==> (HoldsLit(m, l) <==> a.True(l))
    {
      HoldsAllAppend(m, f, c);
      UnitHolds(m, c, l);
      assert RootHolds(m, a) ==> HoldsLit(m, a.Lit(Var(l)));
    }
  }

  lemma AppendDb(n: nat, db: seq<seq<int>>, c: seq<int>)
    requires DbOk(n, db) && |c| >= 2 && ClauseOk(n, c) && DistinctVars(c)
    ensures DbOk(n, db + [c])
  {
  }

  lemma AppendReasons(db: seq<seq<int>>, a: Asg, c: seq<int>)
    requires ReasonsOk(db, a)
    ensures ReasonsOk(db + [c], a)
  {
    forall v | v in a.assign && v in a.reason ensures Forces((db + [c])[a.reason[v]], a, v) {
      assert Forces(db[a.reason[v]], a, v);
    }
  }
}

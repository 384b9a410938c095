/** What moving watches about, and permuting a clause in place, keeps true. */
module WatchLists {
  import opened Sat
  import opened Trail

  function Swapped(c: seq<int>, j: nat, k: nat): seq<int>
    requires j < |c| && k < |c|
  {
    c[j := c[k]][k := c[j]]
  }

  ghost predicate SameLits(c: seq<int>, d: seq<int>) {
    forall l :: l in c <==> l in d
  }

  /** The same clauses, up to the order of the literals inside each. */
  ghost predicate SameDb(db: seq<seq<int>>, db': seq<seq<int>>) {
    |db| == |db'| && forall c | 0 <= c < |db| :: SameLits(db[c], db'[c])
  }

  lemma SwapKeeps(n: nat, c: seq<int>, j: nat, k: nat)
    requires j < |c| && k < |c| && DistinctVars(c) && ClauseOk(n, c)
    ensures SameLits(c, Swapped(c, j, k))
    ensures DistinctVars(Swapped(c, j, k)) && ClauseOk(n, Swapped(c, j, k))
  {
    var d := Swapped(c, j, k);
    forall l ensures l in c <==> l in d {
      if l in c {
        var i :| 0 <= i < |c| && c[i] == l;
        assert d[if i == j then k else if i == k then j else i] == l;
      }
    }
  }

  /** `d` is clause `c` with its literals in another order. */
  ghost predicate Permuted(n: nat, c: seq<int>, d: seq<int>) {
    |c| == |d| && SameLits(c, d) && DistinctVars(d) && ClauseOk(n, d)
  }

  ghost predicate SamePair(c: seq<int>, d: seq<int>) {
    |c| >= 2 && |d| >= 2
    && ((d[0] == c[0] && d[1] == c[1]) || (d[0] == c[1] && d[1] == c[0]))
  }

  /** The watch `-p`, if the clause has it first, moved to second place. */
  function Facing(c: seq<int>, p: int): seq<int>
    requires |c| >= 2
  {
    if c[0] == -p then Swapped(c, 0, 1) else c
  }

  lemma FacingKeeps(n: nat, c: seq<int>, p: int)
    requires DistinctVars(c) && ClauseOk(n, c) && Watching(c, p)
    ensures Permuted(n, c, Facing(c, p)) && SamePair(c, Facing(c, p))
    ensures Facing(c, p)[1] == -p && Facing(c, p)[0] != -p
    ensures LitOk(n, Facing(c, p)[0]) && LitOk(n, -p)
  {
    SwapKeeps(n, c, 0, 1);
    assert c[0] in c && c[1] in c;
  }

  lemma SameDbSelf(db: seq<seq<int>>)
    ensures SameDb(db, db)
  {
  }

  lemma SameDbTrans(db: seq<seq<int>>, db': seq<seq<int>>, db'': seq<seq<int>>)
    requires SameDb(db, db') && SameDb(db', db'')
    ensures SameDb(db, db'')
  {
    forall c | 0 <= c < |db| ensures SameLits(db[c], db''[c]) {
      assert SameLits(db[c], db'[c]) && SameLits(db'[c], db''[c]);
    }
  }

  lemma PermutedDb(n: nat, db: seq<seq<int>>, c: nat, d: seq<int>)
    requires DbOk(n, db) && c < |db| && Permuted(n, db[c], d)
    ensures DbOk(n, db[c := d]) && SameDb(db, db[c := d])
  {
  }

  lemma SameDbReasons(db: seq<seq<int>>, db': seq<seq<int>>, a: Asg)
    requires SameDb(db, db') && ReasonsOk(db, a)
    ensures ReasonsOk(db', a)
  {
    forall v | v in a.assign && v in a.reason ensures Forces(db'[a.reason[v]], a, v) {
      assert Forces(db[a.reason[v]], a, v);
      assert SameLits(db[a.reason[v]], db'[a.reason[v]]);
    }
  }

  lemma SameDbHolds(m: Model, db: seq<seq<int>>, db': seq<seq<int>>)
    requires SameDb(db, db') && HoldsAll(m, db)
    ensures HoldsAll(m, db')
  {
    forall c | 0 <= c < |db'| ensures HoldsClause(m, db'[c]) {
      assert HoldsClause(m, db[c]);
      assert SameLits(db[c], db'[c]);
    }
  }

  lemma SameDbMeans(f: seq<seq<int>>, db: seq<seq<int>>, db': seq<seq<int>>, a: Asg, empty: bool)
    requires SameDb(db, db') && Means(f, db, a, empty)
    ensures Means(f, db', a, empty)
  {
    forall m: Model
      ensures HoldsAll(m, f) ==> !empty && HoldsAll(m, db') && RootHolds(m, a)
      ensures !empty && HoldsAll(m, db') && RootHolds(m, a) ==> HoldsAll(m, f)
    {
      if HoldsAll(m, db) { SameDbHolds(m, db, db'); }
      if HoldsAll(m, db') { SameDbHolds(m, db', db); }
    }
  }

  /** An implied literal adds nothing to what the root literals say. */
  lemma ImpliedMeans(n: nat, f: seq<seq<int>>, db: seq<seq<int>>, a: Asg, empty: bool, l: int, r: nat)
    requires TrailOk(n, a) && Means(f, db, a, empty)
    requires r < |db| && Unit(db[r], a, l) && LitOk(n, l) && Var(l) !in a.assign
    ensures Means(f, db, a.Push(l, Some(r)), empty)
  {
    var b := a.Push(l, Some(r));
    forall m: Model | HoldsAll(m, db) ensures RootHolds(m, a) <==> RootHolds(m, b) {
      if RootHolds(m, b) { RootPush(n, m, a, l, Some(r)); }
      if RootHolds(m, a) {
        if |a.lim| == 0 {
          forall q | q in db[r] && q != l ensures !HoldsLit(m, q) {
            assert a.False(q) && LevelOk(a, Var(q));
            assert HoldsLit(m, a.Lit(Var(q)));
          }
          assert HoldsClause(m, db[r]);
        }
        RootPush(n, m, a, l, Some(r));
      }
    }
  }

  lemma RootPush(n: nat, m: Model, a: Asg, l: int, r: Option<nat>)
    requires TrailOk(n, a) && LitOk(n, l) && Var(l) !in a.assign
    ensures RootHolds(m, a.Push(l, r)) <==> RootHolds(m, a) && (|a.lim| == 0 ==> HoldsLit(m, l))
  {
    var b := a.Push(l, r);
    if RootHolds(m, b) {
      forall v | v in a.assign && a.level[v] == 0 ensures HoldsLit(m, a.Lit(v)) {
        assert v in b.assign && b.Lit(v) == a.Lit(v);
      }
      if |a.lim| == 0 { assert b.Lit(Var(l)) == l; }
    }
  }

  lemma DecideMeans(n: nat, f: seq<seq<int>>, db: seq<seq<int>>, a: Asg, empty: bool, l: int)
    requires TrailOk(n, a) && Means(f, db, a, empty) && LitOk(n, l) && Var(l) !in a.assign
    ensures Means(f, db, a.NewLevel().Push(l, None), empty)
  {
    var b := a.NewLevel();
    NewLevelKeepsTrail(n, a);
    forall m: Model ensures RootHolds(m, a) <==> RootHolds(m, b.Push(l, None)) {
      RootPush(n, m, b, l, None);
      assert forall v | v in a.assign :: a.Lit(v) == b.Lit(v);
    }
  }

  lemma CutMeans(n: nat, f: seq<seq<int>>, db: seq<seq<int>>, a: Asg, empty: bool, lvl: nat)
    requires TrailOk(n, a) && Means(f, db, a, empty) && lvl < |a.lim|
    ensures Means(f, db, a.Cut(lvl), empty)
  {
    var b := a.Cut(lvl);
    forall m: Model ensures RootHolds(m, a) <==> RootHolds(m, b) {
      forall v | v in a.assign && a.level[v] == 0 ensures v in b.assign && b.Lit(v) == a.Lit(v) {
        assert LevelOk(a, v);
      }
      assert forall v | v in b.assign :: b.Lit(v) == a.Lit(v);
    }
  }

  // ---- the lists -----------------------------------------------------------

  /** Permuting a clause without changing its pair of watches. */
  lemma PermutedWatches(n: nat, db: seq<seq<int>>, ws: map<int, seq<nat>>, c: nat, d: seq<int>)
    requires WatchesOk(n, db, ws) && c < |db| && SamePair(db[c], d)
    ensures WatchesOk(n, db[c := d], ws)
  {
    var e := db[c := d];
    forall p | LitOk(n, p) ensures p in ws && ListOk(e, ws[p], p) {
      assert ListOk(db, ws[p], p);
      forall k | 0 <= k < |ws[p]| ensures ws[p][k] < |e| && Watching(e[ws[p][k]], p) {
        assert Watching(db[ws[p][k]], p);
      }
    }
    forall b | 0 <= b < |e| ensures Listed(e[b], b, ws) {
      assert Listed(db[b], b, ws);
    }
  }

  /** Growing or changing the table away from a list leaves the list right. */
  lemma ListKept(db: seq<seq<int>>, e: seq<seq<int>>, ws: seq<nat>, p: int)
    requires ListOk(db, ws, p) && |db| <= |e|
    requires forall b | b in ws && b < |db| :: e[b] == db[b]
    ensures ListOk(e, ws, p)
  {
    forall k | 0 <= k < |ws| ensures ws[k] < |e| && Watching(e[ws[k]], p) {
      assert Watching(db[ws[k]], p) && ws[k] in ws;
    }
  }

  lemma ListDropped(db: seq<seq<int>>, front: seq<nat>, c: nat, back: seq<nat>, p: int)
    requires ListOk(db, front + [c] + back, p)
    ensures ListOk(db, front + back, p) && c !in front + back
    ensures forall b :: b in front + [c] + back <==> b == c || b in front + back
  {
    var ws, fb := front + [c] + back, front + back;
    forall k | 0 <= k < |fb| ensures fb[k] < |db| && Watching(db[fb[k]], p) && fb[k] != c {
      var k' := if k < |front| then k else k + 1;
      assert ws[k'] == fb[k] && ws[|front|] == c;
    }
    forall j, k | 0 <= j < k < |fb| ensures fb[j] != fb[k] {
      var j' := if j < |front| then j else j + 1;
      var k' := if k < |front| then k else k + 1;
      assert ws[j'] == fb[j] && ws[k'] == fb[k];
    }
  }

  lemma ListAppended(db: seq<seq<int>>, ws: seq<nat>, c: nat, p: int)
    requires ListOk(db, ws, p) && c !in ws && c < |db| && Watching(db[c], p)
    ensures ListOk(db, ws + [c], p)
  {
  }

  /** One clause, its old watch `-p` traded for `d[1]`. */
  ghost predicate Trade(db: seq<seq<int>>, c: nat, d: seq<int>, p: int) {
    && c < |db| && |d| >= 2 && |db[c]| >= 2
    && d[0] != d[1] && d[0] != -p
    && ((db[c][0] == d[0] && db[c][1] == -p) || (db[c][0] == -p && db[c][1] == d[0]))
    && d[1] != db[c][0] && d[1] != db[c][1]
  }

  lemma NotYetListed(db: seq<seq<int>>, c: nat, d: seq<int>, p: int, ws: seq<nat>)
    requires Trade(db, c, d, p) && ListOk(db, ws, -d[1])
    ensures c !in ws
  {
    forall k | 0 <= k < |ws| ensures ws[k] != c {
      assert Watching(db[ws[k]], -d[1]);
    }
  }

  lemma OtherListKept(db: seq<seq<int>>, c: nat, d: seq<int>, p: int, ws: seq<nat>, q: int)
    requires Trade(db, c, d, p) && ListOk(db, ws, q) && q != p && q != -d[1]
    ensures ListOk(db[c := d], ws, q)
  {
    forall k | 0 <= k < |ws| ensures Watching(db[c := d][ws[k]], q) {
      assert Watching(db[ws[k]], q);
    }
  }

  ghost function Moved(ws: map<int, seq<nat>>, p: int, fewer: seq<nat>, r: int, c: nat): map<int, seq<nat>>
    requires r in ws
  {
    ws[p := fewer][r := ws[r] + [c]]
  }

  lemma MovedList(n: nat, db: seq<seq<int>>, ws: map<int, seq<nat>>, c: nat, d: seq<int>,
                  p: int, fewer: seq<nat>, q: int)
    requires Trade(db, c, d, p) && -d[1] in ws && q in ws && p in ws && p != -d[1]
    requires ListOk(db, ws[q], q) && ListOk(db, ws[-d[1]], -d[1]) && ListOk(db, fewer, p) && c !in fewer
    ensures ListOk(db[c := d], Moved(ws, p, fewer, -d[1], c)[q], q)
  {
    var e, r := db[c := d], -d[1];
    if q == p {
      ListKept(db, e, fewer, p);
    } else if q == r {
      NotYetListed(db, c, d, p, ws[r]);
      ListKept(db, e, ws[r], r);
      ListAppended(e, ws[r], c, r);
    } else {
      OtherListKept(db, c, d, p, ws[q], q);
    }
  }

  lemma MovedLists(n: nat, db: seq<seq<int>>, ws: map<int, seq<nat>>, c: nat, d: seq<int>, p: int, fewer: seq<nat>)
    requires Trade(db, c, d, p) && LitOk(n, p) && LitOk(n, -d[1]) && p != -d[1]
    requires forall q | LitOk(n, q) :: q in ws && ListOk(db, ws[q], q)
    requires ListOk(db, fewer, p) && c !in fewer
    ensures forall q | LitOk(n, q) ::
      q in Moved(ws, p, fewer, -d[1], c) && ListOk(db[c := d], Moved(ws, p, fewer, -d[1], c)[q], q)
  {
    hide ListOk;
    assert -d[1] in ws && ListOk(db, ws[-d[1]], -d[1]);
    forall q | LitOk(n, q)
      ensures q in Moved(ws, p, fewer, -d[1], c) && ListOk(db[c := d], Moved(ws, p, fewer, -d[1], c)[q], q)
    {
      MovedList(n, db, ws, c, d, p, fewer, q);
    }
  }

  /** The clause leaves the list of `p` and joins the list of its new watch. */
  lemma MovedWatch(n: nat, db: seq<seq<int>>, ws: map<int, seq<nat>>, c: nat, d: seq<int>,
                   p: int, front: seq<nat>, back: seq<nat>)
    requires WatchesOk(n, db, ws) && Trade(db, c, d, p)
    requires LitOk(n, p) && LitOk(n, d[1])
    requires ws[p] == front + [c] + back
    ensures -d[1] in ws && WatchesOk(n, db[c := d], Moved(ws, p, front + back, -d[1], c))
  {
    hide ListOk, Listed, Moved, Trade, WatchesOk;
    TradeKeeps(db, c, d, p);
    ListsGiven(n, db, ws, p, d[1]);
    var e, ws' := db[c := d], Moved(ws, p, front + back, -d[1], c);
    ListDropped(db, front, c, back, p);
    MovedLists(n, db, ws, c, d, p, front + back);
    forall b | 0 <= b < |e| ensures Listed(e[b], b, ws') {
      StillListed(db, ws, c, d, p, front, back, b);
    }
    WatchesFrom(n, e, ws');
  }

  lemma ListsGiven(n: nat, db: seq<seq<int>>, ws: map<int, seq<nat>>, p: int, d: int)
    requires WatchesOk(n, db, ws) && LitOk(n, p) && LitOk(n, d)
    ensures p in ws && ListOk(db, ws[p], p) && LitOk(n, -d) && -d in ws
    ensures forall q | LitOk(n, q) :: q in ws && ListOk(db, ws[q], q)
    ensures forall b | 0 <= b < |db| :: Listed(db[b], b, ws)
  {
  }

  lemma TradeKeeps(db: seq<seq<int>>, c: nat, d: seq<int>, p: int)
    requires Trade(db, c, d, p)
    ensures c < |db| && |d| >= 2 && p != -d[1]
  {
  }

  lemma WatchesFrom(n: nat, db: seq<seq<int>>, ws: map<int, seq<nat>>)
    requires forall q | LitOk(n, q) :: q in ws && ListOk(db, ws[q], q)
    requires forall b | 0 <= b < |db| :: Listed(db[b], b, ws)
    ensures WatchesOk(n, db, ws)
  {
  }

  lemma StillListed(db: seq<seq<int>>, ws: map<int, seq<nat>>, c: nat, d: seq<int>,
                    p: int, front: seq<nat>, back: seq<nat>, b: nat)
    requires Trade(db, c, d, p) && b < |db| && Listed(db[b], b, ws) && p in ws && -d[1] in ws
    requires ws[p] == front + [c] + back && Listed(db[c], c, ws)
    ensures Listed(db[c := d][b], b, Moved(ws, p, front + back, -d[1], c))
  {
    assert forall x :: x in ws[p] && x != c ==> x in front + back;
  }

  lemma AttachedWatches(n: nat, db: seq<seq<int>>, ws: map<int, seq<nat>>, c: seq<int>)
    requires WatchesOk(n, db, ws) && |c| >= 2 && LitOk(n, c[0]) && LitOk(n, c[1]) && c[0] != c[1]
    ensures -c[0] in ws && -c[1] in ws
    ensures WatchesOk(n, db + [c], ws[-c[0] := ws[-c[0]] + [|db|]][-c[1] := ws[-c[1]] + [|db|]])
  {
    var e, b := db + [c], |db|;
    var ws' := ws[-c[0] := ws[-c[0]] + [b]][-c[1] := ws[-c[1]] + [b]];
    assert LitOk(n, -c[0]) && LitOk(n, -c[1]);
    forall q | LitOk(n, q) ensures q in ws' && ListOk(e, ws'[q], q) {
      assert ListOk(db, ws[q], q);
      ListKept(db, e, ws[q], q);
      if q == -c[0] || q == -c[1] {
        assert Watching(e[b], q);
        ListAppended(e, ws[q], b, q);
      }
    }
    forall i | 0 <= i < |e| ensures Listed(e[i], i, ws') {
      if i < b { assert Listed(db[i], i, ws); }
    }
  }

  // ---- one visit to one clause of the list being scanned --------------------

  /** What became of a clause when one of its watches turned false. */
  datatype Visited = Kept | Moved | Implied | Falsified

  /** Clause `c` of the watch list of the true literal `p` is visited: the state
      (db, a, ws) becomes (db', a', ws'). */
  ghost predicate Step(r: Visited, n: nat, c: nat, p: int,
                       db: seq<seq<int>>, a: Asg, ws: map<int, seq<nat>>,
                       db': seq<seq<int>>, a': Asg, ws': map<int, seq<nat>>)
  {
    && c < |db| && |db'| == |db| && db' == db[c := db'[c]]
    && Permuted(n, db[c], db'[c]) && |db[c]| >= 2
    && (if r.Moved? then
          && Trade(db, c, db'[c], p) && !a.False(db'[c][1]) && LitOk(n, db'[c][1])
          && -db'[c][1] in ws && ws' == ws[-db'[c][1] := ws[-db'[c][1]] + [c]]
        else
          SamePair(db[c], db'[c]) && db'[c][1] == -p && ws' == ws)
    && (r.Kept? ==> a.True(db'[c][0]))
    && (r.Falsified? ==> AllFalse(db'[c], a))
    && (if r.Implied? then
          && LitOk(n, db'[c][0]) && Var(db'[c][0]) !in a.assign
          && a' == a.Push(db'[c][0], Some(c))
        else
          a' == a)
  }

  /** Midway through the list of `p`, trail literal number `q`: `front` has been
      visited and kept, `back` is still to come. */
  ghost predicate Scan(n: nat, db: seq<seq<int>>, a: Asg, ws: map<int, seq<nat>>,
                       p: int, q: nat, front: seq<nat>, back: seq<nat>)
  {
    && p in ws && WatchesOk(n, db, ws[p := front + back])
    && forall c | 0 <= c < |db| :: ClauseWatched(db[c], a, if c in back then q else q + 1)
  }

  /** `p` is on the trail at index `q`, at the current level. */
  ghost predicate OnTop(a: Asg, p: int, q: nat) {
    && a.True(p) && Var(p) in a.pos && a.pos[Var(p)] == q && q < |a.trail|
    && Var(p) in a.level && a.level[Var(p)] == |a.lim|
  }

  lemma StepExtends(r: Visited, n: nat, c: nat, p: int, q: nat,
                    db: seq<seq<int>>, a: Asg, ws: map<int, seq<nat>>,
                    db': seq<seq<int>>, a': Asg, ws': map<int, seq<nat>>)
    requires Step(r, n, c, p, db, a, ws, db', a', ws') && TrailOk(n, a) && OnTop(a, p, q)
    ensures SameDb(db, db') && Extends(a, a') && OnTop(a', p, q)
    ensures p in ws ==> p in ws'
  {
    if r.Implied? { PushExtends(n, a, db'[c][0], Some(c)); }
  }

  lemma VisitedClause(r: Visited, n: nat, c: nat, p: int, q: nat,
                      db: seq<seq<int>>, a: Asg, ws: map<int, seq<nat>>,
                      db': seq<seq<int>>, a': Asg, ws': map<int, seq<nat>>)
    requires Step(r, n, c, p, db, a, ws, db', a', ws') && !r.Falsified?
    requires TrailOk(n, a) && OnTop(a, p, q) && LitOk(n, p) && ClauseWatched(db[c], a, q)
    ensures ClauseWatched(db'[c], a', q + 1)
  {
    assert db'[c][0] in db'[c];
    if a.True(db'[c][0]) { assert LevelOk(a, Var(db'[c][0])); }
  }

  lemma OtherClauses(r: Visited, n: nat, c: nat, p: int,
                     db: seq<seq<int>>, a: Asg, ws: map<int, seq<nat>>,
                     db': seq<seq<int>>, a': Asg, ws': map<int, seq<nat>>, b: nat, limit: nat)
    requires Step(r, n, c, p, db, a, ws, db', a', ws') && TrailOk(n, a) && limit <= |a.trail|
    requires b < |db| && b != c && ClauseWatched(db[b], a, limit)
    ensures ClauseWatched(db'[b], a', limit)
  {
    if r.Implied? {
      PushKeepsClause(n, db[b], a, db'[c][0], Some(c), limit);
    }
  }

  lemma ScanLists(r: Visited, n: nat, c: nat, p: int, front: seq<nat>, back: seq<nat>,
                  db: seq<seq<int>>, a: Asg, ws: map<int, seq<nat>>,
                  db': seq<seq<int>>, a': Asg, ws': map<int, seq<nat>>)
    requires Step(r, n, c, p, db, a, ws, db', a', ws') && LitOk(n, p)
    requires WatchesOk(n, db, ws[p := front + [c] + back])
    ensures WatchesOk(n, db', ws'[p := if r.Moved? then front + back else front + [c] + back])
    ensures c !in front + back && |db'| == |db| && c < |db|
  {
    var x := ws[p := front + [c] + back];
    assert ListOk(db, x[p], p);
    hide WatchesOk, ListOk, Permuted;
    ListDropped(db, front, c, back, p);
    if r.Moved? {
      MovedWatch(n, db, x, c, db'[c], p, front, back);
      MovedSame(ws, p, front + [c] + back, front + back, -db'[c][1], c);
    } else {
      PermutedWatches(n, db, x, c, db'[c]);
    }
  }

  lemma MovedSame(ws: map<int, seq<nat>>, p: int, full: seq<nat>, fewer: seq<nat>, r: int, c: nat)
    requires r in ws && r != p
    ensures Moved(ws[p := full], p, fewer, r, c) == ws[r := ws[r] + [c]][p := fewer]
  {
  }

  lemma ScanStep(r: Visited, n: nat, c: nat, p: int, q: nat, front: seq<nat>, back: seq<nat>,
                 db: seq<seq<int>>, a: Asg, ws: map<int, seq<nat>>,
                 db': seq<seq<int>>, a': Asg, ws': map<int, seq<nat>>)
    requires Step(r, n, c, p, db, a, ws, db', a', ws') && !r.Falsified?
    requires TrailOk(n, a) && OnTop(a, p, q) && LitOk(n, p) && p in ws'
    requires Scan(n, db, a, ws, p, q, front, [c] + back)
    ensures Scan(n, db', a', ws', p, q, if r.Moved? then front else front + [c], back)
  {
    hide Step, TrailOk, WatchesOk, ClauseWatched;
    assert front + ([c] + back) == front + [c] + back;
    ScanLists(r, n, c, p, front, back, db, a, ws, db', a', ws');
    forall b | 0 <= b < |db'| ensures ClauseWatched(db'[b], a', if b in back then q else q + 1) {
      assert ClauseWatched(db[b], a, if b in [c] + back then q else q + 1);
      if b == c {
        assert b in [c] + back && b !in back;
        VisitedClause(r, n, c, p, q, db, a, ws, db', a', ws');
      } else {
        assert b in [c] + back <==> b in back;
        OtherClauses(r, n, c, p, db, a, ws, db', a', ws', b, if b in back then q else q + 1);
      }
    }
  }

  lemma ScanStart(n: nat, db: seq<seq<int>>, a: Asg, ws: map<int, seq<nat>>, p: int, q: nat)
    requires WatchesOk(n, db, ws) && WatchInv(db, a, q) && TrailOk(n, a)
    requires q < |a.trail| && p == a.trail[q] && TopFrom(a, q)
    ensures p in ws && Scan(n, db, a, ws, p, q, [], ws[p])
    ensures OnTop(a, p, q) && LitOk(n, p)
  {
    assert a.True(p) && OnTop(a, p, q);
    var none: seq<nat> := [];
    assert none + ws[p] == ws[p] && ws[p := ws[p]] == ws;
    forall c | 0 <= c < |db| ensures ClauseWatched(db[c], a, if c in ws[p] then q else q + 1) {
      assert ClauseWatched(db[c], a, q) && Listed(db[c], c, ws);
      if c !in ws[p] { NotWatching(n, db[c], a, p, q); }
    }
  }

  lemma NotWatching(n: nat, c: seq<int>, a: Asg, p: int, q: nat)
    requires TrailOk(n, a) && OnTop(a, p, q) && LitOk(n, p) && ClauseWatched(c, a, q)
    requires c[0] != -p && c[1] != -p && Var(a.trail[q]) == Var(p)
    ensures ClauseWatched(c, a, q + 1)
  {
  }

  lemma ScanNext(n: nat, db: seq<seq<int>>, a: Asg, ws: map<int, seq<nat>>,
                 p: int, q: nat, front: seq<nat>, c: nat, back: seq<nat>)
    requires Scan(n, db, a, ws, p, q, front, [c] + back) && LitOk(n, p)
    ensures c < |db| && Watching(db[c], p)
    ensures forall l | LitOk(n, l) :: l in ws
  {
    var full := ws[p := front + ([c] + back)];
    assert ListOk(db, full[p], p) && full[p][|front|] == c;
    forall l | LitOk(n, l) ensures l in ws { assert l in full; }
  }

  lemma ScanEnd(n: nat, db: seq<seq<int>>, a: Asg, ws: map<int, seq<nat>>, p: int, q: nat, front: seq<nat>)
    requires Scan(n, db, a, ws, p, q, front, [])
    ensures WatchesOk(n, db, ws[p := front]) && WatchInv(db, a, q + 1)
  {
    var none: seq<nat> := [];
    assert front + none == front;
    forall c | 0 <= c < |db| ensures ClauseWatched(db[c], a, q + 1) {
      assert c !in none && ClauseWatched(db[c], a, q + 1);
    }
  }

  lemma PairWatched(c: seq<int>, d: seq<int>, a: Asg, limit: nat)
    requires SamePair(c, d) && ClauseWatched(c, a, limit)
    ensures ClauseWatched(d, a, limit)
  {
  }

  lemma ScanConflict(n: nat, c: nat, p: int, q: nat, front: seq<nat>, back: seq<nat>,
                     db: seq<seq<int>>, a: Asg, ws: map<int, seq<nat>>,
                     db': seq<seq<int>>, a': Asg, ws': map<int, seq<nat>>)
    requires Step(Falsified, n, c, p, db, a, ws, db', a', ws')
    requires LitOk(n, p) && Scan(n, db, a, ws, p, q, front, [c] + back)
    ensures WatchesOk(n, db', ws'[p := front + [c] + back]) && WatchInv(db', a, q)
    ensures a' == a && c < |db'| && AllFalse(db'[c], a) && -p in db'[c]
  {
    assert front + ([c] + back) == front + [c] + back;
    ScanLists(Falsified, n, c, p, front, back, db, a, ws, db', a', ws');
    assert db'[c][1] in db'[c];
    hide WatchesOk, Permuted, AllFalse, SamePair, Excused;
    forall b | 0 <= b < |db'| ensures ClauseWatched(db'[b], a, q) {
      assert ClauseWatched(db[b], a, if b in [c] + back then q else q + 1);
      if b == c {
        assert b in [c] + back;
        PairWatched(db[c], db'[c], a, q);
      } else {
        WatchedBelow(db[b], a, if b in [c] + back then q else q + 1, q);
      }
    }
  }

  lemma WatchedBelow(c: seq<int>, a: Asg, limit: nat, below: nat)
    requires ClauseWatched(c, a, limit) && below <= limit
    ensures ClauseWatched(c, a, below)
  {
  }
}

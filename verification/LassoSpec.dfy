/** Liveness as safety: the watching system, and why it is exact. */
module LassoSpec {
  import opened Circuit
  import opened Transition

  const PENDING := "__pending"
  const SAVED := "__saved"
  const SAVE := "__save"
  const TRIGGERED := "__triggered"
  const ASSM := "__assm_ok"

  function Shadow(w: Name): Name {
    "__shadow_" + w
  }

  /** The bits a lasso must repeat. */
  function Watched(ts: TS): seq<Name> {
    ts.state + [PENDING]
  }

  function Shadows(ws: seq<Name>): (ns: seq<Name>)
    ensures |ns| == |ws| && forall k | 0 <= k < |ws| :: ns[k] == Shadow(ws[k])
  {
    seq(|ws|, k requires 0 <= k < |ws| => Shadow(ws[k]))
  }

  ghost function ShadowNames(ts: TS): set<Name> {
    set w | w in Watched(ts) :: Shadow(w)
  }

  /** The names the construction declares are not the design's own. */
  ghost predicate Unreserved(ts: TS) {
    {PENDING, SAVED, SAVE, TRIGGERED, ASSM} !! Names(ts) && ShadowNames(ts) !! Names(ts)
  }

  lemma ShadowApart(w: Name, v: Name)
    ensures Shadow(w) == Shadow(v) ==> w == v
    ensures Shadow(w) !in {PENDING, SAVED, SAVE, TRIGGERED, ASSM}
  {
    assert Shadow(w)[9..] == w && Shadow(v)[9..] == v;
    assert Shadow(w)[3] == 'h' && Shadow(w)[2] == 's';
  }

  lemma FixedApart()
    ensures PENDING != SAVED && PENDING != SAVE && PENDING != TRIGGERED && PENDING != ASSM
    ensures SAVED != SAVE && SAVED != TRIGGERED && SAVED != ASSM
    ensures SAVE != TRIGGERED && SAVE != ASSM && TRIGGERED != ASSM
  {
    assert |PENDING| == 9 && |SAVED| == 7 && |SAVE| == 6 && |TRIGGERED| == 11 && |ASSM| == 9;
    assert PENDING[2] == 'p' && ASSM[2] == 'a';
  }

  /** Every assumption holds in the cycle. */
  predicate Assumed(ts: TS, e: Env) {
    Every(ts.assumptions, e)
  }

  lemma AssumedMeans(ts: TS, e: Env)
    ensures Assumed(ts, e) <==> forall x | x in ts.assumptions :: Eval(x, e)
  {
    if Assumed(ts, e) {
      forall x | x in ts.assumptions ensures Eval(x, e) {
        var k :| 0 <= k < |ts.assumptions| && ts.assumptions[k] == x;
      }
    }
    if forall x | x in ts.assumptions :: Eval(x, e) {
      forall k | 0 <= k < |ts.assumptions| ensures Eval(ts.assumptions[k], e) {
        assert ts.assumptions[k] in ts.assumptions;
      }
    }
  }

  /** The property's signals and the assumptions read the design's names. */
  ghost predicate Reads(ts: TS, a: Sig, b: Sig) {
    Support(a) <= Names(ts) && Support(b) <= Names(ts) && Within(ts.assumptions, Names(ts))
  }

  // ---- the watching system ---------------------------------------------------------------

  function WatcherState(ts: TS): seq<Name> {
    ts.state + [PENDING, SAVED] + Shadows(Watched(ts)) + [TRIGGERED] + (if ts.assumptions == [] then [] else [ASSM])
  }

  /** What liveness_to_safety builds for `a |-> s_eventually b`, by what its functions compute. */
  ghost predicate Watcher(ts: TS, a: Sig, b: Sig, L: TS) {
    && Wf(L) && L.state == WatcherState(ts) && L.inputs == ts.inputs + [SAVE]
    && WatcherInit(ts, L) && WatcherNext(ts, a, b, L)
    && forall e :: Eval(L.bad, e) == (SAVED in e && Closed(ts, e) && TRIGGERED !in e && AssumedSoFar(ts, e))
  }

  predicate Closed(ts: TS, e: Env) {
    forall w | w in Watched(ts) :: w in e <==> Shadow(w) in e
  }

  predicate AssumedSoFar(ts: TS, e: Env) {
    ts.assumptions != [] ==> ASSM in e && Assumed(ts, e)
  }

  ghost predicate WatcherInit(ts: TS, L: TS) {
    && (forall n | n in ts.state :: n in ts.init && n in L.init && L.init[n] == ts.init[n])
    && (forall n | n in ShadowNames(ts) + {PENDING, SAVED, TRIGGERED} :: n in L.init && !L.init[n])
    && (ts.assumptions != [] ==> ASSM in L.init && L.init[ASSM])
  }

  ghost predicate WatcherNext(ts: TS, a: Sig, b: Sig, L: TS) {
    && (forall n | n in ts.state :: n in ts.next && n in L.next && L.next[n] == ts.next[n])
    && {PENDING, SAVED, TRIGGERED} + ShadowNames(ts) <= L.next.Keys
    && (forall e :: Eval(L.next[PENDING], e) == ((PENDING in e || Eval(a, e)) && !Eval(b, e)))
    && (forall e :: Eval(L.next[SAVED], e) == (SAVED in e || SAVE in e))
    && (forall w, e | w in Watched(ts) ::
          Eval(L.next[Shadow(w)], e) == if SAVED in e then Shadow(w) in e else w in e)
    && (forall e :: Eval(L.next[TRIGGERED], e) == ((SAVED in e || SAVE in e) && (TRIGGERED in e || PENDING !in e)))
    && (ts.assumptions != [] ==> ASSM in L.next && forall e :: Eval(L.next[ASSM], e) == (ASSM in e && Assumed(ts, e)))
  }

  /** An infinite run of the system. */
  ghost predicate InfiniteRun(ts: TS, r: nat -> Env)
    requires Wf(ts)
  {
    Starts(ts, r(0)) && forall t: nat :: Steps(ts, r(t), r(t + 1))
  }

  /** Some `a` is never followed, in its cycle or later, by `b`, though every
      assumption held in every cycle. */
  ghost predicate Starves(ts: TS, a: Sig, b: Sig, r: nat -> Env)
    requires Wf(ts)
  {
    && InfiniteRun(ts, r) && (forall x, t: nat | x in ts.assumptions :: Eval(x, r(t)))
    && exists n: nat :: Owed(a, b, r, n)
  }

  ghost predicate Owed(a: Sig, b: Sig, r: nat -> Env, n: nat) {
    Eval(a, r(n)) && forall m: nat | m >= n :: !Eval(b, r(m))
  }

  ghost predicate Violated(ts: TS, a: Sig, b: Sig)
    requires Wf(ts)
  {
    exists r :: Starves(ts, a, b, r)
  }

  // ---- names ------------------------------------------------------------------------------

  lemma ShadowsIn(ts: TS, n: Name)
    ensures n in Shadows(Watched(ts)) <==> n in ShadowNames(ts)
  {
    hide PENDING, Shadow, Watched;
    var ws, ss := Watched(ts), Shadows(Watched(ts));
    if n in ShadowNames(ts) {
      var w :| w in ws && Shadow(w) == n;
      var k :| 0 <= k < |ws| && ws[k] == w;
      assert ss[k] == n;
    }
    if n in ss {
      var k :| 0 <= k < |ss| && ss[k] == n;
      assert ws[k] in ws;
    }
  }

  lemma StateIn(ts: TS, n: Name)
    ensures n in WatcherState(ts) <==>
      n in ts.state || n in {PENDING, SAVED, TRIGGERED} || n in ShadowNames(ts) || (ts.assumptions != [] && n == ASSM)
  {
    hide PENDING, SAVED, TRIGGERED, ASSM, Shadows, Watched, ShadowNames;
    ShadowsIn(ts, n);
  }

  lemma WatcherNames(ts: TS, a: Sig, b: Sig, L: TS)
    requires Watcher(ts, a, b, L)
    ensures States(L) == States(ts) + {PENDING, SAVED, TRIGGERED} + ShadowNames(ts) + (if ts.assumptions == [] then {}
        else {ASSM})
    ensures Inputs(L) == Inputs(ts) + {SAVE} && Names(ts) <= Names(L)
  {
    hide PENDING, SAVED, SAVE, TRIGGERED, ASSM, WatcherState, ShadowNames, WatcherInit, WatcherNext;
    forall n ensures n in States(L) <==>
        n in States(ts) + {PENDING, SAVED, TRIGGERED} + ShadowNames(ts) + (if ts.assumptions == [] then {} else {ASSM})
    {
      StateIn(ts, n);
    }
  }

  /** The functions of the watching system at one valuation. */
  lemma WatcherFns(ts: TS, a: Sig, b: Sig, L: TS, e: Env)
    requires Watcher(ts, a, b, L)
    ensures {PENDING, SAVED, TRIGGERED} + ShadowNames(ts) + States(ts) <= L.next.Keys
    ensures Eval(L.next[PENDING], e) <==> (PENDING in e || Eval(a, e)) && !Eval(b, e)
    ensures Eval(L.next[SAVED], e) <==> SAVED in e || SAVE in e
    ensures Eval(L.next[TRIGGERED], e) <==> (SAVED in e || SAVE in e) && (TRIGGERED in e || PENDING !in e)
    ensures forall w | w in Watched(ts) ::
      Shadow(w) in L.next && (Eval(L.next[Shadow(w)], e) <==> if SAVED in e then Shadow(w) in e else w in e)
    ensures ts.assumptions != [] ==> ASSM in L.next && (Eval(L.next[ASSM], e) <==> ASSM in e && Assumed(ts, e))
    ensures forall n | n in States(ts) :: n in ts.next && L.next[n] == ts.next[n]
  {
    hide PENDING, SAVED, SAVE, TRIGGERED, ASSM, Shadow, WatcherState, WatcherInit, Watched, Closed, AssumedSoFar,
        Assumed;
    forall w | w in Watched(ts) ensures Shadow(w) in ShadowNames(ts) {}
  }

  /** One step of the watching system, bit by bit. */
  lemma WatcherWf(ts: TS, a: Sig, b: Sig, L: TS)
    requires Watcher(ts, a, b, L)
    ensures Wf(L)
  {
  }

  lemma WatcherStep(ts: TS, a: Sig, b: Sig, L: TS, e: Env, e': Env)
    requires Wf(ts) && Unreserved(ts) && Watcher(ts, a, b, L) && Steps(L, e, e')
    ensures PENDING in e' <==> (PENDING in e || Eval(a, e)) && !Eval(b, e)
    ensures SAVED in e' <==> SAVED in e || SAVE in e
    ensures TRIGGERED in e' <==> (SAVED in e || SAVE in e) && (TRIGGERED in e || PENDING !in e)
    ensures forall w | w in Watched(ts) :: Shadow(w) in e' <==> if SAVED in e then Shadow(w) in e else w in e
    ensures ts.assumptions != [] ==> (ASSM in e' <==> ASSM in e && Assumed(ts, e))
    ensures forall n | n in States(ts) :: n in e' <==> Eval(ts.next[n], e)
  {
    WatcherWf(ts, a, b, L);
    hide PENDING, SAVED, SAVE, TRIGGERED, ASSM, Shadow, Watched, Watcher, Assumed;
    WatcherNames(ts, a, b, L);
    WatcherFns(ts, a, b, L, e);
    forall n | n in States(L) ensures n in e' <==> Eval(L.next[n], e) {
      assert n in e' <==> n in e' * States(L);
    }
    forall w | w in Watched(ts) ensures Shadow(w) in States(L) {}
  }

  lemma WatcherStart(ts: TS, a: Sig, b: Sig, L: TS, e: Env)
    requires Wf(ts) && Unreserved(ts) && Watcher(ts, a, b, L) && Starts(L, e)
    ensures PENDING !in e && SAVED !in e && TRIGGERED !in e
    ensures forall w | w in Watched(ts) :: Shadow(w) !in e
    ensures ts.assumptions != [] ==> ASSM in e
    ensures forall n | n in States(ts) :: n in e <==> ts.init[n]
  {
    hide PENDING, SAVED, SAVE, TRIGGERED, ASSM, Shadow, WatcherState, WatcherNext;
    WatcherNames(ts, a, b, L);
    forall n | n in States(L) ensures n in e <==> L.init[n] {
      assert n in e <==> n in e * States(L);
    }
    forall w | w in Watched(ts) ensures Shadow(w) in ShadowNames(ts) {}
  }

  // ---- a bad cycle gives an infinite run -----------------------------------------------------

  /** Once saved, the shadows hold the bits of the save cycle `s`, and without a
      trigger the obligation was pending ever since. */
  lemma {:induction false} SavedAt(ts: TS, a: Sig, b: Sig, L: TS, tr: seq<Env>, t: nat) returns (s: nat)
    requires Wf(ts) && Unreserved(ts) && Watcher(ts, a, b, L) && Wf(L) && Run(L, tr) && t < |tr| && SAVED in tr[t]
    ensures s < t && forall w | w in Watched(ts) :: Shadow(w) in tr[t] <==> w in tr[s]
    ensures TRIGGERED !in tr[t] ==> forall u | s <= u < t :: PENDING in tr[u]
    decreases t
  {
    hide PENDING, SAVED, SAVE, TRIGGERED, ASSM, Shadow, Watcher, WatcherNext, WatcherInit, Watched, Shadows,
        ShadowNames, Unreserved;
    WatcherStart(ts, a, b, L, tr[0]);
    WatcherStep(ts, a, b, L, tr[t - 1], tr[t]);
    if SAVED in tr[t - 1] {
      s := SavedAt(ts, a, b, L, tr, t - 1);
    } else {
      s := t - 1;
    }
  }

  lemma {:induction false} PendingSince(ts: TS, a: Sig, b: Sig, L: TS, tr: seq<Env>, t: nat) returns (n: nat)
    requires Wf(ts) && Unreserved(ts) && Watcher(ts, a, b, L) && Wf(L) && Run(L, tr) && t < |tr| && PENDING in tr[t]
    ensures n < t && Eval(a, tr[n]) && forall m | n <= m < t :: !Eval(b, tr[m])
    decreases t
  {
    hide PENDING, SAVED, SAVE, TRIGGERED, ASSM, Shadow, Watcher, WatcherNext, WatcherInit, Watched, Shadows,
        ShadowNames, Unreserved;
    WatcherStart(ts, a, b, L, tr[0]);
    WatcherStep(ts, a, b, L, tr[t - 1], tr[t]);
    if PENDING in tr[t - 1] {
      n := PendingSince(ts, a, b, L, tr, t - 1);
    } else {
      n := t - 1;
    }
  }

  lemma {:induction false} AssumedBefore(ts: TS, a: Sig, b: Sig, L: TS, tr: seq<Env>, t: nat)
    requires Wf(ts) && Unreserved(ts) && Watcher(ts, a, b, L) && Wf(L) && Run(L, tr) && t < |tr|
        && ts.assumptions != [] && ASSM in tr[t]
    ensures forall u | 0 <= u < t :: Assumed(ts, tr[u])
    decreases t
  {
    hide PENDING, SAVED, SAVE, TRIGGERED, ASSM, Shadow, Watcher, WatcherNext, WatcherInit, Watched, Shadows,
        ShadowNames, Unreserved;
    if t > 0 {
      WatcherStep(ts, a, b, L, tr[t - 1], tr[t]);
      AssumedBefore(ts, a, b, L, tr, t - 1);
    }
  }

  /** The cycle of the lasso that follows `t` cycles after reset. */
  function LassoIndex(s: nat, k: nat, t: nat): (i: nat)
    requires s < k
    ensures i < k && (t < k ==> i == t) && (t >= s ==> i >= s)
  {
    if t < k then t else LassoIndex(s, k, t - (k - s))
  }

  lemma {:induction false} LassoNext(s: nat, k: nat, t: nat)
    requires s < k
    ensures LassoIndex(s, k, t + 1) == LassoIndex(s, k, t) + 1
        || (LassoIndex(s, k, t) == k - 1 && LassoIndex(s, k, t + 1) == s)
    decreases t
  {
    if t >= k {
      LassoNext(s, k, t - (k - s));
    }
  }

  ghost function Lasso(ts: TS, tr: seq<Env>, s: nat, k: nat): nat -> Env
    requires s < k < |tr|
  {
    (t: nat) => tr[LassoIndex(s, k, t)] * Names(ts)
  }

  /** A run of the watching system, seen through the design's names, repeats from `s`. */
  lemma LassoRuns(ts: TS, a: Sig, b: Sig, L: TS, tr: seq<Env>, s: nat, k: nat)
    requires Wf(ts) && Unreserved(ts) && Watcher(ts, a, b, L) && Wf(L) && Run(L, tr) && s < k < |tr|
    requires forall w | w in ts.state :: w in tr[k] <==> w in tr[s]
    ensures InfiniteRun(ts, Lasso(ts, tr, s, k))
  {
    hide PENDING, SAVED, SAVE, TRIGGERED, ASSM, Shadow, Watcher, WatcherNext, WatcherInit, Watched, Shadows,
        ShadowNames, Unreserved;
    var r := Lasso(ts, tr, s, k);
    WatcherStart(ts, a, b, L, tr[0]);
    assert r(0) * States(ts) == InitState(ts);
    forall t: nat ensures Steps(ts, r(t), r(t + 1)) {
      var i, j := LassoIndex(s, k, t), LassoIndex(s, k, t + 1);
      LassoNext(s, k, t);
      assert Steps(L, tr[i], tr[i + 1]);
      WatcherStep(ts, a, b, L, tr[i], tr[i + 1]);
      forall n | n in States(ts) ensures n in r(t + 1) <==> Eval(ts.next[n], r(t)) {
        EvalSupport(ts.next[n], tr[i], r(t));
      }
      assert r(t + 1) * States(ts) == Next(ts, r(t));
    }
  }

  lemma WatcherBad(ts: TS, a: Sig, b: Sig, L: TS, e: Env)
    requires Watcher(ts, a, b, L)
    ensures Eval(L.bad, e) <==> SAVED in e && Closed(ts, e) && TRIGGERED !in e && AssumedSoFar(ts, e)
  {
  }

  lemma PendingWatched(ts: TS)
    ensures PENDING in Watched(ts)
  {
    assert Watched(ts)[|ts.state|] == PENDING;
  }

  lemma StateWatched(ts: TS, w: Name)
    requires w in ts.state
    ensures w in Watched(ts)
  {
  }

  lemma LoopWithoutB(ts: TS, a: Sig, b: Sig, L: TS, tr: seq<Env>, s: nat, k: nat)
    requires Wf(ts) && Unreserved(ts) && Watcher(ts, a, b, L) && Wf(L) && Run(L, tr) && s < k < |tr|
    requires forall u | s <= u <= k :: PENDING in tr[u]
    ensures forall i | s <= i < k :: !Eval(b, tr[i])
  {
    hide PENDING, SAVED, SAVE, TRIGGERED, ASSM, Shadow, Watched, Unreserved, Watcher, Assumed;
    forall i | s <= i < k ensures !Eval(b, tr[i]) {
      assert Steps(L, tr[i + 1 - 1], tr[i + 1]);
      WatcherStep(ts, a, b, L, tr[i], tr[i + 1]);
    }
  }

  lemma LassoOwed(ts: TS, a: Sig, b: Sig, tr: seq<Env>, s: nat, k: nat, n: nat)
    requires Reads(ts, a, b) && n < s < k < |tr| && Eval(a, tr[n]) && forall m | n <= m < k :: !Eval(b, tr[m])
    ensures Owed(a, b, Lasso(ts, tr, s, k), n)
  {
    hide Names;
    var r := Lasso(ts, tr, s, k);
    EvalSupport(a, tr[n], r(n));
    forall m: nat | m >= n ensures !Eval(b, r(m)) {
      EvalSupport(b, tr[LassoIndex(s, k, m)], r(m));
    }
  }

  lemma LassoAssumed(ts: TS, a: Sig, b: Sig, L: TS, tr: seq<Env>, s: nat, k: nat, t: nat)
    requires Wf(ts) && Unreserved(ts) && Reads(ts, a, b) && Watcher(ts, a, b, L) && Wf(L) && Run(L, tr) && s < k < |tr|
    requires ts.assumptions != [] ==> ASSM in tr[k]
    ensures Assumed(ts, Lasso(ts, tr, s, k)(t))
  {
    hide PENDING, SAVED, SAVE, TRIGGERED, ASSM, Shadow, Watched, Unreserved, Watcher;
    if ts.assumptions != [] {
      AssumedBefore(ts, a, b, L, tr, k);
      var i := LassoIndex(s, k, t);
      AssumedSupport(ts, tr[i], Lasso(ts, tr, s, k)(t));
    }
  }

  /** Bad in the watching system: an infinite run of the design that starves. */
  lemma BadStarves(ts: TS, a: Sig, b: Sig, L: TS, tr: seq<Env>)
    requires Wf(ts) && Unreserved(ts) && Reads(ts, a, b) && Watcher(ts, a, b, L) && Wf(L)
    requires Run(L, tr) && Eval(L.bad, tr[|tr| - 1])
    ensures Violated(ts, a, b)
  {
    hide PENDING, SAVED, SAVE, TRIGGERED, ASSM, Shadow, Watcher, Watched, Unreserved, Reads, Assumed, Lasso,
      InfiniteRun, Owed, Eval;
    var k := |tr| - 1;
    WatcherBad(ts, a, b, L, tr[k]);
    var s := SavedAt(ts, a, b, L, tr, k);
    PendingWatched(ts);
    assert PENDING in tr[s];
    var n := PendingSince(ts, a, b, L, tr, s);
    forall w | w in ts.state ensures w in tr[k] <==> w in tr[s] { StateWatched(ts, w); }
    LassoRuns(ts, a, b, L, tr, s, k);
    LoopWithoutB(ts, a, b, L, tr, s, k);
    LassoOwed(ts, a, b, tr, s, k, n);
    var r := Lasso(ts, tr, s, k);
    forall x, t: nat | x in ts.assumptions ensures Eval(x, r(t)) {
      LassoAssumed(ts, a, b, L, tr, s, k, t);
      AssumedMeans(ts, r(t));
    }
    assert Starves(ts, a, b, r);
  }

  lemma AssumedSupport(ts: TS, e: Env, e': Env)
    requires Within(ts.assumptions, Names(ts)) && e' == e * Names(ts)
    ensures Assumed(ts, e) <==> Assumed(ts, e')
  {
    forall k | 0 <= k < |ts.assumptions| ensures Eval(ts.assumptions[k], e) == Eval(ts.assumptions[k], e') {
      EvalSupport(ts.assumptions[k], e, e');
    }
  }

  // ---- a starving run gives a bad cycle --------------------------------------------------------

  /** Infinitely many cycles, finitely many states: one comes back. */
  lemma {:induction false} Repeats(f: nat -> Env, vs: set<Env>, start: nat) returns (i: nat, j: nat)
    requires forall t: nat | t >= start :: f(t) in vs
    ensures start <= i < j && f(i) == f(j)
    decreases vs
  {
    if exists t: nat :: t > start && f(t) == f(start) {
      j :| j > start && f(j) == f(start);
      i := start;
    } else {
      i, j := Repeats(f, vs - {f(start)}, start + 1);
    }
  }

  /** The obligation monitor along a run. */
  predicate Pend(a: Sig, b: Sig, r: nat -> Env, t: nat) {
    t > 0 && (Pend(a, b, r, t - 1) || Eval(a, r(t - 1))) && !Eval(b, r(t - 1))
  }

  lemma {:induction false} PendingOn(a: Sig, b: Sig, r: nat -> Env, n: nat, t: nat)
    requires Owed(a, b, r, n) && t > n
    ensures Pend(a, b, r, t)
    decreases t
  {
    if t > n + 1 {
      PendingOn(a, b, r, n, t - 1);
    }
  }

  /** Is the watched bit `w` set in cycle `t`? */
  predicate BitAt(a: Sig, b: Sig, r: nat -> Env, t: nat, w: Name) {
    if w == PENDING then Pend(a, b, r, t) else w in r(t)
  }

  /** Its shadow, when cycle `s` is saved. */
  predicate ShadowAt(a: Sig, b: Sig, r: nat -> Env, s: nat, t: nat, w: Name) {
    t > 0 && BitAt(a, b, r, if t <= s then t - 1 else s, w)
  }

  /** Is the name set in cycle `t` of the watching system that follows the run `r` and
      saves at cycle `s`? */
  ghost predicate WatchBit(ts: TS, a: Sig, b: Sig, r: nat -> Env, s: nat, t: nat, x: Name) {
    if x in Names(ts) then x in r(t)
    else if x in ShadowNames(ts) then exists w :: w in Watched(ts) && Shadow(w) == x && ShadowAt(a, b, r, s, t, w)
    else if x == PENDING then Pend(a, b, r, t)
    else if x == SAVED then t > s
    else if x == SAVE then t == s
    else x == ASSM
  }

  ghost function Watching(ts: TS, a: Sig, b: Sig, L: TS, r: nat -> Env, s: nat, t: nat): Env {
    set x | x in Names(L) && WatchBit(ts, a, b, r, s, t, x)
  }

  lemma WatchingIn(ts: TS, a: Sig, b: Sig, L: TS, r: nat -> Env, s: nat, t: nat)
    ensures Watching(ts, a, b, L, r, s, t) <= Names(L)
  {
    hide PENDING, SAVED, SAVE, TRIGGERED, ASSM, WatchBit;
  }

  lemma FixedBits(ts: TS, a: Sig, b: Sig, r: nat -> Env, s: nat, t: nat)
    requires Unreserved(ts)
    ensures WatchBit(ts, a, b, r, s, t, PENDING) == Pend(a, b, r, t)
    ensures WatchBit(ts, a, b, r, s, t, SAVED) == (t > s)
    ensures WatchBit(ts, a, b, r, s, t, SAVE) == (t == s)
    ensures !WatchBit(ts, a, b, r, s, t, TRIGGERED) && WatchBit(ts, a, b, r, s, t, ASSM)
  {
    FixedApart();
    ShadowsApart(ts);
    hide PENDING, SAVED, SAVE, TRIGGERED, ASSM, Shadow, ShadowAt, Pend, Watched, ShadowNames;
  }

  lemma ShadowBit(ts: TS, a: Sig, b: Sig, r: nat -> Env, s: nat, t: nat, w: Name)
    requires Unreserved(ts) && w in Watched(ts)
    ensures WatchBit(ts, a, b, r, s, t, Shadow(w)) == ShadowAt(a, b, r, s, t, w) && Shadow(w) in ShadowNames(ts)
  {
    hide PENDING, SAVED, SAVE, TRIGGERED, ASSM, Shadow, ShadowAt, Pend, Watched;
    ShadowsApart(ts);
    assert Shadow(w) in ShadowNames(ts);
  }

  /** The valuation of the watching system, bit by bit. */
  lemma WatchingBits(ts: TS, a: Sig, b: Sig, L: TS, r: nat -> Env, s: nat, t: nat)
    requires Unreserved(ts) && Watcher(ts, a, b, L)
    ensures var e := Watching(ts, a, b, L, r, s, t);
      && (forall n | n in Names(ts) :: n in e <==> n in r(t))
      && (PENDING in e <==> Pend(a, b, r, t)) && (SAVED in e <==> t > s) && (SAVE in e <==> t == s) && TRIGGERED !in e
      && (forall w | w in Watched(ts) :: Shadow(w) in e <==> ShadowAt(a, b, r, s, t, w))
      && (ts.assumptions != [] ==> ASSM in e)
  {
    hide PENDING, SAVED, SAVE, TRIGGERED, ASSM, Shadow, ShadowAt, Pend, Watched, WatchBit, ShadowNames, Watcher,
        Unreserved;
    WatcherNames(ts, a, b, L);
    FixedBits(ts, a, b, r, s, t);
    forall w | w in Watched(ts) ensures
      Shadow(w) in Names(L) && (WatchBit(ts, a, b, r, s, t, Shadow(w)) <==> ShadowAt(a, b, r, s, t, w))
    {
      ShadowBit(ts, a, b, r, s, t, w);
    }
    forall n | n in Names(ts) ensures WatchBit(ts, a, b, r, s, t, n) <==> n in r(t) {
      OwnBit(ts, a, b, r, s, t, n);
    }
  }

  lemma OwnBit(ts: TS, a: Sig, b: Sig, r: nat -> Env, s: nat, t: nat, n: Name)
    requires n in Names(ts)
    ensures WatchBit(ts, a, b, r, s, t, n) <==> n in r(t)
  {
  }

  lemma ShadowsApart(ts: TS)
    ensures ShadowNames(ts) !! {PENDING, SAVED, SAVE, TRIGGERED, ASSM}
    ensures forall w, v | Shadow(w) == Shadow(v) :: w == v
  {
    forall w, v | Shadow(w) == Shadow(v) ensures w == v { ShadowApart(w, v); }
    forall n | n in ShadowNames(ts) ensures n !in {PENDING, SAVED, SAVE, TRIGGERED, ASSM} {
      var w :| w in Watched(ts) && Shadow(w) == n;
      ShadowApart(w, w);
    }
  }

  lemma WatchedState(ts: TS, w: Name)
    requires w in Watched(ts)
    ensures w == PENDING || w in States(ts)
  {
  }

  lemma StateBitNext(ts: TS, a: Sig, b: Sig, L: TS, r: nat -> Env, s: nat, t: nat, x: Name)
    requires Wf(ts) && Unreserved(ts) && Reads(ts, a, b) && Watcher(ts, a, b, L)
    requires InfiniteRun(ts, r) && Assumed(ts, r(t)) && (t >= s ==> Pend(a, b, r, t))
    requires x in States(ts)
    ensures x in L.next
        && (Eval(L.next[x], Watching(ts, a, b, L, r, s, t)) <==> x in Watching(ts, a, b, L, r, s, t + 1))
  {
    hide PENDING, SAVED, SAVE, TRIGGERED, ASSM, Shadow, Watched, WatchBit, Unreserved, Watcher, ShadowAt, Watching,
        Assumed;
    var e := Watching(ts, a, b, L, r, s, t);
    WatchingBits(ts, a, b, L, r, s, t);
    WatchingBits(ts, a, b, L, r, s, t + 1);
    WatcherFns(ts, a, b, L, e);
    EvalSupport(ts.next[x], e, r(t));
    NextBit(ts, r, t, x);
  }

  lemma ShadowBitNext(ts: TS, a: Sig, b: Sig, L: TS, r: nat -> Env, s: nat, t: nat, w: Name)
    requires Wf(ts) && Unreserved(ts) && Reads(ts, a, b) && Watcher(ts, a, b, L)
    requires InfiniteRun(ts, r) && Assumed(ts, r(t)) && (t >= s ==> Pend(a, b, r, t))
    requires w in Watched(ts)
    ensures Shadow(w) in L.next
    ensures Eval(L.next[Shadow(w)], Watching(ts, a, b, L, r, s, t)) <==> Shadow(w) in Watching(ts, a, b, L, r, s, t + 1)
  {
    hide PENDING, SAVED, SAVE, TRIGGERED, ASSM, Shadow, Watched, WatchBit, Unreserved, Watcher, ShadowAt, Watching,
        Assumed;
    var e := Watching(ts, a, b, L, r, s, t);
    WatchingBits(ts, a, b, L, r, s, t);
    WatchingBits(ts, a, b, L, r, s, t + 1);
    WatcherFns(ts, a, b, L, e);
    ShadowNext(ts, a, b, r, s, t, w, e);
  }

  lemma FlagsNext(ts: TS, a: Sig, b: Sig, L: TS, r: nat -> Env, s: nat, t: nat)
    requires Wf(ts) && Unreserved(ts) && Reads(ts, a, b) && Watcher(ts, a, b, L)
    requires InfiniteRun(ts, r) && Assumed(ts, r(t)) && (t >= s ==> Pend(a, b, r, t))
    ensures {PENDING, SAVED, TRIGGERED} <= L.next.Keys
    ensures var e, e' := Watching(ts, a, b, L, r, s, t), Watching(ts, a, b, L, r, s, t + 1);
      && (Eval(L.next[PENDING], e) <==> PENDING in e') && (Eval(L.next[SAVED], e) <==> SAVED in e')
      && (Eval(L.next[TRIGGERED], e) <==> TRIGGERED in e')
      && (ts.assumptions != [] ==> ASSM in L.next && Eval(L.next[ASSM], e) && ASSM in e')
  {
    hide PENDING, SAVED, SAVE, TRIGGERED, ASSM, Shadow, Watched, WatchBit, Unreserved, Watcher, ShadowAt, Watching,
        Assumed;
    var e := Watching(ts, a, b, L, r, s, t);
    WatchingBits(ts, a, b, L, r, s, t);
    WatchingBits(ts, a, b, L, r, s, t + 1);
    WatcherFns(ts, a, b, L, e);
    EvalSupport(a, e, r(t));
    EvalSupport(b, e, r(t));
    SameAssumed(ts, e, r(t));
  }

  /** A cycle that follows the run steps to the next. */
  lemma WatchingSteps(ts: TS, a: Sig, b: Sig, L: TS, r: nat -> Env, s: nat, t: nat)
    requires Wf(ts) && Unreserved(ts) && Reads(ts, a, b) && Watcher(ts, a, b, L)
    requires InfiniteRun(ts, r) && Assumed(ts, r(t)) && (t >= s ==> Pend(a, b, r, t))
    requires Wf(L)
    ensures Steps(L, Watching(ts, a, b, L, r, s, t), Watching(ts, a, b, L, r, s, t + 1))
  {
    hide PENDING, SAVED, SAVE, TRIGGERED, ASSM, Shadow, Watched, WatchBit, Unreserved, Watcher, Assumed, Watching;
    var e, e' := Watching(ts, a, b, L, r, s, t), Watching(ts, a, b, L, r, s, t + 1);
    WatchingIn(ts, a, b, L, r, s, t + 1);
    WatcherNames(ts, a, b, L);
    FlagsNext(ts, a, b, L, r, s, t);
    forall x | x in States(L) ensures Eval(L.next[x], e) <==> x in e' {
      if x in States(ts) {
        StateBitNext(ts, a, b, L, r, s, t, x);
      } else if x in ShadowNames(ts) {
        var w :| w in Watched(ts) && Shadow(w) == x;
        ShadowBitNext(ts, a, b, L, r, s, t, w);
      }
    }
    assert e' * States(L) == Next(L, e);
  }

  lemma ShadowNext(ts: TS, a: Sig, b: Sig, r: nat -> Env, s: nat, t: nat, w: Name, e: Env)
    requires Unreserved(ts) && w in Watched(ts) && (PENDING in e <==> Pend(a, b, r, t))
    requires (forall n | n in Names(ts) :: n in e <==> n in r(t)) && (Shadow(w) in e <==> ShadowAt(a, b, r, s, t, w))
    ensures ShadowAt(a, b, r, s, t + 1, w) <==> if t > s then Shadow(w) in e else w in e
  {
    WatchedState(ts, w);
    hide PENDING, Shadow, Watched;
  }

  lemma NextBit(ts: TS, r: nat -> Env, t: nat, x: Name)
    requires Wf(ts) && InfiniteRun(ts, r) && x in States(ts)
    ensures x in r(t + 1) <==> Eval(ts.next[x], r(t))
  {
    assert Steps(ts, r(t), r(t + 1));
    assert x in r(t + 1) <==> x in r(t + 1) * States(ts);
  }

  lemma SameAssumed(ts: TS, e: Env, e': Env)
    requires Within(ts.assumptions, Names(ts)) && forall n | n in Names(ts) :: n in e <==> n in e'
    ensures Assumed(ts, e) <==> Assumed(ts, e')
  {
    forall k | 0 <= k < |ts.assumptions| ensures Eval(ts.assumptions[k], e) == Eval(ts.assumptions[k], e') {
      EvalSupport(ts.assumptions[k], e, e');
    }
  }

  lemma WatchingStarts(ts: TS, a: Sig, b: Sig, L: TS, r: nat -> Env, s: nat)
    requires Wf(ts) && Unreserved(ts) && Watcher(ts, a, b, L) && Wf(L) && InfiniteRun(ts, r)
    ensures Starts(L, Watching(ts, a, b, L, r, s, 0))
  {
    hide PENDING, SAVED, SAVE, TRIGGERED, ASSM, Shadow, Watched, WatchBit, Unreserved, Watcher, Assumed, Watching;
    var e := Watching(ts, a, b, L, r, s, 0);
    WatchingIn(ts, a, b, L, r, s, 0);
    WatchingBits(ts, a, b, L, r, s, 0);
    WatcherNames(ts, a, b, L);
    WatcherResets(ts, a, b, L);
    forall x | x in States(L) ensures x in e <==> L.init[x] {
      if x in States(ts) {
        assert x in r(0) <==> x in r(0) * States(ts);
      } else if x in ShadowNames(ts) {
        var w :| w in Watched(ts) && Shadow(w) == x;
      }
    }
    assert e * States(L) == InitState(L);
  }

  lemma WatcherResets(ts: TS, a: Sig, b: Sig, L: TS)
    requires Watcher(ts, a, b, L)
    ensures {PENDING, SAVED, TRIGGERED} + ShadowNames(ts) + States(ts) <= L.init.Keys
    ensures forall n | n in States(ts) :: n in ts.init && L.init[n] == ts.init[n]
    ensures forall n | n in ShadowNames(ts) + {PENDING, SAVED, TRIGGERED} :: !L.init[n]
    ensures ts.assumptions != [] ==> ASSM in L.init && L.init[ASSM]
  {
  }

  /** The loop is closed when the state of the save cycle comes back. */
  lemma WatchingCloses(ts: TS, a: Sig, b: Sig, L: TS, r: nat -> Env, s: nat, k: nat)
    requires Wf(ts) && Unreserved(ts) && Reads(ts, a, b) && Watcher(ts, a, b, L) && s < k
    requires Assumed(ts, r(k)) && Pend(a, b, r, s) && Pend(a, b, r, k)
    requires r(s) * States(ts) == r(k) * States(ts)
    ensures Eval(L.bad, Watching(ts, a, b, L, r, s, k))
  {
    hide PENDING, SAVED, SAVE, TRIGGERED, ASSM, Shadow, Watched, WatchBit, Unreserved, Watcher, Assumed, Watching;
    var e := Watching(ts, a, b, L, r, s, k);
    WatchingBits(ts, a, b, L, r, s, k);
    SameAssumed(ts, e, r(k));
    WatcherBad(ts, a, b, L, e);
    forall w | w in Watched(ts) ensures w in e <==> Shadow(w) in e {
      WatchedState(ts, w);
      if w in States(ts) {
        assert w in r(k) <==> w in r(k) * States(ts);
        assert w in r(s) <==> w in r(s) * States(ts);
      }
    }
  }

  /** A starving run of the design: a bad cycle of the watching system. */
  lemma StarvesBad(ts: TS, a: Sig, b: Sig, L: TS, r: nat -> Env)
    requires Wf(ts) && Unreserved(ts) && Reads(ts, a, b) && Watcher(ts, a, b, L) && Wf(L) && Starves(ts, a, b, r)
    ensures !Safe(L)
  {
    hide PENDING, SAVED, SAVE, TRIGGERED, ASSM, Shadow, Watched, Unreserved, Watcher, Assumed, Pend, Reads, Watching;
    var n: nat :| Owed(a, b, r, n);
    forall t: nat ensures Assumed(ts, r(t)) { AssumedMeans(ts, r(t)); }
    var f := (t: nat) => r(t) * States(ts);
    var s, k := Repeats(f, AllStates(ts), n + 1);
    forall t: nat | t > n ensures Pend(a, b, r, t) { PendingOn(a, b, r, n, t); }
    var tr := seq(k + 1, t requires 0 <= t <= k => Watching(ts, a, b, L, r, s, t));
    WatchingRun(ts, a, b, L, r, s, k, tr);
    WatchingCloses(ts, a, b, L, r, s, k);
    assert BadAt(L, k);
  }

  lemma WatchingRun(ts: TS, a: Sig, b: Sig, L: TS, r: nat -> Env, s: nat, k: nat, tr: seq<Env>)
    requires Wf(ts) && Unreserved(ts) && Reads(ts, a, b) && Watcher(ts, a, b, L) && Wf(L)
    requires InfiniteRun(ts, r) && (forall t: nat :: Assumed(ts, r(t))) && forall t: nat | t >= s :: Pend(a, b, r, t)
    requires |tr| == k + 1 && forall t | 0 <= t <= k :: tr[t] == Watching(ts, a, b, L, r, s, t)
    ensures Run(L, tr)
  {
    hide PENDING, SAVED, SAVE, TRIGGERED, ASSM, Shadow, Watched, Unreserved, Watcher, Assumed, Pend, Reads, Watching,
        InfiniteRun, Next, InitState;
    WatchingStarts(ts, a, b, L, r, s);
    forall t | 0 <= t < |tr| ensures tr[t] <= Names(L) {
      WatchingIn(ts, a, b, L, r, s, t);
    }
    forall t | 0 < t < |tr| ensures Steps(L, tr[t - 1], tr[t]) {
      WatchingSteps(ts, a, b, L, r, s, t - 1);
    }
  }

  /** Liveness to safety is exact: bad is reachable just when some run that obeys the
      assumptions in every cycle leaves an `a` without its `b` forever. */
  lemma Exact(ts: TS, a: Sig, b: Sig, L: TS)
    requires Wf(ts) && Unreserved(ts) && Reads(ts, a, b) && Watcher(ts, a, b, L) && Wf(L)
    ensures Safe(L) <==> !Violated(ts, a, b)
  {
    hide Unreserved, Watcher, Reads, Starves;
    if !Safe(L) {
      var k: nat :| BadAt(L, k);
      var tr :| |tr| == k + 1 && Run(L, tr) && Eval(L.bad, tr[k]);
      BadStarves(ts, a, b, L, tr);
    }
    if Violated(ts, a, b) {
      var r :| Starves(ts, a, b, r);
      StarvesBad(ts, a, b, L, r);
    }
  }
}

/** liveness_to_safety and apply_assumptions: the augmented systems, built bit by bit. */
module Liveness {
  import opened Circuit
  import opened Transition
  import opened LassoSpec

  // ---- assumptions on a safety property ---------------------------------------------------

  /** What apply_assumptions builds. */
  ghost predicate Guarded(ts: TS, L: TS) {
    && Wf(L) && L.state == ts.state + [ASSM] && L.inputs == ts.inputs
    && (forall n | n in ts.state :: n in ts.init && n in L.init && L.init[n] == ts.init[n])
    && (forall n | n in ts.state :: n in ts.next && n in L.next && L.next[n] == ts.next[n])
    && ASSM in L.init && L.init[ASSM]
    && ASSM in L.next && (forall e :: Eval(L.next[ASSM], e) == (ASSM in e && Assumed(ts, e)))
    && (forall e :: Eval(L.bad, e) == (Eval(ts.bad, e) && ASSM in e && Assumed(ts, e)))
  }

  /** A run that obeys the assumptions in every cycle and ends in a bad one. */
  ghost predicate AssumedBadAt(ts: TS, k: nat)
    requires Wf(ts)
  {
    exists tr :: AssumedRun(ts, tr, k) && Eval(ts.bad, tr[k])
  }

  ghost predicate AssumedRun(ts: TS, tr: seq<Env>, k: nat)
    requires Wf(ts)
  {
    |tr| == k + 1 && Run(ts, tr) && forall x, t | x in ts.assumptions && 0 <= t <= k :: Eval(x, tr[t])
  }

  lemma AssumedThroughout(ts: TS, tr: seq<Env>, k: nat)
    requires Wf(ts) && |tr| == k + 1 && Run(ts, tr)
    ensures AssumedRun(ts, tr, k) <==> forall t | 0 <= t <= k :: Assumed(ts, tr[t])
  {
    hide Assumed, Run, Eval;
    forall t | 0 <= t <= k ensures Assumed(ts, tr[t]) <==> forall x | x in ts.assumptions :: Eval(x, tr[t]) {
      AssumedMeans(ts, tr[t]);
    }
  }

  /** The latch is up just while every cycle so far obeyed the assumptions. */
  lemma {:induction false} Latch(ts: TS, L: TS, tr: seq<Env>, t: nat)
    requires Wf(ts) && Guarded(ts, L) && Run(L, tr) && t < |tr|
    ensures ASSM in tr[t] <==> forall u | 0 <= u < t :: Assumed(ts, tr[u])
    decreases t
  {
    hide Assumed, ASSM;
    assert L.state[|ts.state|] == ASSM;
    assert ASSM in L.state && ASSM in States(L);
    if t == 0 {
      assert ASSM in tr[0] <==> ASSM in tr[0] * States(L);
    } else {
      Latch(ts, L, tr, t - 1);
      assert Steps(L, tr[t - 1], tr[t]);
      assert ASSM in tr[t] <==> ASSM in tr[t] * States(L);
    }
  }

  /** The design's part of a run of the guarded system. */
  lemma GuardedRun(ts: TS, L: TS, tr: seq<Env>, own: seq<Env>)
    requires Wf(ts) && Guarded(ts, L) && Run(L, tr) && ASSM !in Names(ts)
    requires |own| == |tr| && forall t | 0 <= t < |tr| :: own[t] == tr[t] * Names(ts)
    ensures Run(ts, own)
  {
    hide Assumed, ASSM;
    assert forall n :: n in L.state <==> n in ts.state || n == ASSM;
    assert own[0] * States(ts) == InitState(ts) by {
      forall n | n in States(ts) ensures n in own[0] <==> ts.init[n] {
        assert n in tr[0] <==> n in tr[0] * States(L);
      }
    }
    forall t | 0 < t < |own| ensures Steps(ts, own[t - 1], own[t]) {
      assert Steps(L, tr[t - 1], tr[t]);
      forall n | n in States(ts) ensures n in own[t] <==> Eval(ts.next[n], own[t - 1]) {
        EvalSupport(ts.next[n], own[t - 1], tr[t - 1]);
        assert n in tr[t] <==> n in tr[t] * States(L);
      }
      assert own[t] * States(ts) == Next(ts, own[t - 1]);
    }
  }

  /** An assumption-abiding run with the latch up throughout. */
  lemma LatchedRun(ts: TS, L: TS, own: seq<Env>, tr: seq<Env>, k: nat)
    requires Wf(ts) && Guarded(ts, L) && AssumedRun(ts, own, k) && ASSM !in Names(ts)
        && Within(ts.assumptions, Names(ts))
    requires |tr| == k + 1 && forall t | 0 <= t <= k :: tr[t] == own[t] + {ASSM}
    ensures Run(L, tr)
  {
    hide Assumed, ASSM;
    AssumedThroughout(ts, own, k);
    assert forall n :: n in L.state <==> n in ts.state || n == ASSM;
    assert tr[0] * States(L) == InitState(L) by {
      forall n | n in States(L) ensures n in tr[0] <==> L.init[n] {
        assert n in States(ts) ==> (n in own[0] <==> n in own[0] * States(ts));
      }
    }
    forall t | 0 < t < |tr| ensures Steps(L, tr[t - 1], tr[t]) {
      assert Steps(ts, own[t - 1], own[t]);
      SameAssumed(ts, tr[t - 1], own[t - 1]);
      forall n | n in States(L) ensures n in tr[t] <==> Eval(L.next[n], tr[t - 1]) {
        if n in States(ts) {
          EvalSupport(ts.next[n], own[t - 1], tr[t - 1]);
          assert n in own[t] <==> n in own[t] * States(ts);
        }
      }
      assert tr[t] * States(L) == Next(L, tr[t - 1]);
    }
  }

  lemma GuardSound(ts: TS, L: TS, tr: seq<Env>, k: nat)
    requires Wf(ts) && Guarded(ts, L) && ASSM !in Names(ts) && Within(ts.assumptions, Names(ts))
    requires |tr| == k + 1 && Run(L, tr) && Eval(L.bad, tr[k])
    ensures AssumedBadAt(ts, k)
  {
    hide Assumed, ASSM, Next, InitState;
    var own := seq(k + 1, t requires 0 <= t <= k => tr[t] * Names(ts));
    GuardedRun(ts, L, tr, own);
    Latch(ts, L, tr, k);
    forall t | 0 <= t <= k ensures Assumed(ts, own[t]) { SameAssumed(ts, tr[t], own[t]); }
    EvalSupport(ts.bad, tr[k], own[k]);
    AssumedThroughout(ts, own, k);
  }

  lemma GuardComplete(ts: TS, L: TS, own: seq<Env>, k: nat)
    requires Wf(ts) && Guarded(ts, L) && ASSM !in Names(ts) && Within(ts.assumptions, Names(ts))
    requires AssumedRun(ts, own, k) && Eval(ts.bad, own[k])
    ensures BadAt(L, k)
  {
    hide Assumed, ASSM, Next, InitState;
    var tr := seq(k + 1, t requires 0 <= t <= k => own[t] + {ASSM});
    AssumedThroughout(ts, own, k);
    LatchedRun(ts, L, own, tr, k);
    SameAssumed(ts, tr[k], own[k]);
    EvalSupport(ts.bad, tr[k], own[k]);
    assert |tr| == k + 1 && Run(L, tr) && Eval(L.bad, tr[k]);
  }

  /** The guarded system is bad at a depth just when the design is, on a run that obeys
      the assumptions in every cycle. */
  lemma GuardExact(ts: TS, L: TS, k: nat)
    requires Wf(ts) && Guarded(ts, L) && ASSM !in Names(ts) && Within(ts.assumptions, Names(ts))
    ensures BadAt(L, k) <==> AssumedBadAt(ts, k)
  {
    hide Assumed, ASSM, Run;
    if BadAt(L, k) {
      var tr :| |tr| == k + 1 && Run(L, tr) && Eval(L.bad, tr[k]);
      GuardSound(ts, L, tr, k);
    }
    if AssumedBadAt(ts, k) {
      var own :| AssumedRun(ts, own, k) && Eval(ts.bad, own[k]);
      GuardComplete(ts, L, own, k);
    }
  }

  // ---- the builders -----------------------------------------------------------------------

  ghost predicate Has(v: TS, n: Name, r: bool, x: Sig) {
    n in v.next && v.next[n] == x && n in v.init && v.init[n] == r
  }

  /** The design's inputs and state bits, carried over verbatim. */
  method Copy(ts: TS) returns (L: TransitionSystem)
    requires Wf(ts)
    ensures fresh(L) && L.state == ts.state && L.inputs == ts.inputs && L.liveness == [] && L.assumptions == []
    ensures forall n | n in ts.state :: Has(L.Value(), n, ts.init[n], ts.next[n])
  {
    L := new TransitionSystem();
    var i := 0;
    while i < |ts.inputs|
      invariant i <= |ts.inputs| && L.inputs == ts.inputs[..i] && L.state == [] && fresh(L)
      invariant L.liveness == [] && L.assumptions == []
    {
      var _ := L.AddInput(ts.inputs[i]);
      i := i + 1;
    }
    i := 0;
    while i < |ts.state|
      invariant i <= |ts.state| && L.inputs == ts.inputs && L.state == ts.state[..i] && fresh(L)
      invariant L.liveness == [] && L.assumptions == []
      invariant forall k | 0 <= k < i ::
        ts.state[k] in States(ts) && Has(L.Value(), ts.state[k], ts.init[ts.state[k]], ts.next[ts.state[k]])
    {
      var n := ts.state[i];
      assert n in States(ts);
      L.AddStateBit(n, ts.init[n], ts.next[n]);
      i := i + 1;
    }
  }

  /** The next-state function of the obligation monitor. */
  method PendingFn(a: Sig, b: Sig) returns (x: Sig)
    ensures forall e :: Eval(x, e) == ((PENDING in e || Eval(a, e)) && !Eval(b, e))
    ensures Support(x) <= {PENDING} + Support(a) + Support(b)
  {
    hide PENDING, Support;
    var owed := OrTwo(Leaf(PENDING), a);
    LeafSupport(PENDING);
    x := AndTwo(owed, NOT(b));
  }

  lemma LeafSupport(n: Name)
    ensures Support(Leaf(n)) == {n}
  {
  }

  method SavedFn() returns (x: Sig)
    ensures forall e :: Eval(x, e) == (SAVED in e || SAVE in e)
    ensures Support(x) <= {SAVED, SAVE}
  {
    hide SAVED, SAVE, Support;
    LeafSupport(SAVED);
    LeafSupport(SAVE);
    x := OrTwo(Leaf(SAVED), Leaf(SAVE));
  }

  function ShadowFn(w: Name): (x: Sig)
    ensures forall e :: Eval(x, e) == if SAVED in e then Shadow(w) in e else w in e
    ensures Support(x) <= {SAVED, Shadow(w), w}
  {
    LeafSupport(SAVED);
    LeafSupport(Shadow(w));
    LeafSupport(w);
    ITE(Leaf(SAVED), Leaf(Shadow(w)), Leaf(w))
  }

  method TriggeredFn() returns (x: Sig)
    ensures forall e :: Eval(x, e) == ((SAVED in e || SAVE in e) && (TRIGGERED in e || PENDING !in e))
    ensures Support(x) <= {SAVED, SAVE, TRIGGERED, PENDING}
  {
    hide SAVED, SAVE, TRIGGERED, PENDING, Support;
    LeafSupport(SAVED);
    LeafSupport(SAVE);
    LeafSupport(TRIGGERED);
    LeafSupport(PENDING);
    FalseSupport();
    var inLoop := OrTwo(Leaf(SAVED), Leaf(SAVE));
    var trig := OrTwo(Leaf(TRIGGERED), NOT(Leaf(PENDING)));
    x := ITE(inLoop, trig, FALSE);
  }

  lemma FalseSupport()
    ensures Support(FALSE) == {} && Support(TRUE) == {}
  {
  }

  method AssumedFn(ts: TS) returns (assm: Sig, x: Sig)
    requires Within(ts.assumptions, Names(ts))
    ensures forall e :: Eval(assm, e) <==> forall x | x in ts.assumptions :: Eval(x, e)
    ensures forall e :: Eval(x, e) <==> ASSM in e && Assumed(ts, e)
    ensures Support(assm) <= Names(ts)
    ensures Support(x) <= {ASSM} + Names(ts)
  {
    hide ASSM, Support, Eval, Names;
    assm := AND(ts.assumptions);
    LeafSupport(ASSM);
    LeafEval(ASSM);
    x := AndTwo(Leaf(ASSM), assm);
    forall e ensures Eval(assm, e) <==> forall x | x in ts.assumptions :: Eval(x, e) { AssumedMeans(ts, e); }
  }

  lemma LeafEval(n: Name)
    ensures forall e :: Eval(Leaf(n), e) <==> n in e
  {
  }

  /** The loop has closed: every watched bit equals its shadow. */
  method ClosedFn(ts: TS) returns (x: Sig)
    ensures forall e :: Eval(x, e) == Closed(ts, e)
    ensures Support(x) <= NameSet(Watched(ts)) + ShadowNames(ts)
  {
    hide PENDING, Shadow, Support, Watched;
    var ws := Watched(ts);
    var xs: seq<Sig> := [];
    while |xs| < |ws|
      invariant |xs| <= |ws|
      invariant forall k, e | 0 <= k < |xs| :: Eval(xs[k], e) <==> (ws[k] in e <==> Shadow(ws[k]) in e)
      invariant Within(xs, NameSet(ws) + ShadowNames(ts))
    {
      var w := ws[|xs|];
      assert w in ws && Shadow(w) in ShadowNames(ts);
      LeafSupport(w);
      LeafSupport(Shadow(w));
      xs := xs + [XNOR(Leaf(w), Leaf(Shadow(w)))];
    }
    x := AND(xs);
    forall e ensures Every(xs, e) == Closed(ts, e) {
      EqualAll(ts, xs, e);
    }
  }

  ghost function NameSet(ns: seq<Name>): set<Name> {
    set n | n in ns
  }

  lemma EqualAll(ts: TS, xs: seq<Sig>, e: Env)
    requires |xs| == |Watched(ts)|
    requires forall k | 0 <= k < |xs| :: Eval(xs[k], e) <==> (Watched(ts)[k] in e <==> Shadow(Watched(ts)[k]) in e)
    ensures Every(xs, e) == Closed(ts, e)
  {
    hide PENDING, Shadow, Watched;
    var ws := Watched(ts);
    if Every(xs, e) {
      forall w | w in ws ensures w in e <==> Shadow(w) in e {
        var k :| 0 <= k < |ws| && ws[k] == w;
        assert Eval(xs[k], e);
      }
    }
    if Closed(ts, e) {
      forall k | 0 <= k < |xs| ensures Eval(xs[k], e) {
        assert ws[k] in ws;
      }
    }
  }

  lemma EveryFour(x: Sig, y: Sig, z: Sig, w: Sig, e: Env)
    ensures Every([x, y, z, w], e) == (Eval(x, e) && Eval(y, e) && Eval(z, e) && Eval(w, e))
  {
    var xs := [x, y, z, w];
    assert xs[0] == x && xs[1] == y && xs[2] == z && xs[3] == w;
  }

  method LassoFn(ts: TS, closed: Sig, guard: Sig) returns (x: Sig)
    ensures forall e :: Eval(x, e) == (SAVED in e && Eval(closed, e) && TRIGGERED !in e && Eval(guard, e))
    ensures Support(x) <= {SAVED, TRIGGERED} + Support(closed) + Support(guard)
  {
    hide SAVED, TRIGGERED, Support, Eval;
    LeafSupport(SAVED);
    LeafSupport(TRIGGERED);
    LeafEval(SAVED);
    LeafEval(TRIGGERED);
    var nt := NOT(Leaf(TRIGGERED));
    x := AND([Leaf(SAVED), closed, nt, guard]);
    forall e ensures Every([Leaf(SAVED), closed, nt, guard], e) ==
        (SAVED in e && Eval(closed, e) && TRIGGERED !in e && Eval(guard, e))
    {
      EveryFour(Leaf(SAVED), closed, nt, guard, e);
    }
    assert Within([Leaf(SAVED), closed, nt, guard], {SAVED, TRIGGERED} + Support(closed) + Support(guard));
  }

  // ---- putting the bits together ------------------------------------------------------------

  type Bits = map<Name, (bool, Sig)>

  ghost predicate Built(v: TS, bits: Bits) {
    forall n | n in bits :: Has(v, n, bits[n].0, bits[n].1)
  }

  lemma BuiltMore(v: TS, bits: Bits, n: Name, r: bool, x: Sig)
    requires Built(v, bits)
    ensures Built(WithBit(v, n, r, x), bits[n := (r, x)])
  {
  }

  ghost function OwnBits(ts: TS): Bits
    requires Wf(ts)
  {
    map n | n in States(ts) :: (ts.init[n], ts.next[n])
  }

  ghost function ShadowBits(ws: seq<Name>): Bits {
    map n: Name | n in Shadows(ws) :: (false, ShadowFn(if |n| >= 9 then n[9..] else n))
  }

  lemma ShadowBitsMore(ws: seq<Name>, w: Name)
    ensures ShadowBits(ws + [w]) == ShadowBits(ws)[Shadow(w) := (false, ShadowFn(w))]
  {
    assert Shadow(w)[9..] == w;
    assert Shadows(ws + [w]) == Shadows(ws) + [Shadow(w)];
  }

  lemma ShadowBitsStep(bits: Bits, ws: seq<Name>, i: nat)
    requires i < |ws|
    ensures bits + ShadowBits(ws[..i + 1]) == (bits + ShadowBits(ws[..i]))[Shadow(ws[i]) := (false, ShadowFn(ws[i]))]
    ensures Shadows(ws[..i + 1]) == Shadows(ws[..i]) + [Shadow(ws[i])]
  {
    hide Shadow, ShadowFn, ShadowBits;
    ShadowBitsMore(ws[..i], ws[i]);
    assert ws[..i + 1] == ws[..i] + [ws[i]];
  }

  lemma NoShadowBits(bits: Bits)
    ensures bits + ShadowBits([]) == bits
  {
  }

  /** A shadow register for every watched bit. */
  method AddShadows(L: TransitionSystem, ws: seq<Name>, ghost bits: Bits)
    requires Built(L.Value(), bits)
    modifies L`state, L`next, L`init
    ensures Built(L.Value(), bits + ShadowBits(ws))
    ensures L.state == old(L.state) + Shadows(ws)
  {
    hide Shadow, Built, ShadowFn, ShadowBits, Shadows;
    NoShadowBits(bits);
    var i := 0;
    assert ws[..i] == [];
    while i < |ws|
      invariant i <= |ws| && Built(L.Value(), bits + ShadowBits(ws[..i]))
      invariant L.state == old(L.state) + Shadows(ws[..i])
    {
      BuiltMore(L.Value(), bits + ShadowBits(ws[..i]), Shadow(ws[i]), false, ShadowFn(ws[i]));
      L.AddStateBit(Shadow(ws[i]), false, ShadowFn(ws[i]));
      ShadowBitsStep(bits, ws, i);
      i := i + 1;
    }
    assert ws[..i] == ws;
  }

  /** All the bits of the watching system. */
  ghost function WatcherBits(ts: TS, xp: Sig, xs: Sig, xt: Sig, xa: Sig): Bits
    requires Wf(ts)
  {
    var base :=
        (OwnBits(ts)[PENDING := (false, xp)][SAVED := (false, xs)] + ShadowBits(Watched(ts)))[TRIGGERED := (false, xt)];
    if ts.assumptions == [] then base else base[ASSM := (true, xa)]
  }

  lemma BitsAre(ts: TS, xp: Sig, xs: Sig, xt: Sig, xa: Sig)
    requires Wf(ts) && Unreserved(ts)
    ensures var bits := WatcherBits(ts, xp, xs, xt, xa);
      && (forall n | n in States(ts) :: n in bits && bits[n] == (ts.init[n], ts.next[n]))
      && PENDING in bits && bits[PENDING] == (false, xp) && SAVED in bits && bits[SAVED] == (false, xs)
      && TRIGGERED in bits && bits[TRIGGERED] == (false, xt)
      && (ts.assumptions != [] ==> ASSM in bits && bits[ASSM] == (true, xa))
      && (forall w | w in Watched(ts) :: Shadow(w) in bits && bits[Shadow(w)] == (false, ShadowFn(w)))
  {
    hide PENDING, SAVED, SAVE, TRIGGERED, ASSM, Shadow, ShadowFn, Watched, Shadows, ShadowBits, ShadowNames,
        Unreserved, Wf, Names;
    FixedApart();
    ShadowsApart(ts);
    StatesApart(ts);
    ShadowBitsKeys(ts);
    forall w | w in Watched(ts)
      ensures Shadow(w) in ShadowBits(Watched(ts)) && ShadowBits(Watched(ts))[Shadow(w)] == (false, ShadowFn(w))
      ensures Shadow(w) in ShadowNames(ts)
    {
      ShadowBitsAt(ts, w);
    }
  }

  lemma StatesApart(ts: TS)
    requires Wf(ts) && Unreserved(ts)
    ensures States(ts) !! {PENDING, SAVED, SAVE, TRIGGERED, ASSM} && States(ts) !! ShadowNames(ts)
    ensures States(ts) <= ts.init.Keys && States(ts) <= ts.next.Keys
  {
  }

  lemma ShadowBitsKeys(ts: TS)
    ensures ShadowBits(Watched(ts)).Keys == ShadowNames(ts)
  {
    hide Shadow, ShadowFn, Watched, Shadows;
    forall n ensures n in Shadows(Watched(ts)) <==> n in ShadowNames(ts) { ShadowsIn(ts, n); }
  }

  lemma ShadowBitsAt(ts: TS, w: Name)
    requires w in Watched(ts)
    ensures Shadow(w) in ShadowNames(ts)
    ensures Shadow(w) in ShadowBits(Watched(ts)) && ShadowBits(Watched(ts))[Shadow(w)] == (false, ShadowFn(w))
  {
    hide PENDING, Watched;
    ShadowsIn(ts, Shadow(w));
    assert Shadow(w)[9..] == w;
  }

  /** The functions the builder made. */
  ghost predicate Fns(ts: TS, a: Sig, b: Sig, xp: Sig, xs: Sig, xt: Sig, xa: Sig) {
    && (forall e :: Eval(xp, e) == ((PENDING in e || Eval(a, e)) && !Eval(b, e)))
    && (forall e :: Eval(xs, e) == (SAVED in e || SAVE in e))
    && (forall e :: Eval(xt, e) == ((SAVED in e || SAVE in e) && (TRIGGERED in e || PENDING !in e)))
    && (forall e :: Eval(xa, e) == (ASSM in e && Assumed(ts, e)))
    && Support(xp) <= {PENDING} + Names(ts) && Support(xs) <= {SAVED, SAVE}
    && Support(xt) <= {SAVED, SAVE, TRIGGERED, PENDING} && Support(xa) <= {ASSM} + Names(ts)
  }

  ghost predicate BadFn(ts: TS, bad: Sig) {
    && (forall e :: Eval(bad, e) == (SAVED in e && Closed(ts, e) && TRIGGERED !in e && AssumedSoFar(ts, e)))
    && Support(bad) <= {SAVED, TRIGGERED} + NameSet(Watched(ts)) + ShadowNames(ts)
        + (if ts.assumptions == [] then {} else {ASSM} + Names(ts))
  }

  lemma BuiltInit(ts: TS, L: TS, xp: Sig, xs: Sig, xt: Sig, xa: Sig)
    requires Wf(ts) && Unreserved(ts) && Built(L, WatcherBits(ts, xp, xs, xt, xa))
    ensures WatcherInit(ts, L)
  {
    hide PENDING, SAVED, SAVE, TRIGGERED, ASSM, Shadow, ShadowFn, Watched, WatcherBits, Unreserved;
    BitsAre(ts, xp, xs, xt, xa);
    forall n | n in ts.state ensures n in States(ts) {}
    forall w | w in Watched(ts) ensures Has(L, Shadow(w), false, ShadowFn(w)) {}
  }

  lemma BuiltHas(ts: TS, L: TS, xp: Sig, xs: Sig, xt: Sig, xa: Sig)
    requires Wf(ts) && Unreserved(ts) && Built(L, WatcherBits(ts, xp, xs, xt, xa))
    ensures Has(L, PENDING, false, xp) && Has(L, SAVED, false, xs) && Has(L, TRIGGERED, false, xt)
    ensures ts.assumptions != [] ==> Has(L, ASSM, true, xa)
    ensures forall n | n in States(ts) :: n in ts.init && n in ts.next && Has(L, n, ts.init[n], ts.next[n])
    ensures forall w | w in Watched(ts) :: Has(L, Shadow(w), false, ShadowFn(w))
  {
    hide PENDING, SAVED, SAVE, TRIGGERED, ASSM, Shadow, ShadowFn, Watched, WatcherBits, Unreserved;
    BitsAre(ts, xp, xs, xt, xa);
  }

  lemma BuiltShadows(ts: TS, L: TS)
    requires forall w | w in Watched(ts) :: Has(L, Shadow(w), false, ShadowFn(w))
    ensures ShadowNames(ts) <= L.next.Keys
    ensures forall w, e | w in Watched(ts) ::
      Eval(L.next[Shadow(w)], e) == if SAVED in e then Shadow(w) in e else w in e
  {
    hide PENDING, SAVED, Shadow, ShadowFn, Watched, Eval;
  }

  lemma BuiltNext(ts: TS, a: Sig, b: Sig, L: TS, xp: Sig, xs: Sig, xt: Sig, xa: Sig)
    requires Wf(ts) && Unreserved(ts) && Built(L, WatcherBits(ts, xp, xs, xt, xa)) && Fns(ts, a, b, xp, xs, xt, xa)
    ensures WatcherNext(ts, a, b, L)
  {
    hide PENDING, SAVED, SAVE, TRIGGERED, ASSM, Shadow, ShadowFn, Watched, WatcherBits, Unreserved, Assumed, Eval,
      ShadowNames, Built, Names;
    BuiltHas(ts, L, xp, xs, xt, xa);
    BuiltShadows(ts, L);
    forall n | n in ts.state ensures n in States(ts) {}
  }

  lemma WatcherDistinct(ts: TS)
    requires Wf(ts) && Unreserved(ts)
    ensures Distinct(WatcherState(ts)) && Distinct(ts.inputs + [SAVE])
  {
    FixedApart();
    ShadowsApart(ts);
    var ws := Watched(ts);
    forall n | n in ts.state ensures n in Names(ts) && n in States(ts) {}
    forall n | n in ts.inputs ensures n in Names(ts) {}
    hide PENDING, SAVED, SAVE, TRIGGERED, ASSM, Shadow;
    assert Distinct(ws);
    assert Distinct(Shadows(ws));
    forall n ensures n in Shadows(ws) <==> n in ShadowNames(ts) { ShadowsIn(ts, n); }
    hide Watched, Shadows, ShadowNames;
    DistinctConcat(ts.state, [PENDING, SAVED]);
    DistinctConcat(ts.state + [PENDING, SAVED], Shadows(ws));
    DistinctConcat(ts.state + [PENDING, SAVED] + Shadows(ws), [TRIGGERED]);
    DistinctConcat(ts.state + [PENDING, SAVED] + Shadows(ws) + [TRIGGERED], [ASSM]);
    DistinctConcat(ts.inputs, [SAVE]);
    assert WatcherState(ts) == ts.state + [PENDING, SAVED] + Shadows(ws) + [TRIGGERED] + (if ts.assumptions == []
        then [] else [ASSM]);
  }

  lemma DistinctConcat(a: seq<Name>, b: seq<Name>)
    requires Distinct(a) && Distinct(b) && forall n | n in a :: n !in b
    ensures Distinct(a + b)
  {
    var c := a + b;
    forall i, j | 0 <= i < j < |c| ensures c[i] != c[j] {
      if i < |a| <= j {
        assert c[i] in a && c[j] in b;
      }
    }
  }

  ghost predicate ReadsOnly(L: TS, n: Name) {
    n in L.next && n in L.init && Support(L.next[n]) <= Names(L)
  }

  lemma BuiltOwn(ts: TS, L: TS, n: Name)
    requires Wf(ts) && n in States(ts) && n in ts.init && n in ts.next && Has(L, n, ts.init[n], ts.next[n])
    requires Names(ts) <= Names(L)
    ensures ReadsOnly(L, n)
  {
    OwnSupport(ts, n);
  }

  lemma BuiltShadow(ts: TS, L: TS, w: Name)
    requires w in Watched(ts) && Has(L, Shadow(w), false, ShadowFn(w))
    requires Names(ts) + ShadowNames(ts) + {SAVED, PENDING} <= Names(L)
    ensures ReadsOnly(L, Shadow(w))
  {
    hide Shadow, SAVED, ShadowFn, Names;
    ShadowName(ts, w);
    WatchedState(ts, w);
    StatesIn(ts);
  }

  lemma StatesIn(ts: TS)
    ensures States(ts) <= Names(ts)
  {
  }

  /** The construction declares each name once and its functions read declared names. */
  lemma BuiltWf(ts: TS, L: TS, xp: Sig, xs: Sig, xt: Sig, xa: Sig, a: Sig, b: Sig)
    requires Wf(ts) && Unreserved(ts) && Built(L, WatcherBits(ts, xp, xs, xt, xa)) && Fns(ts, a, b, xp, xs, xt, xa)
    requires L.state == WatcherState(ts) && L.inputs == ts.inputs + [SAVE] && BadFn(ts, L.bad)
    ensures Wf(L)
  {
    hide PENDING, SAVED, SAVE, TRIGGERED, ASSM, Shadow, ShadowFn, Watched, WatcherBits, Unreserved, Built, WatcherState,
      ShadowNames, Fns, BadFn, Support, Distinct, ReadsOnly;
    BuiltHas(ts, L, xp, xs, xt, xa);
    WatcherDistinct(ts);
    NamesOf(ts, L);
    FixedApart();
    ShadowsApart(ts);
    StatesApart(ts);
    InputsApart(ts);
    FnSupports(ts, a, b, L, xp, xs, xt, xa);
    forall n | n in States(L) ensures ReadsOnly(L, n) {
      if n in States(ts) {
        BuiltOwn(ts, L, n);
      } else if n in ShadowNames(ts) {
        var w := ShadowOf(ts, n);
        BuiltShadow(ts, L, w);
      }
    }
    WfFrom(L);
  }

  lemma WfFrom(L: TS)
    requires Distinct(L.state) && Distinct(L.inputs) && States(L) !! Inputs(L) && Support(L.bad) <= Names(L)
    requires forall n | n in States(L) :: ReadsOnly(L, n)
    ensures Wf(L)
  {
    forall n | n in L.state ensures n in States(L) {}
  }

  lemma FnSupports(ts: TS, a: Sig, b: Sig, L: TS, xp: Sig, xs: Sig, xt: Sig, xa: Sig)
    requires Fns(ts, a, b, xp, xs, xt, xa) && BadFn(ts, L.bad)
    requires Has(L, PENDING, false, xp) && Has(L, SAVED, false, xs) && Has(L, TRIGGERED, false, xt)
    requires ts.assumptions != [] ==> Has(L, ASSM, true, xa)
    requires States(L) == States(ts) + {PENDING, SAVED, TRIGGERED} + ShadowNames(ts) + (if ts.assumptions == [] then {}
        else {ASSM})
    requires Inputs(L) == Inputs(ts) + {SAVE}
    ensures ReadsOnly(L, PENDING) && ReadsOnly(L, SAVED) && ReadsOnly(L, TRIGGERED)
    ensures ts.assumptions != [] ==> ReadsOnly(L, ASSM)
    ensures Support(L.bad) <= Names(L)
  {
    hide PENDING, SAVED, SAVE, TRIGGERED, ASSM, Shadow, Watched, ShadowNames, Support, Eval, Assumed, Closed,
        AssumedSoFar;
    forall w | w in NameSet(Watched(ts)) ensures w in Names(L) { WatchedState(ts, w); }
  }

  lemma OwnSupport(ts: TS, n: Name)
    requires Wf(ts) && n in States(ts)
    ensures Support(ts.next[n]) <= Names(ts)
  {
  }

  lemma InputsApart(ts: TS)
    requires Wf(ts) && Unreserved(ts)
    ensures Inputs(ts) !! {PENDING, SAVED, SAVE, TRIGGERED, ASSM} && Inputs(ts) !! ShadowNames(ts)
        && Inputs(ts) !! States(ts)
  {
  }

  lemma ShadowName(ts: TS, w: Name)
    requires w in Watched(ts)
    ensures Shadow(w) in ShadowNames(ts)
  {
  }

  lemma ShadowOf(ts: TS, n: Name) returns (w: Name)
    requires n in ShadowNames(ts)
    ensures w in Watched(ts) && Shadow(w) == n
  {
    w :| w in Watched(ts) && Shadow(w) == n;
  }

  lemma NamesOf(ts: TS, L: TS)
    requires L.state == WatcherState(ts) && L.inputs == ts.inputs + [SAVE]
    ensures States(L) == States(ts) + {PENDING, SAVED, TRIGGERED} + ShadowNames(ts) + (if ts.assumptions == [] then {}
        else {ASSM})
    ensures Inputs(L) == Inputs(ts) + {SAVE}
  {
    hide PENDING, SAVED, SAVE, TRIGGERED, ASSM, WatcherState, ShadowNames;
    forall n ensures n in States(L) <==>
        n in States(ts) + {PENDING, SAVED, TRIGGERED} + ShadowNames(ts) + (if ts.assumptions == [] then {} else {ASSM})
    {
      StateIn(ts, n);
    }
  }

  /** The guard of the lasso: the latch and the assumptions now, if there are any. */
  method GuardFn(ts: TS, xa: Sig) returns (guard: Sig)
    requires forall e :: Eval(xa, e) == (ASSM in e && Assumed(ts, e))
    requires Support(xa) <= {ASSM} + Names(ts)
    ensures forall e :: Eval(guard, e) == AssumedSoFar(ts, e)
    ensures Support(guard) <= if ts.assumptions == [] then {} else {ASSM} + Names(ts)
  {
    hide ASSM, Assumed, Names, Support;
    FalseSupport();
    if ts.assumptions == [] {
      guard := TRUE;
    } else {
      guard := xa;
    }
  }

  lemma ReadsParts(ts: TS, a: Sig, b: Sig)
    requires Reads(ts, a, b)
    ensures Support(a) <= Names(ts) && Support(b) <= Names(ts) && Within(ts.assumptions, Names(ts))
  {
  }

  lemma OwnBuilt(ts: TS, v: TS)
    requires Wf(ts) && forall n | n in ts.state :: Has(v, n, ts.init[n], ts.next[n])
    ensures Built(v, OwnBits(ts))
  {
  }

  lemma SameBuilt(v: TS, v': TS, bits: Bits)
    requires Built(v, bits) && v'.next == v.next && v'.init == v.init
    ensures Built(v', bits)
  {
  }

  /** All the declarations: inputs and the oracle, the design's bits, the monitor, the
      latches and the shadows. */
  method Declare(ts: TS, xp: Sig, xs: Sig, xt: Sig, xa: Sig) returns (L: TransitionSystem)
    requires Wf(ts)
    ensures fresh(L) && L.state == WatcherState(ts) && L.inputs == ts.inputs + [SAVE]
    ensures L.liveness == [] && L.assumptions == []
    ensures Built(L.Value(), WatcherBits(ts, xp, xs, xt, xa))
  {
    hide PENDING, SAVED, SAVE, TRIGGERED, ASSM, Watched, Built, OwnBits, ShadowBits, Shadows, Has;
    L := Copy(ts);
    OwnBuilt(ts, L.Value());
    ghost var v := L.Value();
    var _ := L.AddInput(SAVE);
    SameBuilt(v, L.Value(), OwnBits(ts));
    BuiltMore(L.Value(), OwnBits(ts), PENDING, false, xp);
    L.AddStateBit(PENDING, false, xp);
    ghost var bits := OwnBits(ts)[PENDING := (false, xp)];
    BuiltMore(L.Value(), bits, SAVED, false, xs);
    L.AddStateBit(SAVED, false, xs);
    bits := bits[SAVED := (false, xs)];
    AddShadows(L, Watched(ts), bits);
    bits := bits + ShadowBits(Watched(ts));
    BuiltMore(L.Value(), bits, TRIGGERED, false, xt);
    L.AddStateBit(TRIGGERED, false, xt);
    bits := bits[TRIGGERED := (false, xt)];
    if ts.assumptions != [] {
      BuiltMore(L.Value(), bits, ASSM, true, xa);
      L.AddStateBit(ASSM, true, xa);
    }
    assert ts.state + [PENDING] + [SAVED] == ts.state + [PENDING, SAVED];
  }

  /** The bad predicate: the loop has closed and nothing good happened on it. */
  method LoopBad(ts: TS, xa: Sig) returns (bad: Sig)
    requires forall e :: Eval(xa, e) == (ASSM in e && Assumed(ts, e))
    requires Support(xa) <= {ASSM} + Names(ts)
    ensures BadFn(ts, bad)
  {
    hide SAVED, TRIGGERED, ASSM, Assumed, Names, Support, Eval, Closed, AssumedSoFar, ShadowNames, Watched;
    var closed := ClosedFn(ts);
    var guard := GuardFn(ts, xa);
    bad := LassoFn(ts, closed, guard);
  }

  lemma WatcherFromParts(ts: TS, a: Sig, b: Sig, L: TS)
    requires Wf(L) && L.state == WatcherState(ts) && L.inputs == ts.inputs + [SAVE]
    requires WatcherInit(ts, L) && WatcherNext(ts, a, b, L) && BadFn(ts, L.bad)
    ensures Watcher(ts, a, b, L)
  {
  }

  /** liveness_to_safety. */
  method LivenessToSafety(ts: TS, idx: nat) returns (L: TransitionSystem)
    requires Wf(ts) && Unreserved(ts) && idx < |ts.liveness| && Reads(ts, ts.liveness[idx].0, ts.liveness[idx].1)
    ensures fresh(L) && Watcher(ts, ts.liveness[idx].0, ts.liveness[idx].1, L.Value()) && Wf(L.Value())
    ensures L.liveness == [] && L.assumptions == []
    ensures Safe(L.Value()) <==> !Violated(ts, ts.liveness[idx].0, ts.liveness[idx].1)
  {
    hide PENDING, SAVED, SAVE, TRIGGERED, ASSM, Unreserved, Reads, Built, WatcherState, WatcherBits, WatcherInit,
        WatcherNext,
      Watcher, Violated, Assumed, Support, Eval, Names, BadFn, Wf;
    var a, b := ts.liveness[idx].0, ts.liveness[idx].1;
    ReadsParts(ts, a, b);
    var xp := PendingFn(a, b);
    var xs := SavedFn();
    var xt := TriggeredFn();
    var _, xa := AssumedFn(ts);
    assert Fns(ts, a, b, xp, xs, xt, xa);
    hide Fns;
    var bad := LoopBad(ts, xa);
    L := Declare(ts, xp, xs, xt, xa);
    ghost var v := L.Value();
    L.bad := bad;
    SameBuilt(v, L.Value(), WatcherBits(ts, xp, xs, xt, xa));
    BuiltWf(ts, L.Value(), xp, xs, xt, xa, a, b);
    BuiltInit(ts, L.Value(), xp, xs, xt, xa);
    BuiltNext(ts, a, b, L.Value(), xp, xs, xt, xa);
    WatcherFromParts(ts, a, b, L.Value());
    Exact(ts, a, b, L.Value());
  }

  /** apply_assumptions: without assumptions the system is returned as it is. */
  method ApplyAssumptions(ts: TS) returns (r: TS)
    requires Wf(ts) && ASSM !in Names(ts) && Within(ts.assumptions, Names(ts))
    ensures ts.assumptions == [] ==> r == ts
    ensures ts.assumptions != [] ==> Guarded(ts, r)
    ensures r.liveness == ts.liveness && r.assumptions == ts.assumptions
    ensures Wf(r) && forall k: nat :: BadAt(r, k) <==> AssumedBadAt(ts, k)
  {
    hide ASSM, Assumed, Support, Eval, Guarded, AssumedBadAt, BadAt;
    if ts.assumptions == [] {
      r := ts;
      forall k: nat ensures BadAt(r, k) <==> AssumedBadAt(ts, k) { NothingAssumed(ts, k); }
      return;
    }
    var assm, xa := AssumedFn(ts);
    forall e ensures Eval(assm, e) <==> Assumed(ts, e) { AssumedMeans(ts, e); }
    var bad := AndThree(ts.bad, Leaf(ASSM), assm);
    LeafEval(ASSM);
    LeafSupport(ASSM);
    var L := Copy(ts);
    ghost var v := L.Value();
    L.AddStateBit(ASSM, true, xa);
    L.bad, L.liveness, L.assumptions := bad, ts.liveness, ts.assumptions;
    r := L.Value();
    GuardBuilt(ts, v, r, xa);
    forall k: nat ensures BadAt(r, k) <==> AssumedBadAt(ts, k) { GuardExact(ts, r, k); }
  }

  lemma NothingAssumed(ts: TS, k: nat)
    requires Wf(ts) && ts.assumptions == []
    ensures BadAt(ts, k) <==> AssumedBadAt(ts, k)
  {
    if BadAt(ts, k) {
      var tr :| |tr| == k + 1 && Run(ts, tr) && Eval(ts.bad, tr[k]);
      assert AssumedRun(ts, tr, k);
    }
  }

  lemma GuardBuilt(ts: TS, v: TS, r: TS, xa: Sig)
    requires Wf(ts) && ASSM !in Names(ts) && v.state == ts.state && v.inputs == ts.inputs
    requires forall n | n in ts.state :: Has(v, n, ts.init[n], ts.next[n])
    requires (forall e :: Eval(xa, e) == (ASSM in e && Assumed(ts, e))) && Support(xa) <= {ASSM} + Names(ts)
    requires r.state == ts.state + [ASSM] && r.inputs == ts.inputs
    requires r.next == v.next[ASSM := xa] && r.init == v.init[ASSM := true]
    requires forall e :: Eval(r.bad, e) == (Eval(ts.bad, e) && ASSM in e && Assumed(ts, e))
    requires Support(r.bad) <= Names(ts) + {ASSM}
    ensures Guarded(ts, r) && Wf(r)
  {
    hide ASSM, Assumed, Support, Eval;
    forall n | n in ts.state ensures n in States(ts) && n != ASSM && Support(ts.next[n]) <= Names(ts) {
      assert n in States(ts);
    }
    assert forall n :: n in r.state <==> n in ts.state || n == ASSM;
    DistinctConcat(ts.state, [ASSM]);
    assert Names(r) == Names(ts) + {ASSM};
  }
}

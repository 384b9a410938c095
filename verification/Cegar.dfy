/** Counterexample-guided abstraction refinement by localization. */
module Cegar {
  import opened Sets
  import opened Circuit
  import opened Ternary
  import opened Trail
  import opened Transition
  import Bmc
  import Frames
  import Ic3Spec
  import Convergence
  import Pdr

  // ---- localization -----------------------------------------------------------------------

  /** The names in (or out of) the set, in order. */
  function Select(ns: seq<Name>, keep: set<Name>, inside: bool): (r: seq<Name>)
    ensures forall n :: n in r <==> n in ns && (n in keep) == inside
    ensures Distinct(ns) ==> Distinct(r)
  {
    if ns == [] then []
    else
      var rest := Select(ns[1..], keep, inside);
      assert ns == [ns[0]] + ns[1..];
      if (ns[0] in keep) == inside then [ns[0]] + rest else rest
  }

  /** Only the names in the list matter. */
  lemma {:induction false} SelectAgain(ns: seq<Name>, keep: set<Name>, keep': set<Name>)
    requires forall n | n in ns :: n in keep' <==> n in keep
    ensures Select(ns, keep', true) == Select(ns, keep, true)
  {
    if ns != [] {
      SelectAgain(ns[1..], keep, keep');
    }
  }

  lemma SelectMore(ns: seq<Name>, i: nat, keep: set<Name>, inside: bool)
    requires i < |ns|
    ensures Select(ns[..i + 1], keep, inside) ==
      Select(ns[..i], keep, inside) + (if (ns[i] in keep) == inside then [ns[i]] else [])
  {
    SelectConcat(ns[..i], [ns[i]], keep, inside);
    assert ns[..i + 1] == ns[..i] + [ns[i]];
    assert [ns[i]][1..] == [];
  }

  lemma {:induction false} SelectConcat(a: seq<Name>, b: seq<Name>, keep: set<Name>, inside: bool)
    ensures Select(a + b, keep, inside) == Select(a, keep, inside) + Select(b, keep, inside)
  {
    if a == [] {
      assert a + b == b;
    } else {
      assert (a + b)[1..] == a[1..] + b;
      SelectConcat(a[1..], b, keep, inside);
    }
  }

  /** The kept bits follow the design; the others are free inputs. */
  ghost predicate Localized(ts: TS, keep: set<Name>, a: TS) {
    && a.state == Select(ts.state, keep, true) && a.inputs == ts.inputs + Select(ts.state, keep, false)
    && (forall n | n in a.state :: n in ts.next && n in a.next && a.next[n] == ts.next[n])
    && (forall n | n in a.state :: n in ts.init && n in a.init && a.init[n] == ts.init[n])
    && a.bad == ts.bad && a.assumptions == ts.assumptions
  }

  method Localize(ts: TS, keep: set<Name>) returns (a: TS)
    requires Wf(ts)
    ensures Localized(ts, keep, a) && Wf(a) && Names(a) == Names(ts) && a.bad == ts.bad
  {
    hide Support, Localized, Wf, States, Inputs, Names, Copied;
    var L := new TransitionSystem();
    var i := 0;
    NoneCopied(ts, keep, L.Value());
    while i < |ts.state|
      invariant i <= |ts.state| && fresh(L) && Copied(ts, keep, L.Value(), i)
    {
      var n := ts.state[i];
      HasBoth(ts, i);
      CopiedNext(ts, keep, L.Value(), i);
      if n in keep {
        L.AddStateBit(n, ts.init[n], ts.next[n]);
      }
      i := i + 1;
    }
    AllCopied(ts, keep, L.Value());
    L.inputs := ts.inputs + Select(ts.state, keep, false);
    L.bad, L.assumptions := ts.bad, ts.assumptions;
    a := L.Value();
    LocalizedIs(ts, keep, a);
    LocalizedWf(ts, keep, a);
  }

  /** The kept ones of the first `i` bits, with their functions and reset values. */
  ghost predicate Copied(ts: TS, keep: set<Name>, v: TS, i: nat) {
    && i <= |ts.state| && v.state == Select(ts.state[..i], keep, true)
    && forall n | n in v.state ::
         n in ts.next && n in ts.init && n in v.next && v.next[n] == ts.next[n] && n in v.init
             && v.init[n] == ts.init[n]
  }

  lemma NoneCopied(ts: TS, keep: set<Name>, v: TS)
    requires v.state == []
    ensures Copied(ts, keep, v, 0)
  {
  }

  lemma CopiedNext(ts: TS, keep: set<Name>, v: TS, i: nat)
    requires i < |ts.state| && Copied(ts, keep, v, i) && ts.state[i] in ts.next && ts.state[i] in ts.init
    ensures var n := ts.state[i];
      Copied(ts, keep, if n in keep then WithBit(v, n, ts.init[n], ts.next[n]) else v, i + 1)
  {
    SelectMore(ts.state, i, keep, true);
  }

  lemma AllCopied(ts: TS, keep: set<Name>, v: TS)
    requires Copied(ts, keep, v, |ts.state|)
    ensures v.state == Select(ts.state, keep, true)
    ensures forall n | n in v.state ::
      n in ts.next && n in ts.init && n in v.next && v.next[n] == ts.next[n] && n in v.init && v.init[n] == ts.init[n]
  {
    assert ts.state[..|ts.state|] == ts.state;
  }

  lemma HasBoth(ts: TS, i: nat)
    requires Wf(ts) && i < |ts.state|
    ensures ts.state[i] in ts.next && ts.state[i] in ts.init
  {
    assert ts.state[i] in States(ts);
  }

  lemma LocalizedIs(ts: TS, keep: set<Name>, a: TS)
    requires a.state == Select(ts.state, keep, true) && a.inputs == ts.inputs + Select(ts.state, keep, false)
    requires forall n | n in a.state ::
      n in ts.next && n in a.next && a.next[n] == ts.next[n] && n in ts.init && n in a.init && a.init[n] == ts.init[n]
    requires a.bad == ts.bad && a.assumptions == ts.assumptions
    ensures Localized(ts, keep, a)
  {
  }

  lemma LocalizedWf(ts: TS, keep: set<Name>, a: TS)
    requires Wf(ts) && Localized(ts, keep, a)
    ensures Wf(a) && Names(a) == Names(ts) && States(a) == States(ts) * keep
  {
    assert Names(a) == Names(ts) by {
      forall n ensures n in Names(a) <==> n in Names(ts) {}
    }
    var freed := Select(ts.state, keep, false);
    assert Distinct(a.inputs) by {
      forall i, j | 0 <= i < j < |a.inputs| ensures a.inputs[i] != a.inputs[j] {
        if i < |ts.inputs| <= j {
          assert a.inputs[i] in Inputs(ts) && a.inputs[j] in freed && a.inputs[j] in States(ts);
        }
      }
    }
    assert States(a) !! Inputs(a);
    forall n | n in a.state ensures Support(a.next[n]) <= Names(a) { assert n in ts.state; }
  }

  /** Every run of the design is a run of the abstraction. */
  lemma LocalizedRun(ts: TS, keep: set<Name>, a: TS, tr: seq<Env>)
    requires Wf(ts) && Localized(ts, keep, a) && Wf(a) && Run(ts, tr)
    ensures Run(a, tr)
  {
    LocalizedWf(ts, keep, a);
    assert tr[0] * States(a) == InitState(a) by {
      forall n | n in States(a) ensures n in tr[0] <==> a.init[n] {
        assert n in tr[0] <==> n in tr[0] * States(ts);
      }
    }
    forall t | 0 < t < |tr| ensures Steps(a, tr[t - 1], tr[t]) {
      assert Steps(ts, tr[t - 1], tr[t]);
      forall n | n in States(a) ensures n in tr[t] <==> Eval(a.next[n], tr[t - 1]) {
        assert n in tr[t] <==> n in tr[t] * States(ts);
      }
      assert tr[t] * States(a) == Next(a, tr[t - 1]);
    }
  }

  /** A proof on the abstraction is a proof. */
  lemma LocalizedSafe(ts: TS, keep: set<Name>, a: TS)
    requires Wf(ts) && Localized(ts, keep, a) && Wf(a) && Safe(a)
    ensures Safe(ts)
  {
    forall k: nat ensures !BadAt(ts, k) {
      forall tr | |tr| == k + 1 && Run(ts, tr) ensures !Eval(ts.bad, tr[k]) {
        LocalizedRun(ts, keep, a, tr);
        assert !BadAt(a, k);
      }
    }
  }

  // ---- replay ----------------------------------------------------------------------------------

  /** The design's run from reset under the inputs of `cex`, as far as `rows` goes. */
  ghost predicate Replay(ts: TS, cex: seq<Env>, rows: seq<Env>)
    requires Wf(ts)
  {
    |rows| <= |cex| && (rows != [] ==> Run(ts, rows)) && forall t | 0 <= t < |rows| ::
        rows[t] * Inputs(ts) == cex[t] * Inputs(ts)
  }

  /** A definite value under a definite environment is the Boolean value. */
  lemma DefiniteValue(ts: TS, s: Sig, e: Env)
    requires Support(s) <= Names(ts)
    ensures Kleene(s, Exact(e, Names(ts))) == Of(Eval(s, e)) && Support(s) <= Exact(e, Names(ts)).Keys
  {
    ExactKleene(s, e, Names(ts));
  }

  /** One clock edge by simulation. */
  method Clock(ts: TS, e: Env, memo0: map<Sig, Tern>) returns (st: Env)
    requires Wf(ts) && e <= Names(ts) && MemoRight(memo0, Exact(e, Names(ts)))
    ensures st == Next(ts, e)
  {
    hide Kleene, Support, Eval;
    var memo := memo0;
    st := {};
    var i := 0;
    while i < |ts.state|
      invariant i <= |ts.state| && MemoRight(memo, Exact(e, Names(ts)))
      invariant forall n :: n in st <==> n in ts.state[..i] && n in ts.next && Eval(ts.next[n], e)
    {
      var n := ts.state[i];
      assert n in States(ts);
      assert ts.state[..i + 1] == ts.state[..i] + [n];
      DefiniteValue(ts, ts.next[n], e);
      var v;
      v, memo := TernaryEval(ts.next[n], Exact(e, Names(ts)), memo);
      if v == One {
        st := st + {n};
      }
      i := i + 1;
    }
    assert ts.state[..i] == ts.state;
  }

  lemma NoMemo(t: TEnv)
    ensures MemoRight(map[], t)
  {
  }

  /** _simulate: the first cycle where bad holds, if any, and the valuations up to it. */
  method Simulate(ts: TS, cex: seq<Env>) returns (badAt: Option<nat>, rows: seq<Env>)
    requires Wf(ts)
    ensures Replay(ts, cex, rows)
    ensures badAt.Some? ==>
      && |rows| == badAt.value + 1 && Eval(ts.bad, rows[badAt.value])
      && forall t | 0 <= t < badAt.value :: !Eval(ts.bad, rows[t])
    ensures badAt.None? ==> |rows| == |cex| && forall t | 0 <= t < |rows| :: !Eval(ts.bad, rows[t])
  {
    hide Kleene, Support, Eval;
    var state := Reset(ts);
    rows := [];
    while |rows| < |cex|
      invariant |rows| <= |cex| && Replay(ts, cex, rows) && state <= States(ts)
      invariant |rows| < |cex| ==> state == if rows == [] then InitState(ts) else Next(ts, rows[|rows| - 1])
      invariant forall t | 0 <= t < |rows| :: !Eval(ts.bad, rows[t])
    {
      var t := |rows|;
      var e := state + cex[t] * Inputs(ts);
      Cycle(ts, state, cex[t], e);
      ReplayMore(ts, cex, rows, e);
      rows := rows + [e];
      DefiniteBad(ts, e);
      NoMemo(Exact(e, Names(ts)));
      var v, memo := TernaryEval(ts.bad, Exact(e, Names(ts)), map[]);
      if v == One {
        return Some(t), rows;
      }
      if t + 1 < |cex| {
        state := Clock(ts, e, memo);
      }
    }
    badAt := None;
  }

  lemma DefiniteBad(ts: TS, e: Env)
    requires Wf(ts)
    ensures Kleene(ts.bad, Exact(e, Names(ts))) == Of(Eval(ts.bad, e)) && Support(ts.bad) <= Exact(e, Names(ts)).Keys
  {
    DefiniteValue(ts, ts.bad, e);
  }

  method Reset(ts: TS) returns (st: Env)
    requires Wf(ts)
    ensures st == InitState(ts)
  {
    st := {};
    var i := 0;
    while i < |ts.state|
      invariant i <= |ts.state| && forall n :: n in st <==> n in ts.state[..i] && n in ts.init && ts.init[n]
    {
      assert ts.state[i] in States(ts);
      assert ts.state[..i + 1] == ts.state[..i] + [ts.state[i]];
      if ts.init[ts.state[i]] {
        st := st + {ts.state[i]};
      }
      i := i + 1;
    }
    assert ts.state[..i] == ts.state;
  }

  lemma Cycle(ts: TS, state: Env, step: Env, e: Env)
    requires Wf(ts) && state <= States(ts) && e == state + step * Inputs(ts)
    ensures e <= Names(ts) && e * States(ts) == state && e * Inputs(ts) == step * Inputs(ts)
  {
    assert e * States(ts) == state;
    assert e * Inputs(ts) == step * Inputs(ts);
  }

  lemma ReplayMore(ts: TS, cex: seq<Env>, rows: seq<Env>, e: Env)
    requires Wf(ts) && Replay(ts, cex, rows) && |rows| < |cex| && e <= Names(ts)
    requires e * Inputs(ts) == cex[|rows|] * Inputs(ts)
    requires e * States(ts) == if rows == [] then InitState(ts) else Next(ts, rows[|rows| - 1])
    ensures Replay(ts, cex, rows + [e])
  {
    if rows != [] {
      PathAppend(ts, rows, e);
    }
  }

  // ---- refinement --------------------------------------------------------------------------------

  /** A name the abstraction reads: in bad's support or a kept next-state function's. */
  ghost predicate IsRead(ts: TS, keep: set<Name>, n: Name)
    requires Wf(ts)
  {
    n in Support(ts.bad) || exists m :: m in keep && m in States(ts) && n in Support(ts.next[m])
  }

  /** If the replay agreed with the abstract run on every freed bit that is read, the
      two would agree on the kept bits too. */
  lemma {:induction false} KeptAgree(ts: TS, keep: set<Name>, a: TS, cex: seq<Env>, rows: seq<Env>, t: nat)
    requires Wf(ts) && Localized(ts, keep, a) && Wf(a) && Run(a, cex) && Replay(ts, cex, rows) && t < |rows|
    requires forall u, n | 0 <= u < |rows| && n in States(ts) && n !in keep && IsRead(ts, keep, n) :: n in cex[u] <==>
        n in rows[u]
    ensures forall n | IsRead(ts, keep, n) || (n in keep && n in States(ts)) :: n in Names(ts) ==>
        (n in cex[t] <==> n in rows[t])
    decreases t
  {
    LocalizedWf(ts, keep, a);
    forall n | n in keep && n in States(ts) ensures n in cex[t] <==> n in rows[t] {
      assert n in States(a);
      if t == 0 {
        assert n in cex[0] <==> n in cex[0] * States(a);
        assert n in rows[0] <==> n in rows[0] * States(ts);
      } else {
        KeptAgree(ts, keep, a, cex, rows, t - 1);
        assert Steps(a, cex[t - 1], cex[t]) && Steps(ts, rows[t - 1], rows[t]);
        forall x | x in Support(ts.next[n]) ensures x in cex[t - 1] <==> x in rows[t - 1] {
          assert IsRead(ts, keep, x) && x in Names(ts);
        }
        EvalSupport(ts.next[n], cex[t - 1], rows[t - 1]);
        assert n in cex[t] <==> n in cex[t] * States(a);
        assert n in rows[t] <==> n in rows[t] * States(ts);
      }
    }
    forall n | n in Inputs(ts) ensures n in cex[t] <==> n in rows[t] {
      assert n in cex[t] <==> n in cex[t] * Inputs(ts);
      assert n in rows[t] <==> n in rows[t] * Inputs(ts);
    }
  }

  /** The abstract run and the replay differ in this cycle on a freed bit that is read. */
  ghost predicate Diverges(ts: TS, keep: set<Name>, cex: seq<Env>, rows: seq<Env>, t: nat)
    requires Wf(ts) && t < |rows| <= |cex|
  {
    exists n :: n in States(ts) && n !in keep && IsRead(ts, keep, n) && (n in cex[t]) != (n in rows[t])
  }

  /** A counterexample that does not replay diverges on a freed bit that is read. */
  lemma SpuriousDiverges(ts: TS, keep: set<Name>, a: TS, cex: seq<Env>, rows: seq<Env>)
    requires Wf(ts) && Localized(ts, keep, a) && Wf(a) && Run(a, cex) && Replay(ts, cex, rows) && |rows| == |cex|
    requires Eval(ts.bad, cex[|cex| - 1]) && !Eval(ts.bad, rows[|cex| - 1])
    ensures exists t: nat :: t < |rows| && Diverges(ts, keep, cex, rows, t)
  {
    if forall t: nat | t < |rows| :: !Diverges(ts, keep, cex, rows, t) {
      var k := |cex| - 1;
      forall u, n | 0 <= u < |rows| && n in States(ts) && n !in keep && IsRead(ts, keep, n)
        ensures n in cex[u] <==> n in rows[u]
      {
        assert !Diverges(ts, keep, cex, rows, u);
      }
      KeptAgree(ts, keep, a, cex, rows, k);
      forall x | x in Support(ts.bad) ensures x in cex[k] <==> x in rows[k] {
        assert IsRead(ts, keep, x) && x in Names(ts);
      }
      EvalSupport(ts.bad, cex[k], rows[k]);
    }
  }

  /** The freed bits that the current abstraction reads, with cached supports. */
  class Frontier {
    const ts: TS
    const badSup: set<Name>
    var sup: map<Name, set<Name>>

    ghost predicate Valid()
      reads this
    {
      Wf(ts) && badSup == Support(ts.bad) && forall n | n in sup :: n in States(ts) && sup[n] == Support(ts.next[n])
    }

    constructor (ts: TS)
      requires Wf(ts)
      ensures Valid() && this.ts == ts && badSup == Support(ts.bad)
    {
      var s := SupportOf(ts.bad);
      this.ts, badSup, sup := ts, s, map[];
    }

    method SupOf(n: Name) returns (s: set<Name>)
      requires Valid() && n in States(ts)
      modifies `sup
      ensures Valid() && s == Support(ts.next[n])
    {
      if n !in sup {
        var t := SupportOf(ts.next[n]);
        sup := sup[n := t];
      }
      s := sup[n];
    }

    /** _Frontier.read. */
    method Read(keep: seq<Name>) returns (r: seq<Name>)
      requires Valid() && forall n | n in keep :: n in States(ts)
      modifies `sup
      ensures Valid()
      ensures forall n :: n in r <==> n in States(ts) && n !in keep && IsRead(ts, NameSet(keep), n)
    {
      hide Support;
      var cone := badSup;
      var i := 0;
      while i < |keep|
        invariant i <= |keep| && Valid()
        invariant forall n :: n in cone <==>
            n in badSup || exists m :: m in keep[..i] && m in States(ts) && n in Support(ts.next[m])
      {
        assert keep[i] in keep && keep[..i + 1] == keep[..i] + [keep[i]];
        var s := SupOf(keep[i]);
        cone := cone + s;
        i := i + 1;
      }
      assert keep[..i] == keep;
      r := Select(Select(ts.state, cone, true), NameSet(keep), false);
    }
  }

  function NameSet(ns: seq<Name>): set<Name> {
    set n | n in ns
  }

  /** The names of `frontier` on which the two cycles differ. */
  function Differing(frontier: seq<Name>, e: Env, e': Env): (d: seq<Name>)
    ensures forall n :: n in d <==> n in frontier && (n in e) != (n in e')
  {
    Select(frontier, (set n | n in frontier && (n in e) != (n in e')), true)
  }

  /** The first cycle that differs on the frontier, and where it does. */
  method FirstDivergence(frontier: seq<Name>, cex: seq<Env>, rows: seq<Env>) returns (div: seq<Name>, ghost at: nat)
    requires |rows| <= |cex|
    requires exists t, n :: 0 <= t < |rows| && n in frontier && (n in cex[t]) != (n in rows[t])
    ensures div != [] && at < |rows| && forall n :: n in div <==> n in frontier && (n in cex[at]) != (n in rows[at])
    ensures forall u, n | 0 <= u < at && n in frontier :: (n in cex[u]) == (n in rows[u])
  {
    div, at := [], 0;
    var t := 0;
    while t < |rows| && div == []
      invariant t <= |rows|
      invariant if div == [] then forall u, n | 0 <= u < t && n in frontier :: (n in cex[u]) == (n in rows[u])
        else && at < |rows| && (forall n :: n in div <==> n in frontier && (n in cex[at]) != (n in rows[at]))
             && forall u, n | 0 <= u < at && n in frontier :: (n in cex[u]) == (n in rows[u])
    {
      div, at := Differing(frontier, cex[t], rows[t]), t;
      assert div == [] ==> forall n | n in frontier :: (n in cex[t]) == (n in rows[t]) by {
        if div == [] {
          forall n | n in frontier ensures (n in cex[t]) == (n in rows[t]) {
            assert n !in div;
          }
        }
      }
      t := t + 1;
    }
  }

  /** The freed bits that are read on which the abstract run and the replay differ in cycle `t`. */
  ghost function Divergence(ts: TS, keep: set<Name>, cex: seq<Env>, rows: seq<Env>, t: nat): set<Name>
    requires Wf(ts) && t < |rows| <= |cex|
  {
    set n | n in States(ts) && n !in keep && IsRead(ts, keep, n) && (n in cex[t]) != (n in rows[t])
  }

  /** What a spurious counterexample adds: the bits of the first cycle that diverges. */
  ghost predicate Adds(ts: TS, keep: set<Name>, keep': set<Name>, cex: seq<Env>, rows: seq<Env>, t: nat)
    requires Wf(ts)
  {
    && t < |rows| <= |cex| && keep' == keep + Divergence(ts, keep, cex, rows, t)
    && Divergence(ts, keep, cex, rows, t) != {} && forall u | 0 <= u < t :: Divergence(ts, keep, cex, rows, u) == {}
  }

  /** One round: a shortest counterexample of the abstraction that keeps `keep`, which does not replay,
      adds the bits on which it first diverges. */
  ghost predicate Round(ts: TS, keep: set<Name>, keep': set<Name>, a: TS, cex: seq<Env>, rows: seq<Env>, t: nat)
    requires Wf(ts)
  {
    && Localized(ts, keep, a) && Wf(a) && cex != [] && Run(a, cex) && Eval(a.bad, cex[|cex| - 1])
    && (forall k: nat | k + 1 < |cex| :: !BadAt(a, k))
    && Replay(ts, cex, rows) && |rows| == |cex| && (forall u | 0 <= u < |rows| :: !Eval(ts.bad, rows[u]))
    && Adds(ts, keep, keep', cex, rows, t)
  }

  ghost predicate Refines(ts: TS, keep: set<Name>, keep': set<Name>)
    requires Wf(ts)
  {
    exists a, cex, rows, t :: Round(ts, keep, keep', a, cex, rows, t)
  }

  /** The bits kept, round by round: first those that bad reads. */
  ghost predicate History(ts: TS, keeps: seq<set<Name>>)
    requires Wf(ts)
  {
    && keeps != [] && keeps[0] == States(ts) * Support(ts.bad)
    && forall k | 0 <= k < |keeps| - 1 :: Refines(ts, keeps[k], keeps[k + 1])
  }

  lemma HistoryMore(ts: TS, keeps: seq<set<Name>>, keep': set<Name>)
    requires Wf(ts) && History(ts, keeps) && Refines(ts, keeps[|keeps| - 1], keep')
    ensures History(ts, keeps + [keep'])
  {
    hide Refines;
    var more := keeps + [keep'];
    forall k | 0 <= k < |more| - 1 ensures Refines(ts, more[k], more[k + 1]) {
      if k + 1 < |keeps| {
        assert more[k] == keeps[k] && more[k + 1] == keeps[k + 1];
      }
    }
  }

  // ---- the loop ------------------------------------------------------------------------------------

  datatype Result =
    | Proved(rounds: nat, kept: seq<Name>, frames: nat, inv: set<set<int>>)
    | Refuted(rounds: nat, kept: seq<Name>, depth: nat, trace: seq<Env>)
    | Unknown(rounds: nat, kept: seq<Name>)

  /** _abs_cex: the shortest abstract counterexample within the bound. */
  method AbstractCex(a: TS, kmax: nat) returns (cex: Option<seq<Env>>)
    requires Wf(a)
    ensures cex.Some? ==> cex.value != [] && Run(a, cex.value) && Eval(a.bad, cex.value[|cex.value| - 1])
    ensures forall k: nat | if cex.Some? then k + 1 < |cex.value| else k <= kmax :: !BadAt(a, k)
  {
    hide BadAt, Run, Bmc.Witness;
    var k := 0;
    AllNames(a);
    while k <= kmax
      invariant k <= kmax + 1 && forall j: nat | j < k :: !BadAt(a, j)
    {
      cex := Bmc.BadQuery(a, k, a.state + a.inputs);
      if cex.Some? {
        WitnessRun(a, cex.value);
        return;
      }
      k := k + 1;
    }
    cex := None;
  }

  lemma AllNames(a: TS)
    ensures Frames.NameSet(a.state + a.inputs) == Names(a)
  {
  }

  lemma WitnessRun(a: TS, rows: seq<Env>)
    requires Wf(a) && rows != [] && Bmc.Witness(a, Names(a), rows)
    ensures Run(a, rows) && Eval(a.bad, rows[|rows| - 1])
  {
    var tr :| Bmc.Reads(Names(a), tr, rows) && Run(a, tr) && Eval(a.bad, tr[|tr| - 1]);
    forall t | 0 <= t < |rows| ensures rows[t] == tr[t] {
      assert tr[t] <= Names(a);
    }
    assert rows == tr;
  }

  /** The clauses are an inductive invariant of the abstraction that keeps these bits, to which the frames of
      the proof engine converged. */
  ghost predicate Certified(ts: TS, keep: set<Name>, inv: set<set<int>>, frames: seq<set<set<int>>>, k: nat)
    requires Wf(ts)
  {
    exists a :: Localized(ts, keep, a) && Wf(a) && Ic3Spec.Proves(a, inv) && Pdr.Converges(a, frames, k, inv)
  }

  /** One spurious round: which bits to keep next. There is always one more. */
  method Refine(fr: Frontier, keep: seq<Name>, ghost a: TS, cex: seq<Env>, rows: seq<Env>) returns (keep': seq<Name>)
    requires fr.Valid() && (forall n | n in keep :: n in States(fr.ts)) && Localized(fr.ts, NameSet(keep), a) && Wf(a)
    requires cex != [] && Run(a, cex) && Eval(fr.ts.bad, cex[|cex| - 1])
    requires Replay(fr.ts, cex, rows) && |rows| == |cex| && !Eval(fr.ts.bad, rows[|cex| - 1])
    modifies fr`sup
    ensures fr.Valid() && NameSet(keep) < NameSet(keep') <= States(fr.ts)
    ensures keep' == Select(fr.ts.state, NameSet(keep'), true)
    ensures exists t: nat :: Adds(fr.ts, NameSet(keep), NameSet(keep'), cex, rows, t)
  {
    hide Localized, Run, IsRead, Eval;
    SpuriousDiverges(fr.ts, NameSet(keep), a, cex, rows);
    var frontier := fr.Read(keep);
    DivergesOn(fr.ts, keep, cex, rows, frontier);
    // The engine falls back on the whole frontier when nothing diverges; something does.
    var div;
    ghost var t;
    div, t := FirstDivergence(frontier, cex, rows);
    keep' := Select(fr.ts.state, NameSet(keep) + NameSet(div), true);
    assert div[0] in div && div[0] in NameSet(keep') && div[0] !in NameSet(keep);
    assert forall n | n in keep :: n in keep';
    DivergenceIs(fr.ts, keep, cex, rows, frontier, t, div, keep');
    SelectAgain(fr.ts.state, NameSet(keep) + NameSet(div), NameSet(keep'));
  }

  lemma DivergenceIs(ts: TS, keep: seq<Name>, cex: seq<Env>, rows: seq<Env>, frontier: seq<Name>, t: nat,
      div: seq<Name>,
      keep': seq<Name>)
    requires Wf(ts) && t < |rows| <= |cex| && div != []
    requires forall n :: n in frontier <==> n in States(ts) && n !in keep && IsRead(ts, NameSet(keep), n)
    requires forall n :: n in div <==> n in frontier && (n in cex[t]) != (n in rows[t])
    requires forall u, n | 0 <= u < t && n in frontier :: (n in cex[u]) == (n in rows[u])
    requires forall n :: n in keep' <==> n in keep || n in div
    ensures Adds(ts, NameSet(keep), NameSet(keep'), cex, rows, t)
  {
    hide IsRead;
    assert div[0] in div && div[0] in Divergence(ts, NameSet(keep), cex, rows, t);
    forall u | 0 <= u < t ensures Divergence(ts, NameSet(keep), cex, rows, u) == {} {
      forall n ensures n !in Divergence(ts, NameSet(keep), cex, rows, u) { assert n in frontier || n !in frontier; }
    }
  }

  lemma DivergesOn(ts: TS, keep: seq<Name>, cex: seq<Env>, rows: seq<Env>, frontier: seq<Name>)
    requires Wf(ts) && |rows| <= |cex| && exists t: nat :: t < |rows| && Diverges(ts, NameSet(keep), cex, rows, t)
    requires forall n :: n in frontier <==> n in States(ts) && n !in keep && IsRead(ts, NameSet(keep), n)
    ensures exists t, n :: 0 <= t < |rows| && n in frontier && (n in cex[t]) != (n in rows[t])
  {
    hide IsRead;
    var t: nat :| t < |rows| && Diverges(ts, NameSet(keep), cex, rows, t);
    var n :| n in States(ts) && n !in NameSet(keep) && IsRead(ts, NameSet(keep), n) && (n in cex[t]) != (n in rows[t]);
    assert n in frontier;
  }

  lemma MoreNames(a: set<Name>, b: set<Name>)
    requires a < b
    ensures |a| < |b|
  {
    var x :| x in b && x !in a;
    Fewer(a, b - {x});
  }

  /** The abstraction is unsafe, but only beyond this depth; so the design is not bad up to it. The depth
      is two more than the index of the last frame of the proof engine. */
  ghost predicate Beyond(ts: TS, keep: set<Name>, bound: nat, frames: seq<set<set<int>>>)
    requires Wf(ts)
  {
    && bound == |frames| + 1 && (exists a :: BeyondFor(ts, keep, bound, frames, a))
    && forall j: nat | j <= bound :: !BadAt(ts, j)
  }

  ghost predicate BeyondFor(ts: TS, keep: set<Name>, bound: nat, frames: seq<set<set<int>>>, a: TS)
    requires Wf(ts)
  {
    && Localized(ts, keep, a) && Wf(a) && !Safe(a) && Pdr.ValidFrames(a, frames)
    && forall j: nat | j <= bound :: !BadAt(a, j)
  }

  /** The proof engine gave up on the abstraction, for which so many frames may not be enough. */
  ghost predicate GaveUp(ts: TS, keep: set<Name>, maxFrames: nat)
    requires Wf(ts)
  {
    && (exists a :: Localized(ts, keep, a) && Wf(a) && maxFrames <= Convergence.Enough(a))
    && forall j: nat | j < maxFrames :: !BadAt(ts, j)
  }

  /** cegar. A verdict is final for the design, and the kept bits grow every round. `bound` is the
      depth that the search for an abstract counterexample of the last round went to, `frames` are those
      that the proof engine had then, and `keeps` the bits kept, round by round. */
  method Cegar(ts: TS, maxFrames: nat, maxRounds: nat)
      returns (r: Result, ghost bound: nat, ghost frames: seq<set<set<int>>>, ghost keeps: seq<set<Name>>)
    requires Wf(ts)
    ensures r.Proved? ==> Safe(ts) && Certified(ts, NameSet(r.kept), r.inv, frames, r.frames)
    ensures r.Refuted? ==>
      && |r.trace| == r.depth + 1 && Run(ts, r.trace) && Eval(ts.bad, r.trace[r.depth])
      && (forall t | 0 <= t < r.depth :: !Eval(ts.bad, r.trace[t]))
      && forall j: nat | j < r.depth :: !BadAt(ts, j)
    ensures r.Unknown? ==>
      || (r.rounds == maxRounds && maxRounds <= |NameSet(r.kept)|)
      || GaveUp(ts, NameSet(r.kept), maxFrames)
      || Beyond(ts, NameSet(r.kept), bound, frames)
    ensures r.Unknown? && maxRounds > |States(ts)| && maxFrames > Convergence.Enough(ts) ==>
      Beyond(ts, NameSet(r.kept), bound, frames)
    ensures r.rounds <= |States(ts)| + 1
    ensures History(ts, keeps) && NameSet(r.kept) == keeps[|keeps| - 1]
    ensures |keeps| == r.rounds || (r.Unknown? && r.rounds == maxRounds && |keeps| == maxRounds + 1)
    ensures r.kept == Select(ts.state, NameSet(r.kept), true)
  {
    hide Wf, Localized, Run, Safe, Eval, Replay, Support, BadAt, Adds, Convergence.Enough, History, AllStates,
      Pdr.ValidFrames, Convergence.Unconverged, Frontier.Valid, Pdr.Converges, Ic3Spec.Proves, Select, States, Names,
      Ic3Spec.MeetsInit, Ic3Spec.Doomed, Refines, NameSet, Certified, GaveUp, Beyond;
    var fr := new Frontier(ts);
    var keep := Select(ts.state, fr.badSup, true);
    var rnd := 1;
    bound, frames, keeps := 0, [], [NameSet(keep)];
    HistoryFirst(ts, keep);
    while rnd <= maxRounds
      invariant 1 <= rnd <= maxRounds + 1 && fr.Valid() && fr.ts == ts
      invariant NameSet(keep) <= States(ts) && rnd - 1 <= |NameSet(keep)|
      invariant keep == Select(ts.state, NameSet(keep), true)
      invariant |keeps| == rnd && keeps[rnd - 1] == NameSet(keep) && History(ts, keeps)
    {
      Fewer(NameSet(keep), States(ts));
      var a := Localize(ts, NameSet(keep));
      EnoughLocalized(ts, NameSet(keep), a);
      var engine := new Pdr.Engine(a);
      var v := engine.Solve(maxFrames);
      frames := engine.frames;
      if v.SafeBy? {
        LocalizedSafe(ts, NameSet(keep), a);
        CertifiedBy(ts, NameSet(keep), a, v.inv, frames, v.frames);
        return Proved(rnd, keep, v.frames, v.inv), bound, frames, keeps;
      }
      Shallower(ts, NameSet(keep), a);
      if v.Unknown? {
        GaveUpOn(ts, NameSet(keep), a, maxFrames);
        return Unknown(rnd, keep), bound, frames, keeps;
      }
      var kmax := (if v.UnsafeAt? then v.frames else 0) + 2;
      bound := kmax;
      var cex := AbstractCex(a, kmax);
      if cex.None? {
        UnsafeSomewhere(a, v);
        BeyondBy(ts, NameSet(keep), bound, frames, a);
        return Unknown(rnd, keep), bound, frames, keeps;
      }
      var badAt, rows := Simulate(ts, cex.value);
      if badAt.Some? {
        ReplayRun(ts, cex.value, rows);
        ReplayShort(ts, cex.value, rows);
        return Refuted(rnd, keep, badAt.value, rows), bound, frames, keeps;
      }
      ghost var old_ := NameSet(keep);
      KeptStates(ts, keep);
      keep := Refine(fr, keep, a, cex.value, rows);
      RoundDone(ts, old_, NameSet(keep), a, cex.value, rows);
      HistoryMore(ts, keeps, NameSet(keep));
      keeps := keeps + [NameSet(keep)];
      MoreNames(old_, NameSet(keep));
      rnd := rnd + 1;
    }
    Fewer(NameSet(keep), States(ts));
    r := Unknown(maxRounds, keep);
  }

  lemma CertifiedBy(ts: TS, keep: set<Name>, a: TS, inv: set<set<int>>, frames: seq<set<set<int>>>, k: nat)
    requires Wf(ts) && Localized(ts, keep, a) && Wf(a) && Ic3Spec.Proves(a, inv) && Pdr.Converges(a, frames, k, inv)
    ensures Certified(ts, keep, inv, frames, k)
  {
    hide Localized, Wf, Ic3Spec.Proves, Pdr.Converges;
  }

  lemma GaveUpOn(ts: TS, keep: set<Name>, a: TS, maxFrames: nat)
    requires Wf(ts) && Localized(ts, keep, a) && Wf(a) && maxFrames <= Convergence.Enough(a)
    requires forall j: nat | j < maxFrames :: !BadAt(ts, j)
    ensures GaveUp(ts, keep, maxFrames)
  {
    hide Localized, BadAt, Convergence.Enough;
  }

  lemma BeyondBy(ts: TS, keep: set<Name>, bound: nat, frames: seq<set<set<int>>>, a: TS)
    requires Wf(ts) && Localized(ts, keep, a) && Wf(a) && !Safe(a) && Pdr.ValidFrames(a, frames)
    requires bound == |frames| + 1 && forall j: nat | j <= bound :: !BadAt(a, j) && !BadAt(ts, j)
    ensures Beyond(ts, keep, bound, frames)
  {
    hide Localized, BadAt, Safe, Pdr.ValidFrames;
    assert BeyondFor(ts, keep, bound, frames, a);
  }

  lemma HistoryFirst(ts: TS, keep: seq<Name>)
    requires Wf(ts) && forall n :: n in keep <==> n in ts.state && n in Support(ts.bad)
    ensures History(ts, [NameSet(keep)]) && NameSet(keep) <= States(ts)
    ensures keep == Select(ts.state, Support(ts.bad), true) ==> keep == Select(ts.state, NameSet(keep), true)
  {
    hide Support;
    SelectAgain(ts.state, Support(ts.bad), NameSet(keep));
    assert NameSet(keep) == States(ts) * Support(ts.bad);
  }

  lemma KeptStates(ts: TS, keep: seq<Name>)
    requires NameSet(keep) <= States(ts)
    ensures forall n | n in keep :: n in States(ts)
  {
    forall n | n in keep ensures n in States(ts) { assert n in NameSet(keep); }
  }

  lemma RoundDone(ts: TS, keep: set<Name>, keep': set<Name>, a: TS, cex: seq<Env>, rows: seq<Env>)
    requires Wf(ts) && Localized(ts, keep, a) && Wf(a) && cex != [] && Run(a, cex) && Eval(a.bad, cex[|cex| - 1])
    requires forall k: nat | k + 1 < |cex| :: !BadAt(a, k)
    requires Replay(ts, cex, rows) && |rows| == |cex| && forall u | 0 <= u < |rows| :: !Eval(ts.bad, rows[u])
    requires exists t: nat :: Adds(ts, keep, keep', cex, rows, t)
    ensures Refines(ts, keep, keep')
  {
    hide Wf, Localized, Run, Eval, BadAt, Replay, Adds;
    var t: nat :| Adds(ts, keep, keep', cex, rows, t);
    assert Round(ts, keep, keep', a, cex, rows, t);
  }

  /** An abstraction needs no more frames than the design. */
  lemma EnoughLocalized(ts: TS, keep: set<Name>, a: TS)
    requires Wf(ts) && Localized(ts, keep, a)
    ensures Convergence.Enough(a) <= Convergence.Enough(ts)
  {
    hide Localized;
    LocalizedWf(ts, keep, a);
    Fewer(AllStates(a), AllStates(ts));
    SelectFewer(ts, keep, a);
    var m, n, p, q := |AllStates(a)|, |AllStates(ts)|, Convergence.TooMany(a), Convergence.TooMany(ts);
    Convergence.MoreEnough(m, n, p, q);
  }

  lemma SelectFewer(ts: TS, keep: set<Name>, a: TS)
    requires Localized(ts, keep, a)
    ensures |a.state| <= |ts.state|
  {
    SelectShort(ts.state, keep, true);
  }

  lemma {:induction false} SelectShort(ns: seq<Name>, keep: set<Name>, inside: bool)
    ensures |Select(ns, keep, inside)| <= |ns|
  {
    if ns != [] {
      SelectShort(ns[1..], keep, inside);
    }
  }

  lemma UnsafeSomewhere(a: TS, v: Pdr.Result)
    requires Wf(a) && (v.UnsafeAtReset? ==> BadAt(a, 0)) && (v.UnsafeAt? ==> !Safe(a))
        && (v.UnsafeAtReset? || v.UnsafeAt?)
    ensures !Safe(a)
  {
  }

  /** Bad at a depth in the design is bad there in the abstraction. */
  lemma Shallower(ts: TS, keep: set<Name>, a: TS)
    requires Wf(ts) && Localized(ts, keep, a) && Wf(a) && a.bad == ts.bad
    ensures forall j: nat | !BadAt(a, j) :: !BadAt(ts, j)
  {
    hide Localized, Run;
    forall j: nat | BadAt(ts, j) ensures BadAt(a, j) {
      var tr :| Run(ts, tr) && |tr| == j + 1 && Eval(ts.bad, tr[j]);
      LocalizedRun(ts, keep, a, tr);
    }
  }

  lemma ReplayShort(ts: TS, cex: seq<Env>, rows: seq<Env>)
    requires Wf(ts) && Replay(ts, cex, rows)
    ensures |rows| <= |cex|
  {
  }

  lemma ReplayRun(ts: TS, cex: seq<Env>, rows: seq<Env>)
    requires Wf(ts) && Replay(ts, cex, rows) && rows != []
    ensures Run(ts, rows)
  {
  }
}
